/**
 * Text as the JavaScript code sees it, restricted to ASCII, and the
 * string primitives the OAuth helpers use: `split` on one character,
 * `join`, `indexOf(prefix) === 0`, and the decimal rendering of a number.
 */
module Strings {

  /** One UTF-16 code unit below 0x80. */
  type AsciiChar = c: char | c as int < 128 witness 'a'

  type Text = seq<AsciiChar>

  /** `parts.join(sep)`: the parts with `sep` between neighbours. */
  function Join(parts: seq<Text>, sep: Text): Text
  {
    if |parts| == 0 then []
    else if |parts| == 1 then parts[0]
    else parts[0] + sep + Join(parts[1..], sep)
  }

  lemma {:induction false} JoinSnoc(parts: seq<Text>, p: Text, sep: Text)
    requires |parts| > 0
    ensures Join(parts + [p], sep) == Join(parts, sep) + sep + p
  {
    if |parts| == 1 {
      assert parts + [p] == [parts[0], p];
      assert (parts + [p])[1..] == [p];
    } else {
      assert (parts + [p])[1..] == parts[1..] + [p];
      JoinSnoc(parts[1..], p, sep);
    }
  }

  /** A character in neither the parts nor the separator is not in their join. */
  lemma {:induction false} JoinAvoids(parts: seq<Text>, sep: Text, c: AsciiChar)
    requires c !in sep
    requires forall i :: 0 <= i < |parts| ==> c !in parts[i]
    ensures c !in Join(parts, sep)
  {
    if |parts| > 1 {
      JoinAvoids(parts[1..], sep, c);
    }
  }

  lemma AppendAssoc<T>(a: seq<T>, b: seq<T>, c: seq<T>)
    ensures (a + b) + c == a + (b + c)
  {
  }

  /** The parts one after the other. */
  function Concat(parts: seq<Text>): Text
  {
    if |parts| == 0 then [] else Concat(parts[..|parts| - 1]) + parts[|parts| - 1]
  }

  lemma ConcatStep(parts: seq<Text>, i: nat)
    requires i < |parts|
    ensures Concat(parts[..i + 1]) == Concat(parts[..i]) + parts[i]
  {
    assert parts[..i + 1][..i] == parts[..i];
  }

  lemma {:induction false} ConcatCons(p: Text, parts: seq<Text>)
    ensures Concat([p] + parts) == p + Concat(parts)
  {
    if |parts| > 0 {
      var n := |parts|;
      assert ([p] + parts)[..n] == [p] + parts[..n - 1];
      ConcatCons(p, parts[..n - 1]);
    } else {
      assert [p][..0] == [];
    }
  }

  /** Each part followed by `sep`, except the last one. */
  function Terminated(parts: seq<Text>, sep: Text): (r: seq<Text>)
    ensures |r| == |parts|
  {
    seq(|parts|, j requires 0 <= j < |parts| => if j == |parts| - 1 then parts[j] else parts[j] + sep)
  }

  /** Joining is writing each part with its separator, the last part without one. */
  lemma {:induction false} JoinIsConcat(parts: seq<Text>, sep: Text)
    ensures Join(parts, sep) == Concat(Terminated(parts, sep))
  {
    if |parts| == 1 {
      assert Terminated(parts, sep) == [] + [parts[0]];
    } else if |parts| > 1 {
      JoinIsConcat(parts[1..], sep);
      assert Terminated(parts, sep) == [parts[0] + sep] + Terminated(parts[1..], sep);
      ConcatCons(parts[0] + sep, Terminated(parts[1..], sep));
    }
  }

  /**
   * `s.split(sep)` for a one-character separator: the maximal pieces
   * between separators; there is always at least one piece (`"".split`
   * gives `[""]`), and joining the pieces back gives `s`.
   */
  function Split(s: Text, sep: AsciiChar): (pieces: seq<Text>)
    ensures |pieces| >= 1
    ensures Join(pieces, [sep]) == s
    ensures forall i :: 0 <= i < |pieces| ==> sep !in pieces[i]
  {
    if |s| == 0 then [[]]
    else
      var rest := Split(s[1..], sep);
      if s[0] == sep then
        assert Join([[]] + rest, [sep]) == [sep] + Join(rest, [sep]);
        [[]] + rest
      else
        var r := [[s[0]] + rest[0]] + rest[1..];
        assert |rest| > 1 ==> Join(r, [sep]) == [s[0]] + rest[0] + [sep] + Join(rest[1..], [sep]);
        r
  }

  /** Splitting undoes joining when no part contains the separator. */
  lemma {:induction false} SplitJoin(parts: seq<Text>, sep: AsciiChar)
    requires |parts| >= 1
    requires forall i :: 0 <= i < |parts| ==> sep !in parts[i]
    ensures Split(Join(parts, [sep]), sep) == parts
  {
    if |parts| == 1 {
      SplitNoSeparator(parts[0], sep);
    } else {
      SplitJoin(parts[1..], sep);
      SplitPrefix(parts[0], Join(parts[1..], [sep]), sep);
      assert parts[0] + [sep] + Join(parts[1..], [sep]) == parts[0] + ([sep] + Join(parts[1..], [sep]));
    }
  }

  lemma {:induction false} SplitNoSeparator(s: Text, sep: AsciiChar)
    requires sep !in s
    ensures Split(s, sep) == [s]
  {
    if |s| > 0 {
      SplitNoSeparator(s[1..], sep);
      assert [s[0]] + s[1..] == s;
    }
  }

  /** There is a second piece exactly when the separator occurs. */
  lemma SplitSeparated(s: Text, sep: AsciiChar)
    ensures |Split(s, sep)| >= 2 <==> sep in s
  {
    if sep !in s {
      SplitNoSeparator(s, sep);
    }
  }

  /** A separator-free head followed by the separator becomes its own piece. */
  lemma {:induction false} SplitPrefix(head: Text, tail: Text, sep: AsciiChar)
    requires sep !in head
    ensures Split(head + ([sep] + tail), sep) == [head] + Split(tail, sep)
  {
    if |head| == 0 {
      assert head + ([sep] + tail) == [sep] + tail;
      assert ([sep] + tail)[1..] == tail;
    } else {
      var s := head + ([sep] + tail);
      assert s[1..] == head[1..] + ([sep] + tail);
      SplitPrefix(head[1..], tail, sep);
      assert [head[0]] + head[1..] == head;
    }
  }

  /** A separator-free tail after the last separator becomes the last piece. */
  lemma {:induction false} SplitSnoc(head: Text, tail: Text, sep: AsciiChar)
    requires sep !in tail
    ensures Split(head + [sep] + tail, sep) == Split(head, sep) + [tail]
  {
    if |head| == 0 {
      assert head + [sep] + tail == [sep] + tail;
      assert ([sep] + tail)[1..] == tail;
      SplitNoSeparator(tail, sep);
    } else {
      assert (head + [sep] + tail)[1..] == head[1..] + [sep] + tail;
      SplitSnoc(head[1..], tail, sep);
    }
  }

  /** Two separator-free texts joined by the separator split back into the two. */
  lemma SplitTwo(a: Text, b: Text, sep: AsciiChar)
    requires sep !in a && sep !in b
    ensures Split(a + [sep] + b, sep) == [a, b]
  {
    assert Join([a, b], [sep]) == a + [sep] + b by {
      assert [a, b][1..] == [b];
    }
    SplitJoin([a, b], sep);
  }

  /** `s.indexOf(prefix) === 0`. */
  predicate StartsWith(s: Text, prefix: Text)
  {
    |prefix| <= |s| && s[..|prefix|] == prefix
  }

  /** A text that starts with `prefix` is `prefix` followed by the rest. */
  lemma PrefixRest(s: Text, prefix: Text)
    requires StartsWith(s, prefix)
    ensures s == prefix + s[|prefix|..]
  {
    assert s == s[..|prefix|] + s[|prefix|..];
  }

  /** The number a text of decimal digits denotes, most significant digit first. */
  function DigitsValue(s: Text): int
  {
    if |s| == 0 then 0
    else 10 * DigitsValue(s[..|s| - 1]) + (s[|s| - 1] as int - '0' as int)
  }

  /**
   * The decimal rendering JavaScript gives a non-negative integer: digits
   * only, denoting `n`, with no leading zero.
   */
  function Decimal(n: nat): (r: Text)
    ensures |r| >= 1
    ensures forall i :: 0 <= i < |r| ==> '0' <= r[i] <= '9'
    ensures DigitsValue(r) == n
    ensures r[0] == '0' ==> n == 0
    ensures |r| > 1 ==> r[0] != '0'
  {
    var d := [('0' as int + n % 10) as char];
    if n < 10 then d
    else
      var prefix := Decimal(n / 10);
      assert (prefix + d)[..|prefix|] == prefix;
      prefix + d
  }
}
