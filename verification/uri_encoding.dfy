/**
 * `encodeURIComponent` of ECMA-262 (ECMAScript 2015, section 18.2.6.5) on
 * ASCII text: the letters, the digits and `- _ . ! ~ * ' ( )` are kept, every
 * other character becomes `%` and two upper-case hexadecimal digits. This is
 * wider than the unreserved set of section 3.6 of RFC 5849, which also
 * escapes `! * ' ( )`; the code calls `encodeURIComponent`, and so does the
 * model.
 */
module UriEncoding {
  import opened Wrappers
  import opened Strings

  predicate Unreserved(c: char)
  {
    || 'A' <= c <= 'Z' || 'a' <= c <= 'z' || '0' <= c <= '9'
    || c == '-' || c == '_' || c == '.' || c == '!' || c == '~'
    || c == '*' || c == '\'' || c == '(' || c == ')'
  }

  predicate AllUnreserved(s: Text)
  {
    forall i :: 0 <= i < |s| ==> Unreserved(s[i])
  }

  /** Upper-case hexadecimal digit of a value below 16. */
  function HexDigit(d: int): AsciiChar
    requires 0 <= d < 16
  {
    if d < 10 then ('0' as int + d) as char else ('A' as int + d - 10) as char
  }

  predicate IsHexDigit(c: char)
  {
    '0' <= c <= '9' || 'A' <= c <= 'F' || 'a' <= c <= 'f'
  }

  function HexValue(c: char): (v: int)
    requires IsHexDigit(c)
    ensures 0 <= v < 16
  {
    if '0' <= c <= '9' then c as int - '0' as int
    else if 'A' <= c <= 'F' then c as int - 'A' as int + 10
    else c as int - 'a' as int + 10
  }

  /** `%` and the two upper-case hexadecimal digits of the character code. */
  function Escape(c: AsciiChar): Text
  {
    ['%', HexDigit(c as int / 16), HexDigit(c as int % 16)]
  }

  function EncodeChar(c: AsciiChar): Text
  {
    if Unreserved(c) then [c] else Escape(c)
  }

  /** `encodeURIComponent(s)`. */
  function Encode(s: Text): (r: Text)
    ensures |s| <= |r| <= 3 * |s|
  {
    if |s| == 0 then [] else EncodeChar(s[0]) + Encode(s[1..])
  }

  /** What comes out is made only of characters left alone and of `%` escapes. */
  lemma {:induction false} EncodeSafe(s: Text)
    ensures |Encode(s)| >= |s|
    ensures forall i :: 0 <= i < |Encode(s)| ==> Unreserved(Encode(s)[i]) || Encode(s)[i] == '%'
  {
    if |s| > 0 {
      EncodeSafe(s[1..]);
      var e := Encode(s);
      forall i | 0 <= i < |e| ensures Unreserved(e[i]) || e[i] == '%' {
        if i >= |EncodeChar(s[0])| {
          assert e[i] == Encode(s[1..])[i - |EncodeChar(s[0])|];
        }
      }
    }
  }

  /** Encoding works character by character, so it distributes over `+`. */
  lemma {:induction false} EncodeAppend(a: Text, b: Text)
    ensures Encode(a + b) == Encode(a) + Encode(b)
  {
    if |a| == 0 {
      assert a + b == b;
    } else {
      assert (a + b)[0] == a[0] && (a + b)[1..] == a[1..] + b;
      EncodeAppend(a[1..], b);
    }
  }

  /** A character that must be escaped, other than `%`, never survives encoding. */
  lemma EncodeRemoves(s: Text, c: char)
    requires !Unreserved(c) && c != '%'
    ensures c !in Encode(s)
  {
    EncodeSafe(s);
  }

  /** Each text encoded on its own. */
  function EncodeEach(parts: seq<Text>): (r: seq<Text>)
    ensures |r| == |parts|
  {
    seq(|parts|, j requires 0 <= j < |parts| => Encode(parts[j]))
  }

  lemma {:induction false} EncodeConcat(parts: seq<Text>)
    ensures Encode(Concat(parts)) == Concat(EncodeEach(parts))
  {
    if |parts| > 0 {
      var n := |parts|;
      EncodeConcat(parts[..n - 1]);
      EncodeAppend(Concat(parts[..n - 1]), parts[n - 1]);
      assert EncodeEach(parts)[..n - 1] == EncodeEach(parts[..n - 1]);
    }
  }

  /**
   * Encoding a joined list is joining the encoded parts with the encoded
   * separator: a `&` between two parameters comes out as `%26`.
   */
  lemma EncodeJoin(parts: seq<Text>, sep: Text)
    ensures Encode(Join(parts, sep)) == Concat(EncodeEach(Terminated(parts, sep)))
    ensures Encode(Join(parts, sep)) == Join(EncodeEach(parts), Encode(sep))
  {
    JoinIsConcat(parts, sep);
    EncodeConcat(Terminated(parts, sep));
    JoinIsConcat(EncodeEach(parts), Encode(sep));
    forall j | 0 <= j < |parts|
      ensures EncodeEach(Terminated(parts, sep))[j] == Terminated(EncodeEach(parts), Encode(sep))[j]
    {
      if j < |parts| - 1 {
        EncodeAppend(parts[j], sep);
      }
    }
    assert EncodeEach(Terminated(parts, sep)) == Terminated(EncodeEach(parts), Encode(sep));
  }

  /** Encoding leaves `s` as it is exactly when `s` has nothing to escape. */
  lemma {:induction false} EncodeIdentity(s: Text)
    ensures Encode(s) == s <==> AllUnreserved(s)
  {
    if |s| > 0 {
      EncodeIdentity(s[1..]);
      if Unreserved(s[0]) {
        assert s == [s[0]] + s[1..];
        assert AllUnreserved(s) <==> AllUnreserved(s[1..]) by {
          if AllUnreserved(s[1..]) {
            forall i | 0 < i < |s| ensures Unreserved(s[i]) { assert s[i] == s[1..][i - 1]; }
          }
        }
      } else {
        EncodeSafe(s[1..]);
        assert |Encode(s)| > |s|;
      }
    }
  }

  /** `decodeURIComponent` on escapes of ASCII characters; anything else fails. */
  function Decode(s: Text): Option<Text>
  {
    if |s| == 0 then Some([])
    else if s[0] != '%' then
      match Decode(s[1..])
      case Some(t) => Some([s[0]] + t)
      case None => None
    else if |s| >= 3 && IsHexDigit(s[1]) && IsHexDigit(s[2])
            && HexValue(s[1]) * 16 + HexValue(s[2]) < 128 then
      match Decode(s[3..])
      case Some(t) => Some([(HexValue(s[1]) * 16 + HexValue(s[2])) as char] + t)
      case None => None
    else None
  }

  lemma HexRoundTrip(d: int)
    requires 0 <= d < 16
    ensures IsHexDigit(HexDigit(d)) && HexValue(HexDigit(d)) == d
  {
  }

  /** Decoding recovers what was encoded: the encoding loses nothing. */
  lemma {:induction false} DecodeEncode(s: Text)
    ensures Decode(Encode(s)) == Some(s)
  {
    if |s| > 0 {
      DecodeEncode(s[1..]);
      var c := s[0];
      var e := Encode(s);
      if Unreserved(c) {
        assert e == [c] + Encode(s[1..]);
        assert e[1..] == Encode(s[1..]);
      } else {
        HexRoundTrip(c as int / 16);
        HexRoundTrip(c as int % 16);
        assert e == Escape(c) + Encode(s[1..]);
        assert e[3..] == Encode(s[1..]);
        assert (c as int / 16) * 16 + c as int % 16 == c as int;
      }
      assert s == [s[0]] + s[1..];
    }
  }

  /** Encoding is one-to-one: different texts never sign alike. */
  lemma EncodeInjective(a: Text, b: Text)
    requires Encode(a) == Encode(b)
    ensures a == b
  {
    DecodeEncode(a);
    DecodeEncode(b);
  }
}
