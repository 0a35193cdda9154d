/**
 * The order `Array.prototype.sort()` uses without a comparator: strings are
 * compared UTF-16 code unit by code unit, which on ASCII text is the
 * lexicographic order by character code, a proper prefix coming first.
 */
module KeyOrder {
  import opened Strings

  /** `a` sorts strictly before `b`; of two texts one of which starts with the other, the shorter comes first. */
  predicate Below(a: Text, b: Text)
    ensures StartsWith(b, a) ==> (Below(a, b) <==> |a| < |b|)
    ensures StartsWith(a, b) ==> !Below(a, b)
  {
    if |a| == 0 then |b| > 0
    else if |b| == 0 then false
    else if a[0] != b[0] then a[0] < b[0]
    else Below(a[1..], b[1..])
  }

  lemma {:induction false} BelowIrreflexive(a: Text)
    ensures !Below(a, a)
  {
    if |a| > 0 { BelowIrreflexive(a[1..]); }
  }

  lemma {:induction false} BelowTransitive(a: Text, b: Text, c: Text)
    requires Below(a, b) && Below(b, c)
    ensures Below(a, c)
  {
    if |a| > 0 && |b| > 0 && |c| > 0 && a[0] == b[0] == c[0] {
      BelowTransitive(a[1..], b[1..], c[1..]);
    }
  }

  /** Any two different keys are ordered one way, and only one way. */
  lemma {:induction false} BelowTotal(a: Text, b: Text)
    ensures a == b || Below(a, b) || Below(b, a)
    ensures !(Below(a, b) && Below(b, a))
  {
    if |a| > 0 && |b| > 0 && a[0] == b[0] {
      BelowTotal(a[1..], b[1..]);
      if a[1..] == b[1..] {
        assert a == [a[0]] + a[1..] && b == [b[0]] + b[1..];
      }
    }
  }

  predicate StrictlyAscending(s: seq<Text>)
  {
    forall i, j :: 0 <= i < j < |s| ==> Below(s[i], s[j])
  }

  predicate Distinct(s: seq<Text>)
  {
    forall i, j :: 0 <= i < j < |s| ==> s[i] != s[j]
  }

  /** Puts `x` in front of the first element it does not sort after. */
  function Insert(x: Text, s: seq<Text>): seq<Text>
  {
    if |s| == 0 then [x]
    else if Below(s[0], x) then [s[0]] + Insert(x, s[1..])
    else [x] + s
  }

  /** The sorted copy of `s`. */
  function Sort(s: seq<Text>): seq<Text>
  {
    if |s| == 0 then [] else Insert(s[0], Sort(s[1..]))
  }

  lemma {:induction false} InsertPermutes(x: Text, s: seq<Text>)
    ensures multiset(Insert(x, s)) == multiset(s) + multiset{x}
  {
    if |s| > 0 && Below(s[0], x) {
      InsertPermutes(x, s[1..]);
      assert s == [s[0]] + s[1..];
    }
  }

  /** Sorting keeps the same elements, each as many times. */
  lemma {:induction false} SortPermutes(s: seq<Text>)
    ensures multiset(Sort(s)) == multiset(s)
  {
    if |s| > 0 {
      SortPermutes(s[1..]);
      InsertPermutes(s[0], Sort(s[1..]));
      assert s == [s[0]] + s[1..];
    }
  }

  lemma {:induction false} InsertAscending(x: Text, s: seq<Text>)
    requires StrictlyAscending(s) && x !in s
    ensures StrictlyAscending(Insert(x, s))
  {
    if |s| > 0 && Below(s[0], x) {
      InsertAscending(x, s[1..]);
      InsertPermutes(x, s[1..]);
      var r := Insert(x, s);
      forall j | 0 < j < |r| ensures Below(r[0], r[j]) {
        assert r[j] in multiset(Insert(x, s[1..]));
        if r[j] != x {
          assert r[j] in s[1..];
        }
      }
    } else if |s| > 0 {
      BelowTotal(x, s[0]);
      forall j | 0 < j < |s| ensures Below(x, s[j]) {
        BelowTransitive(x, s[0], s[j]);
      }
    }
  }

  /** Sorting distinct keys lists them in strictly ascending order. */
  lemma {:induction false} SortAscending(s: seq<Text>)
    requires Distinct(s)
    ensures StrictlyAscending(Sort(s))
  {
    if |s| > 0 {
      SortAscending(s[1..]);
      SortPermutes(s[1..]);
      assert s[0] !in multiset(s[1..]);
      InsertAscending(s[0], Sort(s[1..]));
    }
  }

  /**
   * There is only one strictly ascending listing of a set of keys: the
   * sorted result does not depend on the order the keys came in.
   */
  lemma {:induction false} AscendingUnique(r1: seq<Text>, r2: seq<Text>)
    requires StrictlyAscending(r1) && StrictlyAscending(r2)
    requires forall x :: x in r1 <==> x in r2
    ensures r1 == r2
  {
    if |r1| > 0 { assert r1[0] in r2; }
    if |r2| > 0 { assert r2[0] in r1; }
    if |r1| > 0 {
      if r1[0] != r2[0] {
        assert r2[0] in r1 && r1[0] in r2;
        var i :| 0 <= i < |r1| && r1[i] == r2[0];
        var j :| 0 <= j < |r2| && r2[j] == r1[0];
        assert Below(r1[0], r2[0]) && Below(r2[0], r1[0]);
        BelowTotal(r1[0], r2[0]);
      }
      forall x ensures x in r1[1..] <==> x in r2[1..] {
        if x in r1[1..] {
          var i :| 1 <= i < |r1| && r1[i] == x;
          assert Below(r1[0], x);
          BelowIrreflexive(x);
          assert x in r2 && x != r2[0];
          var j :| 0 <= j < |r2| && r2[j] == x;
          assert r2[1..][j - 1] == x;
        }
        if x in r2[1..] {
          var j :| 1 <= j < |r2| && r2[j] == x;
          assert Below(r2[0], x);
          BelowIrreflexive(x);
          assert x in r1 && x != r1[0];
          var i :| 0 <= i < |r1| && r1[i] == x;
          assert r1[1..][i - 1] == x;
        }
      }
      AscendingUnique(r1[1..], r2[1..]);
      assert r1 == [r1[0]] + r1[1..] && r2 == [r2[0]] + r2[1..];
    }
  }
}
