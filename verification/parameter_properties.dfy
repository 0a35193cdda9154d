/**
 * What writing and reading `k=v&k=v` parameter strings promise:
 * `parseResponseParameters` keeps one property per name, the last piece
 * naming a key wins, a piece without `=` reads as `undefined`, and reading
 * back what `generateUrlParameters` wrote gives the same properties, in
 * ascending key order, as long as no name or value holds `&` or `=`.
 */
module ParameterProperties {
  import opened Wrappers
  import opened Strings
  import opened KeyOrder
  import opened JsObjects
  import opened OauthUtility

  /** The parsed object never lists a name twice. */
  lemma ParseDistinct(s: Text)
    ensures DistinctKeys(ParseParameters(s))
  {
    AssignAllDistinct([], ParsedPieces(Split(s, '&')));
  }

  /** A name is present exactly when some `&`-piece starts with it. */
  lemma ParseKeys(s: Text, k: Text)
    ensures k in Keys(ParseParameters(s)) <==> exists j :: 0 <= j < |Split(s, '&')| && PieceKey(Split(s, '&')[j]) == k
  {
    var pieces := Split(s, '&');
    var updates := ParsedPieces(pieces);
    var none: seq<Entry<Option<Text>>> := [];
    assert k in Keys(ParseParameters(s)) <==> k in Keys(updates) by {
      AssignAllKeys(none, updates, k);
      assert Keys(none) == [];
    }
    if k in Keys(updates) {
      var j :| 0 <= j < |updates| && Keys(updates)[j] == k;
      assert 0 <= j < |pieces| && PieceKey(pieces[j]) == k;
      assert exists j :: 0 <= j < |Split(s, '&')| && PieceKey(Split(s, '&')[j]) == k;
      assert k in Keys(ParseParameters(s));
    } else {
      forall j | 0 <= j < |pieces| ensures PieceKey(pieces[j]) != k {
        assert Keys(updates)[j] == PieceKey(pieces[j]);
      }
    }
  }

  /** When several pieces name the same key, the last one decides its value. */
  lemma ParseLastWins(s: Text, j: nat)
    requires j < |Split(s, '&')|
    requires forall j' :: j < j' < |Split(s, '&')| ==> PieceKey(Split(s, '&')[j']) != PieceKey(Split(s, '&')[j])
    ensures Lookup(ParseParameters(s), PieceKey(Split(s, '&')[j])) == Some(PieceValue(Split(s, '&')[j]))
  {
    var pieces := Split(s, '&');
    var updates := ParsedPieces(pieces);
    forall j' | j < j' < |updates| ensures updates[j'].key != updates[j].key {
      assert updates[j'].key == PieceKey(pieces[j']);
    }
    AssignAllLast([], updates, j);
  }

  /** `k=v` with no `=` inside `k` or `v` reads back as `k` and `v`. */
  lemma PieceOfPair(k: Text, v: Text)
    requires '=' !in k && '=' !in v
    ensures PieceKey(Pair(k, v)) == k && PieceValue(Pair(k, v)) == Some(v)
  {
    assert Join([k, v], "=") == Pair(k, v) by {
      assert [k, v][1..] == [v];
    }
    SplitJoin([k, v], '=');
  }

  /** A piece without `=` is a name whose value reads as `undefined`. */
  lemma PieceWithoutValue(p: Text)
    requires '=' !in p
    ensures PieceKey(p) == p && PieceValue(p) == None
  {
    SplitNoSeparator(p, '=');
  }

  /** No `&` and no `=`: safe to write into a parameter string. */
  predicate Plain(t: Text)
  {
    '&' !in t && '=' !in t
  }

  lemma SortedKeysIn(m: seq<Entry<Text>>, i: nat)
    requires i < |Sort(Keys(m))|
    ensures Sort(Keys(m))[i] in Keys(m)
  {
    SortPermutes(Keys(m));
    assert Sort(Keys(m))[i] in multiset(Sort(Keys(m)));
  }

  /**
   * Reading back what `generateUrlParameters` wrote gives the same
   * properties with the same values, in ascending key order, when there is
   * at least one and no name or value holds `&` or `=`.
   */
  lemma ParseUrlParameters(m: seq<Entry<Text>>)
    requires DistinctKeys(m) && |m| > 0
    requires forall k :: k in Keys(m) ==> Plain(k) && Plain(Get(m, k))
    ensures |ParseParameters(UrlParameters(m))| == |Sort(Keys(m))| == |m|
    ensures forall i :: 0 <= i < |m| ==>
      ParseParameters(UrlParameters(m))[i] == Entry(Sort(Keys(m))[i], Some(Get(m, Sort(Keys(m))[i])))
  {
    var ks := Sort(Keys(m));
    var pairs := Pairs(m, ks);
    SortPermutes(Keys(m));
    assert |ks| == |m| by {
      assert |multiset(ks)| == |multiset(Keys(m))|;
    }
    forall i | 0 <= i < |pairs| ensures '&' !in pairs[i] && PieceKey(pairs[i]) == ks[i] && PieceValue(pairs[i]) == Some(Get(m, ks[i])) {
      SortedKeysIn(m, i);
      PieceOfPair(ks[i], Get(m, ks[i]));
    }
    SplitJoin(pairs, '&');
    var updates := ParsedPieces(pairs);
    SortAscending(Keys(m));
    forall i, j | 0 <= i < j < |updates| ensures updates[i].key != updates[j].key {
      BelowIrreflexive(ks[i]);
    }
    AssignAllFresh(updates);
  }

  /**
   * The one exception: no properties are written as the empty string, and
   * the empty string reads back as one property with an empty name whose
   * value is `undefined`.
   */
  lemma EmptyParametersQuirk()
    ensures UrlParameters([]) == []
    ensures ParseParameters([]) == [Entry([], None)]
  {
    assert Split([], '&') == [[]];
    assert PieceKey([]) == [] && PieceValue([]) == None by {
      assert Split([], '=') == [[]];
    }
    var updates: seq<Entry<Option<Text>>> := [Entry([], None)];
    assert ParsedPieces([[]]) == updates;
    assert updates[..0] == [];
  }
}
