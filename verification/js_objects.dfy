/**
 * Plain JavaScript objects used as dictionaries. An object is its list of
 * own properties in `Object.keys` order: assigning a present key keeps its
 * place, assigning a new key appends it, `delete` takes it out.
 */
module JsObjects {
  import opened Wrappers
  import opened Strings

  datatype Entry<V> = Entry(key: Text, value: V)

  /** `Object.keys(obj)`. */
  function Keys<V>(es: seq<Entry<V>>): (ks: seq<Text>)
    ensures |ks| == |es|
    ensures forall i :: 0 <= i < |es| ==> ks[i] == es[i].key
  {
    seq(|es|, i requires 0 <= i < |es| => es[i].key)
  }

  predicate DistinctKeys<V>(es: seq<Entry<V>>)
  {
    forall i, j :: 0 <= i < j < |es| ==> es[i].key != es[j].key
  }

  /** The own property `k`, if there is one. */
  function Lookup<V>(es: seq<Entry<V>>, k: Text): (r: Option<V>)
    ensures r.None? <==> k !in Keys(es)
  {
    if |es| == 0 then None
    else if es[0].key == k then Some(es[0].value)
    else
      assert Keys(es) == [es[0].key] + Keys(es[1..]);
      Lookup(es[1..], k)
  }

  lemma {:induction false} LookupAt<V>(es: seq<Entry<V>>, i: nat)
    requires DistinctKeys(es) && i < |es|
    ensures Lookup(es, es[i].key) == Some(es[i].value)
  {
    if i > 0 {
      LookupAt(es[1..], i - 1);
    }
  }

  /** `obj[k] = v`. */
  function Assign<V>(es: seq<Entry<V>>, k: Text, v: V): (r: seq<Entry<V>>)
    ensures |es| <= |r| <= |es| + 1
  {
    if |es| == 0 then [Entry(k, v)]
    else if es[0].key == k then [Entry(k, v)] + es[1..]
    else [es[0]] + Assign(es[1..], k, v)
  }

  /** After `obj[k] = v`, reading `k` gives `v` and every other key reads as before. */
  lemma {:induction false} AssignLookup<V>(es: seq<Entry<V>>, k: Text, v: V, k': Text)
    ensures Lookup(Assign(es, k, v), k') == if k' == k then Some(v) else Lookup(es, k')
  {
    if |es| > 0 && es[0].key != k {
      AssignLookup(es[1..], k, v, k');
    }
  }

  /** An existing key keeps its place; a new key goes last. */
  lemma {:induction false} AssignKeys<V>(es: seq<Entry<V>>, k: Text, v: V)
    ensures Keys(Assign(es, k, v)) == if k in Keys(es) then Keys(es) else Keys(es) + [k]
  {
    if |es| > 0 {
      assert es == [es[0]] + es[1..];
      KeysCons(es[0], es[1..]);
      if es[0].key == k {
        KeysCons(Entry(k, v), es[1..]);
      } else {
        AssignKeys(es[1..], k, v);
        KeysCons(es[0], Assign(es[1..], k, v));
        AppendAssoc([es[0].key], Keys(es[1..]), [k]);
      }
    }
  }

  lemma KeysCons<V>(e: Entry<V>, es: seq<Entry<V>>)
    ensures Keys([e] + es) == [e.key] + Keys(es)
  {
  }

  lemma AssignDistinct<V>(es: seq<Entry<V>>, k: Text, v: V)
    requires DistinctKeys(es)
    ensures DistinctKeys(Assign(es, k, v))
  {
    var r := Assign(es, k, v);
    AssignKeys(es, k, v);
    assert Keys(r) == if k in Keys(es) then Keys(es) else Keys(es) + [k];
    forall i, j | 0 <= i < j < |r| ensures r[i].key != r[j].key {
      assert Keys(r)[i] == r[i].key && Keys(r)[j] == r[j].key;
      if j == |es| {
        assert Keys(es)[i] == es[i].key;
      } else {
        assert Keys(es)[i] == es[i].key && Keys(es)[j] == es[j].key;
      }
    }
  }

  /** `obj[k] = v` for each update `(k, v)` in turn. */
  function AssignAll<V>(es: seq<Entry<V>>, updates: seq<Entry<V>>): seq<Entry<V>>
  {
    if |updates| == 0 then es
    else
      var last := updates[|updates| - 1];
      Assign(AssignAll(es, updates[..|updates| - 1]), last.key, last.value)
  }

  lemma AssignAllStep<V>(es: seq<Entry<V>>, updates: seq<Entry<V>>, i: nat)
    requires i < |updates|
    ensures AssignAll(es, updates[..i + 1]) == Assign(AssignAll(es, updates[..i]), updates[i].key, updates[i].value)
  {
    assert updates[..i + 1][..i] == updates[..i];
  }

  lemma {:induction false} AssignAllDistinct<V>(es: seq<Entry<V>>, updates: seq<Entry<V>>)
    requires DistinctKeys(es)
    ensures DistinctKeys(AssignAll(es, updates))
  {
    if |updates| > 0 {
      var n := |updates|;
      AssignAllDistinct(es, updates[..n - 1]);
      AssignDistinct(AssignAll(es, updates[..n - 1]), updates[n - 1].key, updates[n - 1].value);
    }
  }

  /** The properties there were keep their places; new ones come after them. */
  lemma {:induction false} AssignAllPrefix<V>(es: seq<Entry<V>>, updates: seq<Entry<V>>)
    ensures |es| <= |AssignAll(es, updates)|
    ensures forall i :: 0 <= i < |es| ==> AssignAll(es, updates)[i].key == es[i].key
  {
    if |updates| > 0 {
      var n := |updates|;
      var m := AssignAll(es, updates[..n - 1]);
      var m' := Assign(m, updates[n - 1].key, updates[n - 1].value);
      AssignAllPrefix(es, updates[..n - 1]);
      AssignKeys(m, updates[n - 1].key, updates[n - 1].value);
      forall i | 0 <= i < |es| ensures m'[i].key == es[i].key {
        assert Keys(m')[i] == Keys(m)[i];
      }
    }
  }

  /** A key no update names reads as before. */
  lemma {:induction false} AssignAllUntouched<V>(es: seq<Entry<V>>, updates: seq<Entry<V>>, k: Text)
    requires k !in Keys(updates)
    ensures Lookup(AssignAll(es, updates), k) == Lookup(es, k)
  {
    if |updates| > 0 {
      var n := |updates|;
      assert Keys(updates[..n - 1]) == Keys(updates)[..n - 1];
      AssignAllUntouched(es, updates[..n - 1], k);
      AssignLookup(AssignAll(es, updates[..n - 1]), updates[n - 1].key, updates[n - 1].value, k);
    }
  }

  /** A key reads as the value of the last update that names it. */
  lemma {:induction false} AssignAllLast<V>(es: seq<Entry<V>>, updates: seq<Entry<V>>, i: nat)
    requires i < |updates|
    requires forall j :: i < j < |updates| ==> updates[j].key != updates[i].key
    ensures Lookup(AssignAll(es, updates), updates[i].key) == Some(updates[i].value)
  {
    var n := |updates|;
    var k := updates[i].key;
    var m := AssignAll(es, updates[..n - 1]);
    var last := updates[n - 1];
    assert AssignAll(es, updates) == Assign(m, last.key, last.value);
    if i == n - 1 {
      AssignLookup(m, last.key, last.value, k);
    } else {
      assert Lookup(Assign(m, last.key, last.value), k) == Lookup(m, k) by {
        AssignLookup(m, last.key, last.value, k);
      }
      AssignAllLast(es, updates[..n - 1], i);
    }
  }

  /** The keys after the updates are the keys there were and the keys updated. */
  lemma {:induction false} AssignAllKeys<V>(es: seq<Entry<V>>, updates: seq<Entry<V>>, k: Text)
    ensures k in Keys(AssignAll(es, updates)) <==> k in Keys(es) || k in Keys(updates)
  {
    if |updates| > 0 {
      var n := |updates|;
      var m := AssignAll(es, updates[..n - 1]);
      var last := updates[n - 1];
      assert AssignAll(es, updates) == Assign(m, last.key, last.value);
      assert (k in Keys(Assign(m, last.key, last.value))) == (k in Keys(m) || k == last.key) by {
        AssignLookup(m, last.key, last.value, k);
      }
      assert (k in Keys(updates)) == (k in Keys(updates[..n - 1]) || k == last.key) by {
        assert Keys(updates) == Keys(updates[..n - 1]) + [last.key];
      }
      AssignAllKeys(es, updates[..n - 1], k);
    } else {
      assert Keys(updates) == [];
    }
  }

  /** Assigning a new key appends it. */
  lemma {:induction false} AssignAbsent<V>(es: seq<Entry<V>>, k: Text, v: V)
    requires k !in Keys(es)
    ensures Assign(es, k, v) == es + [Entry(k, v)]
  {
    if |es| > 0 {
      assert Keys(es) == [es[0].key] + Keys(es[1..]);
      AssignAbsent(es[1..], k, v);
      AppendAssoc([es[0]], es[1..], [Entry(k, v)]);
      assert es == [es[0]] + es[1..];
    }
  }

  /** Updates with distinct keys, made to an empty object, give exactly those properties. */
  lemma {:induction false} AssignAllFresh<V>(updates: seq<Entry<V>>)
    requires DistinctKeys(updates)
    ensures AssignAll([], updates) == updates
  {
    if |updates| > 0 {
      var n := |updates|;
      var init := updates[..n - 1];
      var last := updates[n - 1];
      AssignAllFresh(init);
      assert last.key !in Keys(init) by {
        forall j | 0 <= j < |init| ensures Keys(init)[j] != last.key {
          assert init[j] == updates[j];
        }
      }
      AssignAbsent(init, last.key, last.value);
      assert init + [last] == updates;
    }
  }

  /** `delete obj[k]`. */
  function Remove<V>(es: seq<Entry<V>>, k: Text): (r: seq<Entry<V>>)
    ensures |r| <= |es|
  {
    if |es| == 0 then []
    else if es[0].key == k then Remove(es[1..], k)
    else [es[0]] + Remove(es[1..], k)
  }

  /** After `delete obj[k]`, `k` is gone and every other key reads as before. */
  lemma {:induction false} RemoveLookup<V>(es: seq<Entry<V>>, k: Text, k': Text)
    ensures Lookup(Remove(es, k), k') == if k' == k then None else Lookup(es, k')
  {
    if |es| > 0 {
      RemoveLookup(es[1..], k, k');
    }
  }

  /** Deleting a key leaves the other properties in their order. */
  lemma {:induction false} RemoveAt<V>(es: seq<Entry<V>>, i: nat)
    requires DistinctKeys(es) && i < |es|
    ensures Remove(es, es[i].key) == es[..i] + es[i + 1..]
  {
    var k := es[i].key;
    if i == 0 {
      RemoveAbsent(es[1..], k);
      assert es[1..] == es[..0] + es[1..];
    } else {
      RemoveAt(es[1..], i - 1);
      assert es[1..][..i - 1] + es[1..][i..] == es[1..i] + es[i + 1..];
      assert es[..i] == [es[0]] + es[1..i];
      AppendAssoc([es[0]], es[1..i], es[i + 1..]);
    }
  }

  lemma {:induction false} RemoveAbsent<V>(es: seq<Entry<V>>, k: Text)
    requires k !in Keys(es)
    ensures Remove(es, k) == es
  {
    if |es| > 0 {
      assert Keys(es) == [es[0].key] + Keys(es[1..]);
      RemoveAbsent(es[1..], k);
    }
  }

  lemma RemoveDistinct<V>(es: seq<Entry<V>>, k: Text)
    requires DistinctKeys(es)
    ensures DistinctKeys(Remove(es, k))
  {
    if k in Keys(es) {
      var i :| 0 <= i < |es| && Keys(es)[i] == k;
      RemoveAt(es, i);
    } else {
      RemoveAbsent(es, k);
    }
  }

  /** The text JavaScript makes of a property read: `undefined` when absent. */
  function Stringify(v: Option<Text>): Text
  {
    match v
    case Some(t) => t
    case None => "undefined"
  }

  /** `obj[k]` as text, the way `+` and `encodeURIComponent` see it. */
  function Get(es: seq<Entry<Text>>, k: Text): (r: Text)
    ensures k in Keys(es) ==> Lookup(es, k) == Some(r)
    ensures k !in Keys(es) ==> r == "undefined"
  {
    Stringify(Lookup(es, k))
  }

  /** An object whose keys are unique, mutated in place. */
  class JsObject<V> {
    var entries: seq<Entry<V>>

    ghost predicate Valid()
      reads this
    {
      DistinctKeys(entries)
    }

    /** `{}`. */
    constructor Empty()
      ensures Valid() && entries == []
    {
      entries := [];
    }

    /** A fresh object with the same properties, in the same order. */
    constructor Copy(from: seq<Entry<V>>)
      requires DistinctKeys(from)
      ensures Valid() && entries == from
    {
      entries := from;
    }

    method Set(k: Text, v: V)
      requires Valid()
      modifies this
      ensures Valid() && entries == Assign(old(entries), k, v)
    {
      AssignDistinct(entries, k, v);
      entries := Assign(entries, k, v);
    }

    method Delete(k: Text)
      requires Valid()
      modifies this
      ensures Valid() && entries == Remove(old(entries), k)
    {
      RemoveDistinct(entries, k);
      entries := Remove(entries, k);
    }
  }
}
