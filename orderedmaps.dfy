/**
 * A JavaScript object used as a dictionary with string keys: entries keep
 * the order in which their keys were first inserted, and assigning to a
 * key that is already present replaces its value where it stands.
 */
module OrderedMaps {

  import opened Wrappers
  import opened ConcatMaps

  type OrderedMap<V> = seq<(string, V)>

  function Keys<V>(m: OrderedMap<V>): (ks: seq<string>)
    ensures |ks| == |m| && forall i :: 0 <= i < |m| ==> ks[i] == m[i].0
  {
    seq(|m|, i requires 0 <= i < |m| => m[i].0)
  }

  predicate DistinctKeys<V>(m: OrderedMap<V>)
  {
    forall i, j :: 0 <= i < j < |m| ==> m[i].0 != m[j].0
  }

  /** `obj[k]`, `undefined` being `None`. */
  function Lookup<V>(m: OrderedMap<V>, k: string): Option<V>
  {
    if m == [] then None
    else if m[0].0 == k then Some(m[0].1)
    else Lookup(m[1..], k)
  }

  /** `obj[k] = v`. */
  function Put<V>(m: OrderedMap<V>, k: string, v: V): OrderedMap<V>
  {
    if m == [] then [(k, v)]
    else if m[0].0 == k then [(k, v)] + m[1..]
    else [m[0]] + Put(m[1..], k, v)
  }

  /** Assignments of `es` in order; `{ ...m, ...es }` when `es` is an object. */
  function PutAll<V>(m: OrderedMap<V>, es: seq<(string, V)>): OrderedMap<V>
  {
    if es == [] then m
    else Put(PutAll(m, es[..|es| - 1]), es[|es| - 1].0, es[|es| - 1].1)
  }

  /** The value of the last entry of `es` with key `k`. */
  function LastWithKey<V>(es: seq<(string, V)>, k: string): Option<V>
  {
    if es == [] then None
    else if es[|es| - 1].0 == k then Some(es[|es| - 1].1)
    else LastWithKey(es[..|es| - 1], k)
  }

  lemma {:induction false} LookupSome<V>(m: OrderedMap<V>, k: string)
    ensures Lookup(m, k).Some? <==> k in Keys(m)
    ensures Lookup(m, k).Some? ==> (k, Lookup(m, k).value) in m
  {
    if m != [] {
      LookupSome(m[1..], k);
      assert Keys(m) == [m[0].0] + Keys(m[1..]);
    }
  }

  /** In a map with distinct keys every entry is what its key looks up. */
  lemma {:induction false} LookupOfEntry<V>(m: OrderedMap<V>, i: nat)
    requires DistinctKeys(m) && i < |m|
    ensures Lookup(m, m[i].0) == Some(m[i].1)
  {
    if i > 0 {
      assert m[0].0 != m[i].0;
      LookupOfEntry(m[1..], i - 1);
    }
  }

  /** After `obj[k] = v`, `k` gives `v` and every other key is unchanged. */
  lemma {:induction false} PutLookup<V>(m: OrderedMap<V>, k: string, v: V, k': string)
    ensures Lookup(Put(m, k, v), k') == if k' == k then Some(v) else Lookup(m, k')
  {
    if m != [] && m[0].0 != k {
      PutLookup(m[1..], k, v, k');
    }
  }

  /** A present key keeps its position; a new key is appended. */
  lemma {:induction false} PutKeys<V>(m: OrderedMap<V>, k: string, v: V)
    ensures Keys(Put(m, k, v)) == if k in Keys(m) then Keys(m) else Keys(m) + [k]
  {
    if m != [] {
      assert Keys(m) == [m[0].0] + Keys(m[1..]);
      if m[0].0 != k {
        PutKeys(m[1..], k, v);
        assert Keys(Put(m, k, v)) == [m[0].0] + Keys(Put(m[1..], k, v));
      } else {
        assert Keys(Put(m, k, v)) == [k] + Keys(m[1..]);
      }
    }
  }

  lemma DistinctKeysOfKeys<V>(m: OrderedMap<V>)
    ensures DistinctKeys(m) <==> forall i, j :: 0 <= i < j < |Keys(m)| ==> Keys(m)[i] != Keys(m)[j]
  {
    var ks := Keys(m);
    assert forall i :: 0 <= i < |m| ==> ks[i] == m[i].0;
  }

  lemma PutDistinct<V>(m: OrderedMap<V>, k: string, v: V)
    requires DistinctKeys(m)
    ensures DistinctKeys(Put(m, k, v))
  {
    PutKeys(m, k, v);
    DistinctKeysOfKeys(m);
    DistinctKeysOfKeys(Put(m, k, v));
  }

  lemma {:induction false} PutAllDistinct<V>(m: OrderedMap<V>, es: seq<(string, V)>)
    requires DistinctKeys(m)
    ensures DistinctKeys(PutAll(m, es))
    decreases |es|
  {
    if es != [] {
      PutAllDistinct(m, es[..|es| - 1]);
      PutDistinct(PutAll(m, es[..|es| - 1]), es[|es| - 1].0, es[|es| - 1].1);
    }
  }

  /** A key looks up the value of its LAST assignment in `es`, and keeps
      its value from `m` when `es` never assigns it. */
  lemma {:induction false} PutAllLookup<V>(m: OrderedMap<V>, es: seq<(string, V)>, k: string)
    ensures Lookup(PutAll(m, es), k) == if LastWithKey(es, k).Some? then LastWithKey(es, k) else Lookup(m, k)
    decreases |es|
  {
    if es != [] {
      PutAllLookup(m, es[..|es| - 1], k);
      PutLookup(PutAll(m, es[..|es| - 1]), es[|es| - 1].0, es[|es| - 1].1, k);
    }
  }

  /** The keys of `m` keep their order at the front, and only keys assigned
      by `es` follow them. */
  lemma {:induction false} PutAllKeys<V>(m: OrderedMap<V>, es: seq<(string, V)>)
    ensures |Keys(m)| <= |Keys(PutAll(m, es))|
    ensures Keys(PutAll(m, es))[..|Keys(m)|] == Keys(m)
    ensures forall k :: k in Keys(PutAll(m, es)) <==> k in Keys(m) || LastWithKey(es, k).Some?
    decreases |es|
  {
    if es != [] {
      var prev := PutAll(m, es[..|es| - 1]);
      PutAllKeys(m, es[..|es| - 1]);
      PutKeys(prev, es[|es| - 1].0, es[|es| - 1].1);
      assert Keys(PutAll(m, es))[..|Keys(prev)|] == Keys(prev);
    }
  }

  /** Whatever `LastWithKey` finds is an entry of `es`. */
  lemma {:induction false} LastWithKeyIn<V>(es: seq<(string, V)>, k: string)
    ensures LastWithKey(es, k).Some? <==> exists i :: 0 <= i < |es| && es[i].0 == k
    ensures LastWithKey(es, k).Some? ==>
      exists i :: 0 <= i < |es| && es[i] == (k, LastWithKey(es, k).value)
        && forall j :: i < j < |es| ==> es[j].0 != k
    decreases |es|
  {
    if es != [] {
      var init := es[..|es| - 1];
      LastWithKeyIn(init, k);
      if es[|es| - 1].0 != k {
        if exists i :: 0 <= i < |es| && es[i].0 == k {
          var i :| 0 <= i < |es| && es[i].0 == k;
          assert init[i] == es[i];
        }
        if LastWithKey(init, k).Some? {
          var i :| 0 <= i < |init| && init[i] == (k, LastWithKey(init, k).value)
            && forall j :: i < j < |init| ==> init[j].0 != k;
          assert es[i] == init[i];
        }
      }
    }
  }

  /** Without repeated keys, the last assignment of a key is its only one. */
  lemma {:induction false} LastWithKeyDistinct<V>(es: seq<(string, V)>, k: string)
    requires DistinctKeys(es)
    ensures LastWithKey(es, k) == Lookup(es, k)
  {
    LastWithKeyIn(es, k);
    LookupSome(es, k);
    if LastWithKey(es, k).Some? {
      var i :| 0 <= i < |es| && es[i] == (k, LastWithKey(es, k).value)
        && forall j :: i < j < |es| ==> es[j].0 != k;
      LookupOfEntry(es, i);
    }
  }

  /** One more assignment after `es`. */
  lemma PutAllSnoc<V>(m: OrderedMap<V>, es: seq<(string, V)>, e: (string, V))
    ensures PutAll(m, es + [e]) == Put(PutAll(m, es), e.0, e.1)
  {
    assert (es + [e])[..|es + [e]| - 1] == es;
  }

  /** The last assignment of `k` after one more assignment. */
  lemma LastWithKeySnoc<V>(es: seq<(string, V)>, e: (string, V), k: string)
    ensures LastWithKey(es + [e], k) == if e.0 == k then Some(e.1) else LastWithKey(es, k)
  {
    assert (es + [e])[..|es + [e]| - 1] == es;
  }

  /** Assignments of other keys do not change the last value of `k`. */
  lemma {:induction false} LastWithKeyAppendOther<V>(es: seq<(string, V)>, ds: seq<(string, V)>, k: string)
    requires forall x :: x in ds ==> x.0 != k
    ensures LastWithKey(es + ds, k) == LastWithKey(es, k)
    decreases |ds|
  {
    if ds != [] {
      var ds' := ds[..|ds| - 1];
      assert es + ds == (es + ds') + [ds[|ds| - 1]];
      assert forall x :: x in ds' ==> x in ds;
      LastWithKeySnoc(es + ds', ds[|ds| - 1], k);
      LastWithKeyAppendOther(es, ds', k);
    } else {
      assert es + ds == es;
    }
  }

  /** When the entry `names[i]` alone assigns `e`, and no later entry
      assigns the key `e.0`, the assignments made for `names` leave `e.1`
      as the last value of that key. */
  lemma {:induction false} LastOfConcatMap<V>(f: string -> seq<(string, V)>, names: seq<string>, i: nat, e: (string, V))
    requires i < |names| && f(names[i]) == [e]
    requires forall j, x :: i < j < |names| && x in f(names[j]) ==> x.0 != e.0
    ensures LastWithKey(ConcatMap(f, names), e.0) == Some(e.1)
    decreases |names|
  {
    var n := |names| - 1;
    var init := names[..n];
    ConcatMapStep(f, names, n);
    assert names[..n + 1] == names;
    if i == n {
      LastWithKeySnoc(ConcatMap(f, init), e, e.0);
    } else {
      assert init[i] == names[i];
      forall j, x | i < j < |init| && x in f(init[j])
        ensures x.0 != e.0
      {
        assert init[j] == names[j];
      }
      LastOfConcatMap(f, init, i, e);
      LastWithKeyAppendOther(ConcatMap(f, init), f(names[n]), e.0);
    }
  }
}
