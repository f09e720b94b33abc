/**
 * The final step of src/utils/scanner.ts: `results.sort((a, b) => b.size -
 * a.size)`. The array sort is stable, so results of equal size keep the
 * order in which they were pushed; the model sorts by insertion, which is
 * stable by construction.
 */
module SizeSort {

  import opened Types

  predicate SortedBySizeDesc(s: seq<CacheResult>)
  {
    forall i, j :: 0 <= i < j < |s| ==> s[i].size >= s[j].size
  }

  /** `s` with `x` placed after every element at least as large as it. */
  function Insert(s: seq<CacheResult>, x: CacheResult): seq<CacheResult>
  {
    if s == [] || s[|s| - 1].size >= x.size then s + [x]
    else Insert(s[..|s| - 1], x) + [s[|s| - 1]]
  }

  /** The order the comparator `b.size - a.size` gives, ties in input order. */
  function SortBySizeDesc(s: seq<CacheResult>): seq<CacheResult>
  {
    if s == [] then []
    else Insert(SortBySizeDesc(s[..|s| - 1]), s[|s| - 1])
  }

  /** The elements of `s` whose size is `k`, in order. */
  function WithSize(s: seq<CacheResult>, k: nat): (r: seq<CacheResult>)
    ensures forall i :: 0 <= i < |r| ==> r[i].size == k
  {
    if s == [] then []
    else WithSize(s[..|s| - 1], k) + (if s[|s| - 1].size == k then [s[|s| - 1]] else [])
  }

  lemma {:induction false} InsertMultiset(s: seq<CacheResult>, x: CacheResult)
    ensures |Insert(s, x)| == |s| + 1
    ensures multiset(Insert(s, x)) == multiset(s) + multiset{x}
    decreases |s|
  {
    if !(s == [] || s[|s| - 1].size >= x.size) {
      var init, last := s[..|s| - 1], s[|s| - 1];
      assert s == init + [last];
      InsertMultiset(init, x);
    }
  }

  lemma {:induction false} InsertSorted(s: seq<CacheResult>, x: CacheResult)
    requires SortedBySizeDesc(s)
    ensures SortedBySizeDesc(Insert(s, x))
    decreases |s|
  {
    if s == [] || s[|s| - 1].size >= x.size {
    } else {
      var init, last := s[..|s| - 1], s[|s| - 1];
      assert s == init + [last];
      InsertSorted(init, x);
      InsertMultiset(init, x);
      var r := Insert(init, x);
      forall i | 0 <= i < |r| ensures r[i].size >= last.size {
        assert r[i] in multiset(init) + multiset{x};
        if r[i] != x {
          assert r[i] in init;
        }
      }
    }
  }

  /** Placing `x` keeps the order of the results of its size and puts it
      after them. */
  lemma {:induction false} InsertStable(s: seq<CacheResult>, x: CacheResult, k: nat)
    requires SortedBySizeDesc(s)
    ensures WithSize(Insert(s, x), k) == WithSize(s, k) + (if x.size == k then [x] else [])
    decreases |s|
  {
    if s == [] || s[|s| - 1].size >= x.size {
      assert (s + [x])[..|s|] == s;
    } else {
      var init, last := s[..|s| - 1], s[|s| - 1];
      InsertStable(init, x, k);
      var r := Insert(init, x);
      assert (r + [last])[..|r|] == r;
    }
  }

  /** The sort keeps every result exactly as often as it occurs, orders
      them from largest to smallest, and keeps the relative order of results
      of equal size. */
  lemma {:induction false} SortBySizeDescProperties(s: seq<CacheResult>)
    ensures |SortBySizeDesc(s)| == |s|
    ensures multiset(SortBySizeDesc(s)) == multiset(s)
    ensures SortedBySizeDesc(SortBySizeDesc(s))
    ensures forall k: nat :: WithSize(SortBySizeDesc(s), k) == WithSize(s, k)
    decreases |s|
  {
    if s != [] {
      var init, last := s[..|s| - 1], s[|s| - 1];
      assert s == init + [last];
      SortBySizeDescProperties(init);
      InsertMultiset(SortBySizeDesc(init), last);
      InsertSorted(SortBySizeDesc(init), last);
      forall k: nat ensures WithSize(SortBySizeDesc(s), k) == WithSize(s, k) {
        InsertStable(SortBySizeDesc(init), last, k);
      }
    }
  }

  /** Sorting what is already sorted changes nothing. */
  lemma {:induction false} SortBySizeDescOfSorted(s: seq<CacheResult>)
    requires SortedBySizeDesc(s)
    ensures SortBySizeDesc(s) == s
    decreases |s|
  {
    if s != [] {
      var init, last := s[..|s| - 1], s[|s| - 1];
      assert SortedBySizeDesc(init) by {
        forall i, j | 0 <= i < j < |init| ensures init[i].size >= init[j].size {
          assert init[i] == s[i] && init[j] == s[j];
        }
      }
      SortBySizeDescOfSorted(init);
      assert init == [] || init[|init| - 1].size >= last.size;
      assert Insert(init, last) == init + [last];
      assert s == init + [last];
    }
  }

  /** The in-place sort: each result in turn is shifted left past the
      smaller ones before it, so ties are never swapped. */
  method SortResults(a: array<CacheResult>)
    modifies a
    ensures a[..] == SortBySizeDesc(old(a[..]))
  {
    ghost var input := a[..];
    var i := 0;
    while i < a.Length
      invariant 0 <= i <= a.Length
      invariant a[..i] == SortBySizeDesc(input[..i])
      invariant a[i..] == input[i..]
    {
      InsertInPlace(a, i);
      SortStep(input, i);
      assert input[i..][0] == input[i];
      assert input[i + 1..] == input[i..][1..];
      i := i + 1;
    }
    assert a[..] == a[..a.Length];
    assert input == input[..a.Length];
  }

  /** Moves `a[i]` into the sorted prefix `a[..i]`. */
  method InsertInPlace(a: array<CacheResult>, i: nat)
    requires i < a.Length
    modifies a
    ensures a[..i + 1] == Insert(old(a[..i]), old(a[i]))
    ensures a[i + 1..] == old(a[i + 1..])
  {
    var x := a[i];
    ghost var sorted := a[..i];
    ghost var rest := a[i + 1..];
    var j := ShiftRight(a, i);
    a[j] := x;
    InsertAt(sorted, x, j);
    Assemble(a[..i + 1], sorted, x, j);
    assert a[i + 1..] == rest;
  }

  /** The shifting loop: moves the results before `a[i]` that are smaller
      than it one place to the right, and returns the gap it leaves. */
  method ShiftRight(a: array<CacheResult>, i: nat) returns (j: nat)
    requires i < a.Length
    modifies a
    ensures j <= i
    ensures forall k :: 0 <= k < j ==> a[k] == old(a[k])
    ensures forall k :: j < k <= i ==> a[k] == old(a[k - 1])
    ensures forall k :: i < k < a.Length ==> a[k] == old(a[k])
    ensures j == 0 || old(a[j - 1]).size >= old(a[i]).size
    ensures forall k :: j <= k < i ==> old(a[k]).size < old(a[i]).size
  {
    var x := a[i];
    j := i;
    while j > 0 && a[j - 1].size < x.size
      invariant 0 <= j <= i
      invariant forall k :: 0 <= k < j ==> a[k] == old(a[k])
      invariant forall k :: j < k <= i ==> a[k] == old(a[k - 1])
      invariant forall k :: i < k < a.Length ==> a[k] == old(a[k])
      invariant forall k :: j <= k < i ==> old(a[k]).size < x.size
    {
      a[j] := a[j - 1];
      j := j - 1;
    }
  }

  /** Where `Insert` puts `x`: after the results at least as large, before
      the smaller ones that end the sequence. */
  lemma {:induction false} InsertAt(s: seq<CacheResult>, x: CacheResult, j: nat)
    requires j <= |s|
    requires j == 0 || s[j - 1].size >= x.size
    requires forall k :: j <= k < |s| ==> s[k].size < x.size
    ensures Insert(s, x) == s[..j] + [x] + s[j..]
    decreases |s|
  {
    if j == |s| {
      assert s[..j] == s && s[j..] == [];
    } else {
      var init := s[..|s| - 1];
      InsertAt(init, x, j);
      assert init[..j] == s[..j];
      assert init[j..] + [s[|s| - 1]] == s[j..];
    }
  }

  /** The array prefix left by the shifting loop, read as a sequence. */
  lemma Assemble(s: seq<CacheResult>, sorted: seq<CacheResult>, x: CacheResult, j: nat)
    requires |s| == |sorted| + 1 && j <= |sorted|
    requires forall k :: 0 <= k < j ==> s[k] == sorted[k]
    requires s[j] == x
    requires forall k :: j < k < |s| ==> s[k] == sorted[k - 1]
    ensures s == sorted[..j] + [x] + sorted[j..]
  {
    var r := sorted[..j] + [x] + sorted[j..];
    forall k | 0 <= k < |s| ensures s[k] == r[k] {
      if k > j {
        assert r[k] == sorted[j..][k - j - 1] == sorted[k - 1];
      }
    }
  }

  lemma SortStep(input: seq<CacheResult>, i: nat)
    requires i < |input|
    ensures SortBySizeDesc(input[..i + 1]) == Insert(SortBySizeDesc(input[..i]), input[i])
  {
    assert input[..i + 1][..i] == input[..i];
  }
}
