/**
 * Concatenating what a function gives for each element of a list, in list
 * order: the shape shared by the loops that collect pattern matches and
 * discovered applications entry by entry.
 */
module ConcatMaps {

  /** What `f` gives for each of `names`, concatenated in order. */
  function ConcatMap<T>(f: string -> seq<T>, names: seq<string>): seq<T>
  {
    if names == [] then [] else ConcatMap(f, names[..|names| - 1]) + f(names[|names| - 1])
  }

  /** One more element adds what `f` gives for it at the end. */
  lemma ConcatMapStep<T>(f: string -> seq<T>, names: seq<string>, i: nat)
    requires i < |names|
    ensures ConcatMap(f, names[..i + 1]) == ConcatMap(f, names[..i]) + f(names[i])
  {
    assert names[..i + 1][..i] == names[..i];
    assert names[..i + 1][i] == names[i];
  }

  lemma {:induction false} ConcatMapAppend<T>(f: string -> seq<T>, a: seq<string>, b: seq<string>)
    ensures ConcatMap(f, a + b) == ConcatMap(f, a) + ConcatMap(f, b)
    decreases |b|
  {
    if b == [] {
      assert a + b == a;
    } else {
      var b' := b[..|b| - 1];
      ConcatMapAppend(f, a, b');
      assert (a + b)[..|a + b| - 1] == a + b';
      assert (a + b)[|a + b| - 1] == b[|b| - 1];
      ConcatStep(ConcatMap(f, a + b), ConcatMap(f, a + b'), ConcatMap(f, a), ConcatMap(f, b'), ConcatMap(f, b), f(b[|b| - 1]));
    }
  }

  /** The sequence algebra of one step of `ConcatMapAppend`. */
  lemma ConcatStep<T>(ab: seq<T>, ab': seq<T>, a: seq<T>, b': seq<T>, b: seq<T>, last: seq<T>)
    requires ab == ab' + last && ab' == a + b' && b == b' + last
    ensures ab == a + b
  {
  }

  lemma {:induction false} ConcatMapMembers<T>(f: string -> seq<T>, names: seq<string>, x: T)
    ensures x in ConcatMap(f, names) <==> exists i :: 0 <= i < |names| && x in f(names[i])
    decreases |names|
  {
    if names != [] {
      var init := names[..|names| - 1];
      ConcatMapMembers(f, init, x);
      if exists i :: 0 <= i < |init| && x in f(init[i]) {
        var i :| 0 <= i < |init| && x in f(init[i]);
        assert names[i] == init[i];
      }
      if exists i :: 0 <= i < |names| && x in f(names[i]) {
        var i :| 0 <= i < |names| && x in f(names[i]);
        if i < |init| {
          assert init[i] == names[i];
        }
      }
    }
  }
}
