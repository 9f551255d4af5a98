/** Keeping and transforming the elements of a sequence in order, the shape
    of the many loops that append to a list only for some elements. */
module Sequences {
  import opened Outcomes

  /** The values `f` yields, in the order of their elements; elements for
      which `f` yields nothing are dropped. */
  function FilterMap<T, U>(f: T -> Option<U>, s: seq<T>): (r: seq<U>)
    ensures |r| <= |s|
  {
    if s == [] then []
    else
      var rest := FilterMap(f, s[..|s| - 1]);
      match f(s[|s| - 1])
      case Some(u) => rest + [u]
      case None => rest
  }

  lemma FilterMapSnoc<T, U>(f: T -> Option<U>, s: seq<T>, x: T)
    ensures FilterMap(f, s + [x]) == FilterMap(f, s) + (if f(x).Some? then [f(x).value] else [])
  {
    assert (s + [x])[..|s|] == s;
  }

  /** The values of two stretches follow one another. */
  lemma {:induction false} FilterMapAppend<T, U>(f: T -> Option<U>, a: seq<T>, b: seq<T>)
    ensures FilterMap(f, a + b) == FilterMap(f, a) + FilterMap(f, b)
  {
    if b == [] {
      assert a + b == a;
    } else {
      var init := b[..|b| - 1];
      FilterMapAppend(f, a, init);
      assert (a + b)[..|a + b| - 1] == a + init;
      assert (a + b)[|a + b| - 1] == b[|b| - 1];
    }
  }

  /** A value is kept exactly when some element yields it. */
  lemma {:induction false} FilterMapMembers<T, U>(f: T -> Option<U>, s: seq<T>, u: U)
    ensures u in FilterMap(f, s) <==> exists i :: 0 <= i < |s| && f(s[i]) == Some(u)
  {
    if s != [] {
      var init := s[..|s| - 1];
      FilterMapMembers(f, init, u);
      if exists i :: 0 <= i < |s| && f(s[i]) == Some(u) {
        var i :| 0 <= i < |s| && f(s[i]) == Some(u);
        if i < |init| { assert init[i] == s[i]; }
      }
    }
  }

  lemma SliceSnoc<T>(s: seq<T>, a: nat, b: nat)
    requires a <= b < |s|
    ensures s[a..b + 1] == s[a..b] + [s[b]]
  {
  }

  lemma AppendAssoc<T>(a: seq<T>, b: seq<T>, c: seq<T>)
    ensures a + (b + c) == a + b + c
  {
  }

  /** The elements of `s` that belong to `keep`, in order: the paths of a
      list that exist, say. */
  function Present<T>(keep: set<T>, s: seq<T>): (r: seq<T>)
    ensures |r| <= |s|
    ensures forall x :: x in r ==> x in keep && x in s
  {
    if s == [] then []
    else
      var rest := Present(keep, s[..|s| - 1]);
      if s[|s| - 1] in keep then rest + [s[|s| - 1]] else rest
  }
}
