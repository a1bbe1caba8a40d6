/** Sequence combinators shared by the loops of the model: the specification
    of a loop that appends selected items to a list, or whole lists. */
module Seqs {
  import opened Wrappers

  /** The items `f` selects, transformed, in order (LINQ's `Where` + `Select`). */
  function FilterMap<T, U>(s: seq<T>, f: T -> Option<U>): (r: seq<U>)
    ensures |r| <= |s|
  {
    if s == [] then []
    else FilterMap(s[..|s| - 1], f) + (match f(s[|s| - 1]) case Some(u) => [u] case None => [])
  }

  /** One more input item appends at most one output item: the step a loop takes. */
  lemma FilterMapSnoc<T, U>(s: seq<T>, x: T, f: T -> Option<U>)
    ensures FilterMap(s + [x], f) == FilterMap(s, f) + (match f(x) case Some(u) => [u] case None => [])
  {
    assert (s + [x])[..|s|] == s;
  }

  lemma FilterMapConcat<T, U>(a: seq<T>, b: seq<T>, f: T -> Option<U>)
    ensures FilterMap(a + b, f) == FilterMap(a, f) + FilterMap(b, f)
    decreases |b|
  {
    if b == [] {
      assert a + b == a;
    } else {
      var b' := b[..|b| - 1];
      assert a + b == (a + b') + [b[|b| - 1]];
      FilterMapSnoc(a + b', b[|b| - 1], f);
      FilterMapConcat(a, b', f);
      FilterMapSnoc(b', b[|b| - 1], f);
      assert b == b' + [b[|b| - 1]];
    }
  }

  /** Every output item is the image of an input item ... */
  lemma {:induction false} FilterMapSound<T, U>(s: seq<T>, f: T -> Option<U>, u: U)
    requires u in FilterMap(s, f)
    ensures exists i :: 0 <= i < |s| && f(s[i]) == Some(u)
  {
    var s' := s[..|s| - 1];
    if u in FilterMap(s', f) {
      FilterMapSound(s', f, u);
      var i :| 0 <= i < |s'| && f(s'[i]) == Some(u);
      assert s[i] == s'[i];
    } else {
      assert f(s[|s| - 1]) == Some(u);
    }
  }

  /** ... and every selected input item has its image in the output. */
  lemma {:induction false} FilterMapComplete<T, U>(s: seq<T>, f: T -> Option<U>, i: int)
    requires 0 <= i < |s| && f(s[i]).Some?
    ensures f(s[i]).value in FilterMap(s, f)
  {
    var s' := s[..|s| - 1];
    if i < |s'| {
      assert s'[i] == s[i];
      FilterMapComplete(s', f, i);
    }
  }

  /** The concatenation of `f` over the items, in order (LINQ's `SelectMany`). */
  function FlatMap<T, U>(s: seq<T>, f: T -> seq<U>): seq<U> {
    if s == [] then [] else FlatMap(s[..|s| - 1], f) + f(s[|s| - 1])
  }

  lemma FlatMapSnoc<T, U>(s: seq<T>, x: T, f: T -> seq<U>)
    ensures FlatMap(s + [x], f) == FlatMap(s, f) + f(x)
  {
    assert (s + [x])[..|s|] == s;
  }

  /** `order` lists the keys of `m`, each exactly once: the order in which
      a dictionary's enumeration visits them. */
  predicate Enumerates<K, V>(order: seq<K>, m: map<K, V>) {
    (forall i, j :: 0 <= i < j < |order| ==> order[i] != order[j])
    && (forall k :: k in m ==> k in order)
    && (forall i :: 0 <= i < |order| ==> order[i] in m)
  }
}
