/** The array methods the snippet core uses on lists: `filter`, `find`, and the
    `filter((x, i, arr) => arr.indexOf(x) === i)` idiom that keeps each value once. */
module Seqs {
  import opened Common

  /** No value occurs twice. */
  predicate NoDup<T(==)>(xs: seq<T>) {
    forall i, j :: 0 <= i < j < |xs| ==> xs[i] != xs[j]
  }

  /** `xs.indexOf(x)` for a value that occurs: the position of its first occurrence. */
  function IndexOf<T(==)>(xs: seq<T>, x: T): (i: nat)
    requires x in xs
    ensures i < |xs| && xs[i] == x && x !in xs[..i]
  {
    if xs[0] == x then 0
    else
      var k := IndexOf(xs[1..], x);
      assert xs[..k + 1] == [xs[0]] + xs[1..][..k];
      k + 1
  }

  /** `sub` is `xs` with some elements left out and the others kept in their order. */
  predicate IsSubsequence<T(==)>(sub: seq<T>, xs: seq<T>)
    decreases |xs|
  {
    if sub == [] then true
    else if xs == [] then false
    else if sub[0] == xs[0] then IsSubsequence(sub[1..], xs[1..])
    else IsSubsequence(sub, xs[1..])
  }

  /** `xs.filter(p)`: the elements that satisfy `p`. Nothing is kept that fails `p`. */
  function Filter<T(==)>(xs: seq<T>, p: T -> bool): (r: seq<T>)
    ensures |r| <= |xs|
    ensures forall i :: 0 <= i < |r| ==> r[i] in xs && p(r[i])
  {
    if xs == [] then []
    else
      var rest := Filter(xs[1..], p);
      assert xs == [xs[0]] + xs[1..];
      (if p(xs[0]) then [xs[0]] else []) + rest
  }

  /** `filter` loses nothing that satisfies `p`. */
  lemma {:induction false} FilterKeeps<T>(xs: seq<T>, p: T -> bool, x: T)
    requires x in xs && p(x)
    ensures x in Filter(xs, p)
  {
    if xs[0] != x {
      assert x in xs[1..];
      FilterKeeps(xs[1..], p, x);
    }
  }

  /** `filter` keeps every copy of what satisfies `p`: its number of occurrences is unchanged. */
  lemma {:induction false} FilterMultiplicity<T>(xs: seq<T>, p: T -> bool, x: T)
    requires p(x)
    ensures multiset(Filter(xs, p))[x] == multiset(xs)[x]
  {
    if xs != [] {
      FilterMultiplicity(xs[1..], p, x);
      assert xs == [xs[0]] + xs[1..];
    }
  }

  /** When every element satisfies `p`, `filter` gives the list back whole. */
  lemma {:induction false} FilterAll<T>(xs: seq<T>, p: T -> bool)
    requires forall i :: 0 <= i < |xs| ==> p(xs[i])
    ensures Filter(xs, p) == xs
  {
    if xs != [] {
      FilterAll(xs[1..], p);
    }
  }

  /** `filter` keeps the relative order of what it keeps. */
  lemma {:induction false} FilterIsSubsequence<T>(xs: seq<T>, p: T -> bool)
    ensures IsSubsequence(Filter(xs, p), xs)
  {
    if xs != [] {
      FilterIsSubsequence(xs[1..], p);
      var rest := Filter(xs[1..], p);
      if p(xs[0]) {
        assert Filter(xs, p) == [xs[0]] + rest;
        assert ([xs[0]] + rest)[1..] == rest;
      } else {
        assert Filter(xs, p) == rest;
        if rest != [] {
          assert rest[0] in rest;
          assert rest[0] != xs[0];
        }
      }
    }
  }

  /** Filtering a list with one more element at the end. */
  lemma {:induction false} FilterSnoc<T>(xs: seq<T>, x: T, p: T -> bool)
    ensures Filter(xs + [x], p) == Filter(xs, p) + (if p(x) then [x] else [])
  {
    if xs == [] {
      assert [x][1..] == [];
    } else {
      assert (xs + [x])[1..] == xs[1..] + [x];
      FilterSnoc(xs[1..], x, p);
    }
  }

  /** `xs.filter((x, i, arr) => arr.indexOf(x) === i)`: an element is kept only at the position
      where it first occurs. The result has no duplicates and only values of `xs`. */
  function Dedup<T(==)>(xs: seq<T>): (r: seq<T>)
    ensures NoDup(r)
    ensures forall i :: 0 <= i < |r| ==> r[i] in xs
  {
    if xs == [] then []
    else
      var init := xs[..|xs| - 1];
      var x := xs[|xs| - 1];
      assert xs == init + [x];
      Dedup(init) + (if x in init then [] else [x])
  }

  /** What holds of every element of a list holds of every element of its `Dedup`. */
  lemma DedupAll<T>(xs: seq<T>, p: T -> bool)
    requires forall i :: 0 <= i < |xs| ==> p(xs[i])
    ensures forall i :: 0 <= i < |Dedup(xs)| ==> p(Dedup(xs)[i])
  {
  }

  /** `Dedup` loses no value. */
  lemma {:induction false} DedupKeeps<T>(xs: seq<T>, x: T)
    requires x in xs
    ensures x in Dedup(xs)
  {
    var init := xs[..|xs| - 1];
    assert xs == init + [xs[|xs| - 1]];
    if x in init {
      DedupKeeps(init, x);
    }
  }

  /** `xs.filter((x, i, arr) => arr.indexOf(x) === i)` read literally over the first `n`
      positions: position `i` is kept when `indexOf` finds `xs[i]` first at `i`. */
  function FirstOccurrences<T(==)>(xs: seq<T>, n: nat): seq<T>
    requires n <= |xs|
  {
    if n == 0 then []
    else FirstOccurrences(xs, n - 1) + (if IndexOf(xs, xs[n - 1]) == n - 1 then [xs[n - 1]] else [])
  }

  /** `Dedup` is the `indexOf` filter: keeping a value where it is first seen is keeping the
      positions at which `indexOf` finds it. */
  lemma {:induction false} DedupIsFirstOccurrences<T>(xs: seq<T>, n: nat)
    requires n <= |xs|
    ensures Dedup(xs[..n]) == FirstOccurrences(xs, n)
  {
    if n > 0 {
      DedupIsFirstOccurrences(xs, n - 1);
      var x := xs[n - 1];
      assert xs[..n][..n - 1] == xs[..n - 1];
      assert xs[..n][n - 1] == x;
      if x in xs[..n - 1] {
        IndexOfInPrefix(xs, n - 1, x);
      } else {
        assert xs[..n - 1] == xs[..n][..n - 1];
      }
    }
  }

  /** The first occurrence of a value in a prefix is its first occurrence in the whole list. */
  lemma {:induction false} IndexOfInPrefix<T>(xs: seq<T>, n: nat, y: T)
    requires n <= |xs| && y in xs[..n]
    ensures IndexOf(xs, y) == IndexOf(xs[..n], y)
  {
    var k := IndexOf(xs[..n], y);
    var m := IndexOf(xs, y);
    assert xs[k] == y;
  }

  /** Values come out of `Dedup` in the order in which they are first seen. */
  lemma {:induction false} DedupFirstSeenOrder<T>(xs: seq<T>)
    ensures forall i, j :: 0 <= i < j < |Dedup(xs)| ==> IndexOf(xs, Dedup(xs)[i]) < IndexOf(xs, Dedup(xs)[j])
  {
    if xs != [] {
      var init := xs[..|xs| - 1];
      var x := xs[|xs| - 1];
      var d := Dedup(init);
      DedupFirstSeenOrder(init);
      assert Dedup(xs) == d + (if x in init then [] else [x]);
      forall i, j | 0 <= i < j < |Dedup(xs)|
        ensures IndexOf(xs, Dedup(xs)[i]) < IndexOf(xs, Dedup(xs)[j])
      {
        var r := Dedup(xs);
        assert r[i] == d[i] && r[i] in init;
        IndexOfInPrefix(xs, |xs| - 1, r[i]);
        if j < |d| {
          assert r[j] == d[j] && r[j] in init;
          IndexOfInPrefix(xs, |xs| - 1, r[j]);
        } else {
          assert r[j] == x && x !in init;
          assert xs[..|xs| - 1] == init;
          assert IndexOf(xs, x) == |xs| - 1;
        }
      }
    }
  }

  /** A list without duplicates is its own `Dedup`. */
  lemma {:induction false} DedupOfDistinct<T>(xs: seq<T>)
    requires NoDup(xs)
    ensures Dedup(xs) == xs
  {
    if xs != [] {
      var init := xs[..|xs| - 1];
      assert NoDup(init);
      DedupOfDistinct(init);
      assert xs[|xs| - 1] !in init;
      assert xs == init + [xs[|xs| - 1]];
    }
  }

  /** `xs.find(p)`: the first element that satisfies `p`, or nothing when none does. */
  function FindFirst<T(==)>(xs: seq<T>, p: T -> bool): (r: Option<T>)
    ensures r.None? <==> forall i :: 0 <= i < |xs| ==> !p(xs[i])
    ensures r.Some? ==> exists i :: 0 <= i < |xs| && xs[i] == r.value && p(xs[i]) &&
                          forall j :: 0 <= j < i ==> !p(xs[j])
  {
    if xs == [] then None
    else if p(xs[0]) then Some(xs[0])
    else
      var r := FindFirst(xs[1..], p);
      assert forall i :: 1 <= i < |xs| ==> xs[i] == xs[1..][i - 1];
      r
  }
}
