/**
 * Sequence helpers shared by the recommender model: the numpy and pandas
 * building blocks the source leans on (`np.where`, `np.argmax`,
 * `sorted(unique())`, positional lookup), each with the contract that
 * says what it computes.
 */
module Seqs {

  predicate StrictlyIncreasing(s: seq<int>)
  {
    forall i, j :: 0 <= i < j < |s| ==> s[i] < s[j]
  }

  predicate Distinct<T(==)>(s: seq<T>)
  {
    forall i, j :: 0 <= i < j < |s| ==> s[i] != s[j]
  }

  /** `np.where(mask)[0]`: the positions where `mask` holds, ascending. */
  function Where(mask: seq<bool>): (r: seq<nat>)
    ensures StrictlyIncreasing(r)
    ensures |r| <= |mask|
    ensures forall t :: 0 <= t < |r| ==> r[t] < |mask| && mask[r[t]]
    ensures forall i :: 0 <= i < |mask| && mask[i] ==> i in r
  {
    if mask == [] then []
    else
      var p := Where(mask[..|mask| - 1]);
      if mask[|mask| - 1] then p + [|mask| - 1] else p
  }

  /** An all-false mask selects nothing. */
  lemma {:induction false} WhereNone(mask: seq<bool>)
    requires forall i :: 0 <= i < |mask| ==> !mask[i]
    ensures Where(mask) == []
  {
    if mask != [] {
      WhereNone(mask[..|mask| - 1]);
    }
  }

  /** `np.arange(n)`. */
  function Range(n: nat): (r: seq<nat>)
    ensures |r| == n && StrictlyIncreasing(r)
    ensures forall i :: 0 <= i < n ==> r[i] == i
    ensures forall k: nat :: k in r <==> k < n
  {
    if n == 0 then [] else Range(n - 1) + [n - 1]
  }

  /** Position of the first occurrence of `x` (a `{v: i}` map lookup). */
  function IndexOf<T(==)>(s: seq<T>, x: T): (i: nat)
    requires x in s
    ensures i < |s| && s[i] == x
    ensures forall j :: 0 <= j < i ==> s[j] != x
  {
    if s[0] == x then 0 else 1 + IndexOf(s[1..], x)
  }

  /** In a strictly increasing sequence the position of a value is unique. */
  lemma IndexOfIncreasing(s: seq<int>, i: nat)
    requires StrictlyIncreasing(s) && i < |s|
    ensures IndexOf(s, s[i]) == i
  {
  }

  lemma IncreasingInjective(s: seq<int>, i: nat, j: nat)
    requires StrictlyIncreasing(s) && i < |s| && j < |s| && s[i] == s[j]
    ensures i == j
  {
  }

  lemma IncreasingDistinctValues(s: seq<int>, i: nat, j: nat)
    requires StrictlyIncreasing(s) && i < |s| && j < |s| && i != j
    ensures s[i] != s[j]
  {
  }

  /** `np.argmax`: the first position holding the largest value. */
  function ArgMax(xs: seq<real>): (b: nat)
    requires |xs| > 0
    ensures b < |xs|
    ensures forall j :: 0 <= j < |xs| ==> xs[j] <= xs[b]
    ensures forall j :: 0 <= j < b ==> xs[j] < xs[b]
  {
    if |xs| == 1 then 0
    else
      var b := ArgMax(xs[..|xs| - 1]);
      if xs[|xs| - 1] > xs[b] then |xs| - 1 else b
  }

  /** Appending a value above every element keeps a sequence strictly increasing. */
  lemma IncreasingSnoc(s: seq<int>, x: int)
    requires StrictlyIncreasing(s) && forall k :: 0 <= k < |s| ==> s[k] < x
    ensures StrictlyIncreasing(s + [x])
  {
  }

  /** One more element: `np.argmax` moves to it only when it is strictly larger. */
  lemma ArgMaxExtend(xs: seq<real>, i: nat)
    requires 0 < i < |xs|
    ensures ArgMax(xs[..i + 1]) == if xs[i] > xs[ArgMax(xs[..i])] then i else ArgMax(xs[..i])
  {
    assert xs[..i + 1][..i] == xs[..i];
  }

  /** Adds `x` to a strictly increasing sequence, keeping it so. */
  function Insert(s: seq<int>, x: int): (r: seq<int>)
    requires StrictlyIncreasing(s)
    ensures StrictlyIncreasing(r)
    ensures forall y :: y in r <==> y in s || y == x
  {
    if s == [] then [x]
    else if x < s[0] then [x] + s
    else if x == s[0] then s
    else
      var t := Insert(s[1..], x);
      assert forall k :: 0 <= k < |t| ==> t[k] in s[1..] || t[k] == x;
      [s[0]] + t
  }

  /** `sorted(xs.unique())`: the distinct values of `xs`, ascending. */
  function SortedUnique(xs: seq<int>): (r: seq<int>)
    ensures StrictlyIncreasing(r)
    ensures forall y :: y in r <==> y in xs
  {
    if xs == [] then [] else Insert(SortedUnique(xs[..|xs| - 1]), xs[|xs| - 1])
  }

  /** A strictly increasing sequence is determined by its elements. */
  lemma {:induction false} IncreasingUnique(a: seq<int>, b: seq<int>)
    requires StrictlyIncreasing(a) && StrictlyIncreasing(b)
    requires forall y :: y in a <==> y in b
    ensures a == b
  {
    if a != [] { assert a[0] in a; }
    if b != [] { assert b[0] in b; }
    if a != [] {
      assert a[0] in b && b[0] in a;
      assert a[0] == b[0];
      forall y
        ensures y in a[1..] <==> y in b[1..]
      {
        if y in a[1..] {
          assert y in a && y != a[0];
          assert y in b;
        }
        if y in b[1..] {
          assert y in b && y != b[0];
          assert y in a;
        }
      }
      IncreasingUnique(a[1..], b[1..]);
      assert a == [a[0]] + a[1..];
      assert b == [b[0]] + b[1..];
    }
  }

  /** A sequence has at most as many distinct elements as entries. */
  /** The elements of a sequence, as a set. */
  function Elems<T>(s: seq<T>): set<T>
  {
    set x | x in s
  }

  /** A sequence has no more distinct elements than positions. */
  lemma {:induction false} ElementsCard<T>(s: seq<T>)
    ensures |Elems(s)| <= |s|
  {
    if s != [] {
      var init := s[..|s| - 1];
      ElementsCard(init);
      assert Elems(s) == Elems(init) + {s[|s| - 1]};
    }
  }

  /** A sequence without repeats has as many elements as positions. */
  lemma {:induction false} DistinctCard<T>(s: seq<T>)
    requires Distinct(s)
    ensures |Elems(s)| == |s|
  {
    if s != [] {
      var init, last := s[..|s| - 1], s[|s| - 1];
      assert Distinct(init);
      DistinctCard(init);
      assert last !in Elems(init);
      assert Elems(s) == Elems(init) + {last};
    }
  }

  /** `s` with every occurrence of `x` removed. */
  function Remove(s: seq<nat>, x: nat): (r: seq<nat>)
    ensures |r| <= |s|
    ensures x in s ==> |r| < |s|
    ensures forall y :: y in r <==> y in s && y != x
  {
    if s == [] then []
    else if s[0] == x then Remove(s[1..], x)
    else [s[0]] + Remove(s[1..], x)
  }

  /** Fewer than `n` entries cannot cover all of `0..n-1`. */
  lemma {:induction false} MissingBelow(s: seq<nat>, n: nat) returns (i: nat)
    requires |s| < n
    ensures i < n && i !in s
    decreases n
  {
    if n - 1 !in s {
      i := n - 1;
    } else {
      var s' := Remove(s, n - 1);
      i := MissingBelow(s', n - 1);
    }
  }

  function Sum(xs: seq<real>): real
  {
    if xs == [] then 0.0 else Sum(xs[..|xs| - 1]) + xs[|xs| - 1]
  }

  /** `.mean()` of a non-empty vector. */
  function Mean(xs: seq<real>): (m: real)
    requires |xs| > 0
    ensures m * (|xs| as real) == Sum(xs)
  {
    Sum(xs) / (|xs| as real)
  }

  function Min(a: int, b: int): int
  {
    if a <= b then a else b
  }
}
