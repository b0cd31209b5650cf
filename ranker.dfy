/**
 * Scores and the top-k cut of `recommend_from_likes` (recommender.py,
 * lines 177-193). A score is a finite real or the `-np.inf` sentinel used
 * to exclude a row; `np.argpartition` followed by `np.argsort` on the
 * negated scores picks the k best rows in non-increasing order. numpy
 * leaves the order among equal scores unspecified, so the ranking
 * predicate says nothing about ties; the selection below breaks them by
 * lowest index.
 */
module Ranker {
  import opened Wrappers
  import opened Seqs

  /** A float64 score: finite, or `-np.inf`. */
  datatype Score = NegInf | Fin(v: real)

  /** `a <= b` on scores, with `-inf` below everything. */
  predicate Le(a: Score, b: Score)
  {
    a.NegInf? || (b.Fin? && a.v <= b.v)
  }

  predicate Lt(a: Score, b: Score)
  {
    !Le(b, a)
  }

  lemma LeTotal(a: Score, b: Score)
    ensures Le(a, b) || Le(b, a)
  {
  }

  lemma LeTrans(a: Score, b: Score, c: Score)
    requires Le(a, b) && Le(b, c)
    ensures Le(a, c)
  {
  }

  /**
   * `top` is a valid answer of `argpartition` + `argsort` for `k`: k distinct
   * row indices, scores non-increasing, and no omitted row scoring above a
   * chosen one.
   */
  predicate Ranked(scores: seq<Score>, k: nat, top: seq<nat>)
  {
    && |top| == k
    && (forall i :: 0 <= i < |top| ==> top[i] < |scores|)
    && Distinct(top)
    && (forall i, j :: 0 <= i < j < |top| ==> Le(scores[top[j]], scores[top[i]]))
    && (forall x, i :: 0 <= x < |scores| && x !in top && 0 <= i < |top| ==> Le(scores[x], scores[top[i]]))
  }

  /**
   * The best row below `n` outside `taken` (lowest index among equals), or
   * None when every row below `n` is taken.
   */
  function BestOutside(scores: seq<Score>, taken: seq<nat>, n: nat): (r: Option<nat>)
    requires n <= |scores|
    ensures r.None? <==> forall j :: 0 <= j < n ==> j in taken
    ensures r.Some? ==>
      && r.value < n && r.value !in taken
      && forall j :: 0 <= j < n && j !in taken ==> Le(scores[j], scores[r.value])
  {
    if n == 0 then None
    else
      var b := BestOutside(scores, taken, n - 1);
      if n - 1 in taken then b
      else if b.None? || Lt(scores[b.value], scores[n - 1]) then Some(n - 1)
      else b
  }

  /** Some row is free while fewer than all rows are taken. */
  lemma FreeRow(taken: seq<nat>, n: nat)
    requires |taken| < n
    ensures exists j :: 0 <= j < n && j !in taken
  {
    var j := MissingBelow(taken, n);
  }

  /** The `k` best rows, each pick the best row not yet picked. */
  function TopK(scores: seq<Score>, k: nat): (top: seq<nat>)
    requires k <= |scores|
    ensures Ranked(scores, k, top)
  {
    if k == 0 then []
    else
      var prev := TopK(scores, k - 1);
      FreeRow(prev, |scores|);
      var b := BestOutside(scores, prev, |scores|).value;
      prev + [b]
  }

  /**
   * A ranked answer holds a `-inf` row only once the finite rows are used
   * up: every row left out is then `-inf` as well.
   */
  lemma NegInfOnlyWhenExhausted(scores: seq<Score>, k: nat, top: seq<nat>, i: nat)
    requires Ranked(scores, k, top) && i < |top| && scores[top[i]].NegInf?
    ensures forall x :: 0 <= x < |scores| && x !in top ==> scores[x].NegInf?
  {
  }

  /** The first row of a ranked answer scores at least as high as every row. */
  lemma FirstIsMaximum(scores: seq<Score>, k: nat, top: seq<nat>)
    requires Ranked(scores, k, top) && k > 0
    ensures forall x :: 0 <= x < |scores| ==> Le(scores[x], scores[top[0]])
  {
    forall x | 0 <= x < |scores|
      ensures Le(scores[x], scores[top[0]])
    {
      if x in top {
        var i :| 0 <= i < |top| && top[i] == x;
        if i > 0 {
          assert Le(scores[top[i]], scores[top[0]]);
        }
      }
    }
  }

  lemma LeAntisymmetric(a: Score, b: Score)
    requires Le(a, b) && Le(b, a)
    ensures a == b
  {
  }

  /**
   * Any two ranked answers agree on their score lists: the unspecified
   * tie order changes which rows appear, never the scores shown.
   */
  lemma RankedScoresUnique(scores: seq<Score>, k: nat, a: seq<nat>, b: seq<nat>, i: nat)
    requires Ranked(scores, k, a) && Ranked(scores, k, b) && i < k
    ensures scores[a[i]] == scores[b[i]]
  {
    RankedLe(scores, k, a, b, i);
    RankedLe(scores, k, b, a, i);
    LeAntisymmetric(scores[a[i]], scores[b[i]]);
  }

  /**
   * `a[0..i]` are i+1 distinct rows scoring at least `a[i]`; at most i of
   * them sit in `b[..i]`, and the one left over scores at most `b[i]`.
   */
  lemma RankedLe(scores: seq<Score>, k: nat, a: seq<nat>, b: seq<nat>, i: nat)
    requires Ranked(scores, k, a) && Ranked(scores, k, b) && i < k
    ensures Le(scores[a[i]], scores[b[i]])
  {
    var lo := a[..i + 1];
    var y := OutsidePrefix(lo, b, i);
    var j :| 0 <= j <= i && lo[j] == y;
    assert Le(scores[a[i]], scores[y]) by {
      if j < i {
        assert Le(scores[a[i]], scores[a[j]]);
      }
    }
    if y in b {
      var t :| 0 <= t < |b| && b[t] == y;
      assert t >= i by {
        assert forall t' :: 0 <= t' < i ==> b[..i][t'] == b[t'];
      }
      assert Le(scores[y], scores[b[i]]) by {
        if t > i {
          assert Le(scores[b[t]], scores[b[i]]);
        }
      }
      LeTrans(scores[a[i]], scores[y], scores[b[i]]);
    } else {
      assert Le(scores[y], scores[b[i]]);
      LeTrans(scores[a[i]], scores[y], scores[b[i]]);
    }
  }

  /** Among i+1 distinct rows, one is outside the first i rows of `a`. */
  lemma OutsidePrefix(hi: seq<nat>, a: seq<nat>, i: nat) returns (y: nat)
    requires |hi| == i + 1 && Distinct(hi) && i < |a|
    ensures y in hi && y !in a[..i]
  {
    var s := Elems(hi);
    var t := Elems(a[..i]);
    DistinctCard(hi);
    ElementsCard(a[..i]);
    assert |s| == i + 1;
    assert |t| <= i;
    var d := s - t;
    assert |s| <= |d| + |t| by {
      assert s <= d + t;
      SubsetCard(s, d + t);
    }
    assert |d| > 0;
    y :| y in d;
  }

  lemma SubsetCard(s: set<nat>, u: set<nat>)
    requires s <= u
    ensures |s| <= |u| && |u| <= |u - s| + |s|
  {
    assert u == (u - s) + s;
  }
}
