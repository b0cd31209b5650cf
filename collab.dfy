/**
 * The collaborative half of the hybrid model (recommender.py,
 * `_build_models`, lines 119-133): per-item means over rated cells,
 * mean-centering that keeps unrated cells at zero, item-item cosine
 * similarity of the centered columns, and a zeroed diagonal.
 *
 * Ratings are reals; `float32` rounding is not modelled. The Euclidean
 * norm is a parameter (`norm`), since a square root is not a real-number
 * operation here.
 */
module Collab {
  import opened Seqs
  import opened Loader

  /** Column `j` of a row-major matrix. */
  function Column(R: seq<seq<real>>, j: nat): (c: seq<real>)
    requires forall u :: 0 <= u < |R| ==> j < |R[u]|
    ensures |c| == |R| && forall u :: 0 <= u < |R| ==> c[u] == R[u][j]
  {
    seq(|R|, u requires 0 <= u < |R| => R[u][j])
  }

  /** `(R > 0).sum(axis=0)` for one column: the number of rated cells. */
  function CountRated(xs: seq<real>): (n: nat)
    ensures n <= |xs|
  {
    if xs == [] then 0
    else CountRated(xs[..|xs| - 1]) + if xs[|xs| - 1] > 0.0 then 1 else 0
  }

  /** The positions of the rated (positive) cells of a column. */
  function RatedCells(xs: seq<real>): set<nat>
  {
    set i: nat | i < |xs| && xs[i] > 0.0
  }

  /** `CountRated` is the number of positive cells. */
  lemma {:induction false} CountRatedCounts(xs: seq<real>)
    ensures CountRated(xs) == |RatedCells(xs)|
  {
    if xs != [] {
      var init := xs[..|xs| - 1];
      var last := |xs| - 1;
      CountRatedCounts(init);
      var s0 := RatedCells(init);
      var s := RatedCells(xs);
      if xs[last] > 0.0 {
        assert s == s0 + {last};
        assert last !in s0;
      } else {
        assert s == s0;
      }
    }
  }

  /** The sum of the rated (positive) cells of a column. */
  function SumRated(xs: seq<real>): real
  {
    if xs == [] then 0.0
    else SumRated(xs[..|xs| - 1]) + if xs[|xs| - 1] > 0.0 then xs[|xs| - 1] else 0.0
  }

  /** With no negative cells, `R.sum(axis=0)` is the sum over rated cells only. */
  lemma {:induction false} SumOfNonNegative(xs: seq<real>)
    requires forall i :: 0 <= i < |xs| ==> xs[i] >= 0.0
    ensures Sum(xs) == SumRated(xs)
  {
    if xs != [] {
      SumOfNonNegative(xs[..|xs| - 1]);
    }
  }

  /**
   * `np.divide(item_sums, item_counts, out=zeros, where=item_counts > 0)`:
   * the column sum over the number of rated cells, or 0 for an unrated item.
   */
  function ItemMean(xs: seq<real>): (m: real)
    ensures CountRated(xs) > 0 ==> m * (CountRated(xs) as real) == Sum(xs)
    ensures CountRated(xs) == 0 ==> m == 0.0
  {
    if CountRated(xs) > 0 then Sum(xs) / (CountRated(xs) as real) else 0.0
  }

  /** The sum of the rated cells lies between `count * lo` and `count * hi`. */
  lemma {:induction false} RatedSumBounds(xs: seq<real>, lo: real, hi: real)
    requires forall i :: 0 <= i < |xs| && xs[i] > 0.0 ==> lo <= xs[i] <= hi
    ensures (CountRated(xs) as real) * lo <= SumRated(xs) <= (CountRated(xs) as real) * hi
  {
    if xs != [] {
      var init, x := xs[..|xs| - 1], xs[|xs| - 1];
      assert forall i :: 0 <= i < |init| ==> init[i] == xs[i];
      RatedSumBounds(init, lo, hi);
      if x > 0.0 {
        BoundStep(CountRated(init) as real, SumRated(init), x, lo, hi);
      }
    }
  }

  lemma BoundStep(c: real, s: real, x: real, lo: real, hi: real)
    requires c * lo <= s <= c * hi && lo <= x <= hi
    ensures (c + 1.0) * lo <= s + x <= (c + 1.0) * hi
  {
    assert (c + 1.0) * lo == c * lo + lo;
    assert (c + 1.0) * hi == c * hi + hi;
  }

  /** A column with no rated cell has nothing to sum. */
  lemma {:induction false} UnratedSumZero(xs: seq<real>)
    requires CountRated(xs) == 0
    ensures SumRated(xs) == 0.0
  {
    if xs != [] {
      UnratedSumZero(xs[..|xs| - 1]);
    }
  }

  /** A quotient by a positive count lies within the bounds that scale its numerator. */
  lemma QuotientBetween(s: real, c: real, lo: real, hi: real)
    requires c > 0.0 && c * lo <= s <= c * hi
    ensures lo <= s / c <= hi
  {
    var m := s / c;
    assert m * c == s;
    assert (m - lo) * c == s - c * lo;
    assert (hi - m) * c == c * hi - s;
  }

  /** With no negative cells, the column sum is bounded by the count of rated cells. */
  lemma ColumnSumBounds(xs: seq<real>, lo: real, hi: real)
    requires forall i :: 0 <= i < |xs| ==> xs[i] >= 0.0
    requires forall i :: 0 <= i < |xs| && xs[i] > 0.0 ==> lo <= xs[i] <= hi
    ensures (CountRated(xs) as real) * lo <= Sum(xs) <= (CountRated(xs) as real) * hi
  {
    SumOfNonNegative(xs);
    RatedSumBounds(xs, lo, hi);
  }

  /** An item's mean lies within the range of the ratings it received. */
  lemma MeanWithinRatings(xs: seq<real>, lo: real, hi: real)
    requires forall i :: 0 <= i < |xs| ==> xs[i] >= 0.0
    requires forall i :: 0 <= i < |xs| && xs[i] > 0.0 ==> lo <= xs[i] <= hi
    requires CountRated(xs) > 0
    ensures lo <= ItemMean(xs) <= hi
  {
    ColumnSumBounds(xs, lo, hi);
    MeanFromBounds(xs, lo, hi);
  }

  lemma MeanFromBounds(xs: seq<real>, lo: real, hi: real)
    requires CountRated(xs) > 0
    requires (CountRated(xs) as real) * lo <= Sum(xs) <= (CountRated(xs) as real) * hi
    ensures lo <= ItemMean(xs) <= hi
  {
    QuotientBetween(Sum(xs), CountRated(xs) as real, lo, hi);
  }

  /** A centered cell given the column means: rating minus mean where rated, 0 elsewhere. */
  function Centered(x: real, mean: real): real
  {
    if x > 0.0 then x - mean else 0.0
  }

  /** One column after `R - item_means` and `R_centered[~mask] = 0.0`. */
  function CenterColumn(xs: seq<real>, m: real): (c: seq<real>)
    ensures |c| == |xs|
  {
    seq(|xs|, i requires 0 <= i < |xs| => Centered(xs[i], m))
  }

  lemma {:induction false} CenteredSum(xs: seq<real>, m: real)
    ensures Sum(CenterColumn(xs, m)) == SumRated(xs) - (CountRated(xs) as real) * m
  {
    if xs != [] {
      var init, x := xs[..|xs| - 1], xs[|xs| - 1];
      CenteredSum(init, m);
      var cc := CenterColumn(xs, m);
      assert cc[..|xs| - 1] == CenterColumn(init, m);
      assert Sum(cc) == Sum(CenterColumn(init, m)) + Centered(x, m);
      CountStep(CountRated(init) as real, CountRated(xs) as real, m, x);
    }
  }

  lemma CountStep(c0: real, c: real, m: real, x: real)
    requires c == if x > 0.0 then c0 + 1.0 else c0
    ensures c * m == c0 * m + (if x > 0.0 then m else 0.0)
  {
  }

  /**
   * Centering removes each item's bias: with ratings non-negative, every
   * centered column sums to zero (an unrated column is all zeros).
   */
  lemma CenteredColumnSumsToZero(xs: seq<real>)
    requires forall i :: 0 <= i < |xs| ==> xs[i] >= 0.0
    ensures Sum(CenterColumn(xs, ItemMean(xs))) == 0.0
  {
    CenteredSum(xs, ItemMean(xs));
    SumOfNonNegative(xs);
    if CountRated(xs) == 0 {
      UnratedSumZero(xs);
    }
  }

  /** The item means of every column: `item_means`. */
  function ItemMeans(R: seq<seq<real>>, cols: nat): (means: seq<real>)
    requires IsMatrix(R, |R|, cols)
    ensures |means| == cols && forall j :: 0 <= j < cols ==> means[j] == ItemMean(Column(R, j))
  {
    seq(cols, j requires 0 <= j < cols => ItemMean(Column(R, j)))
  }

  /** The whole centered matrix, cell by cell. */
  function CenteredMatrix(R: seq<seq<real>>, cols: nat): (Rc: seq<seq<real>>)
    requires IsMatrix(R, |R|, cols)
    ensures IsMatrix(Rc, |R|, cols)
  {
    var means := ItemMeans(R, cols);
    seq(|R|, u requires 0 <= u < |R| => seq(cols, j requires 0 <= j < cols => Centered(R[u][j], means[j])))
  }

  /** Each centered column is its own column centered on its own mean. */
  lemma CenteredColumns(R: seq<seq<real>>, cols: nat, j: nat)
    requires IsMatrix(R, |R|, cols) && j < cols
    ensures Column(CenteredMatrix(R, cols), j) == CenterColumn(Column(R, j), ItemMean(Column(R, j)))
  {
  }

  /**
   * `R_centered`: the broadcast subtraction of the item means over the
   * whole matrix, then unrated cells reset to zero in place.
   */
  method CenterRatings(R: seq<seq<real>>, cols: nat) returns (Rc: seq<seq<real>>)
    requires IsMatrix(R, |R|, cols)
    ensures Rc == CenteredMatrix(R, cols)
  {
    var rows := |R|;
    var means := ItemMeans(R, cols);
    var a := SubtractMeans(R, cols, means);
    ZeroUnrated(a, R, cols, means);
    Rc := seq(rows, u requires 0 <= u < rows reads a =>
            seq(cols, j requires 0 <= j < cols reads a => a[u, j]));
    assert forall u :: 0 <= u < rows ==> Rc[u] == CenteredMatrix(R, cols)[u];
  }

  /** `R - item_means`: the means broadcast over every row. */
  method SubtractMeans(R: seq<seq<real>>, cols: nat, means: seq<real>) returns (a: array2<real>)
    requires IsMatrix(R, |R|, cols) && |means| == cols
    ensures fresh(a) && a.Length0 == |R| && a.Length1 == cols
    ensures forall u, j :: 0 <= u < |R| && 0 <= j < cols ==> a[u, j] == R[u][j] - means[j]
  {
    var rows := |R|;
    a := new real[rows, cols];
    for u := 0 to rows
      invariant forall u', j :: 0 <= u' < u && 0 <= j < cols ==> a[u', j] == R[u'][j] - means[j]
    {
      for j := 0 to cols
        invariant forall u', j' :: 0 <= u' < u && 0 <= j' < cols ==> a[u', j'] == R[u'][j'] - means[j']
        invariant forall j' :: 0 <= j' < j ==> a[u, j'] == R[u][j'] - means[j']
      {
        a[u, j] := R[u][j] - means[j];
      }
    }
  }

  /** `R_centered[~mask] = 0.0` with `mask = R > 0`: unrated cells become 0, rated cells are kept. */
  method ZeroUnrated(a: array2<real>, R: seq<seq<real>>, cols: nat, means: seq<real>)
    requires IsMatrix(R, |R|, cols) && |means| == cols
    requires a.Length0 == |R| && a.Length1 == cols
    requires forall u, j :: 0 <= u < |R| && 0 <= j < cols ==> a[u, j] == R[u][j] - means[j]
    modifies a
    ensures forall u, j :: 0 <= u < |R| && 0 <= j < cols ==> a[u, j] == Centered(R[u][j], means[j])
  {
    for u := 0 to |R|
      invariant forall u', j :: 0 <= u' < |R| && 0 <= j < cols ==>
        a[u', j] == if u' < u then Centered(R[u'][j], means[j]) else R[u'][j] - means[j]
    {
      for j := 0 to cols
        invariant forall u', j' :: 0 <= u' < |R| && 0 <= j' < cols ==>
          a[u', j'] == if u' < u || (u' == u && j' < j) then Centered(R[u'][j'], means[j']) else R[u'][j'] - means[j']
      {
        if !(R[u][j] > 0.0) {
          a[u, j] := 0.0;
        }
      }
    }
  }

  /** The dot product of two equal-length vectors. */
  function Dot(xs: seq<real>, ys: seq<real>): real
    requires |xs| == |ys|
  {
    if xs == [] then 0.0
    else Dot(xs[..|xs| - 1], ys[..|ys| - 1]) + xs[|xs| - 1] * ys[|ys| - 1]
  }

  lemma {:induction false} DotSymmetric(xs: seq<real>, ys: seq<real>)
    requires |xs| == |ys|
    ensures Dot(xs, ys) == Dot(ys, xs)
  {
    if xs != [] {
      DotSymmetric(xs[..|xs| - 1], ys[..|ys| - 1]);
    }
  }

  /**
   * `cosine_similarity` of two columns: rows are scaled to unit length
   * first, and a zero-norm row stays zero, so its similarity to anything is 0.
   */
  function Cosine(x: seq<real>, y: seq<real>, norm: seq<real> -> real): (c: real)
    requires |x| == |y|
    ensures norm(x) == 0.0 || norm(y) == 0.0 ==> c == 0.0
    ensures norm(x) != 0.0 && norm(y) != 0.0 ==> c * (norm(x) * norm(y)) == Dot(x, y)
  {
    if norm(x) == 0.0 || norm(y) == 0.0 then 0.0 else Dot(x, y) / (norm(x) * norm(y))
  }

  lemma CosineSymmetric(x: seq<real>, y: seq<real>, norm: seq<real> -> real)
    requires |x| == |y|
    ensures Cosine(x, y, norm) == Cosine(y, x, norm)
  {
    DotSymmetric(x, y);
  }

  /** `collab_sim[a, b]` once the diagonal is filled with 0. */
  function CollabEntry(Rc: seq<seq<real>>, cols: nat, norm: seq<real> -> real, a: nat, b: nat): real
    requires IsMatrix(Rc, |Rc|, cols) && a < cols && b < cols
  {
    if a == b then 0.0 else Cosine(Column(Rc, a), Column(Rc, b), norm)
  }

  /** The item-item similarity is symmetric. */
  lemma CollabSymmetric(Rc: seq<seq<real>>, cols: nat, norm: seq<real> -> real, a: nat, b: nat)
    requires IsMatrix(Rc, |Rc|, cols) && a < cols && b < cols
    ensures CollabEntry(Rc, cols, norm, a, b) == CollabEntry(Rc, cols, norm, b, a)
  {
    CosineSymmetric(Column(Rc, a), Column(Rc, b), norm);
  }

  /**
   * `cosine_similarity(R_centered.T)` then `np.fill_diagonal(collab_sim, 0.0)`:
   * the full cosine matrix is written first and its diagonal overwritten in place.
   */
  method CollabSimilarity(Rc: seq<seq<real>>, cols: nat, norm: seq<real> -> real) returns (S: seq<seq<real>>)
    requires IsMatrix(Rc, |Rc|, cols)
    ensures IsMatrix(S, cols, cols)
    ensures forall a, b :: 0 <= a < cols && 0 <= b < cols ==> S[a][b] == CollabEntry(Rc, cols, norm, a, b)
    ensures forall a :: 0 <= a < cols ==> S[a][a] == 0.0
  {
    var sim := CosineMatrix(Rc, cols, norm);
    FillDiagonal(sim);
    S := seq(cols, a requires 0 <= a < cols reads sim =>
           seq(cols, b requires 0 <= b < cols reads sim => sim[a, b]));
  }

  /** `cosine_similarity(R_centered.T)`: cell `(a, b)` is the cosine of columns `a` and `b`. */
  method CosineMatrix(Rc: seq<seq<real>>, cols: nat, norm: seq<real> -> real) returns (sim: array2<real>)
    requires IsMatrix(Rc, |Rc|, cols)
    ensures fresh(sim) && sim.Length0 == cols && sim.Length1 == cols
    ensures forall a, b :: 0 <= a < cols && 0 <= b < cols ==>
      sim[a, b] == Cosine(Column(Rc, a), Column(Rc, b), norm)
  {
    sim := new real[cols, cols];
    for a := 0 to cols
      invariant forall a', b :: 0 <= a' < a && 0 <= b < cols ==>
        sim[a', b] == Cosine(Column(Rc, a'), Column(Rc, b), norm)
    {
      for b := 0 to cols
        invariant forall a', b' :: 0 <= a' < a && 0 <= b' < cols ==>
          sim[a', b'] == Cosine(Column(Rc, a'), Column(Rc, b'), norm)
        invariant forall b' :: 0 <= b' < b ==> sim[a, b'] == Cosine(Column(Rc, a), Column(Rc, b'), norm)
      {
        sim[a, b] := Cosine(Column(Rc, a), Column(Rc, b), norm);
      }
    }
  }

  /** `np.fill_diagonal(m, 0.0)`: the diagonal becomes 0 and every other cell is kept. */
  method FillDiagonal(m: array2<real>)
    requires m.Length0 == m.Length1
    modifies m
    ensures forall a, b :: 0 <= a < m.Length0 && 0 <= b < m.Length1 ==>
      m[a, b] == if a == b then 0.0 else old(m[a, b])
  {
    for d := 0 to m.Length0
      invariant forall a, b :: 0 <= a < m.Length0 && 0 <= b < m.Length1 ==>
        m[a, b] == if a == b && a < d then 0.0 else old(m[a, b])
    {
      m[d, d] := 0.0;
    }
  }
}
