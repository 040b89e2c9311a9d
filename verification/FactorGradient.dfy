/**
 * The gradients are exact: a move of one weight or one factor changes the
 * p-weighted sum of the scores by the move times the computed gradient, up to
 * a term in the square of the move that no factor enters.
 */
module FactorGradient {
  import opened RowBlocks
  import opened SpMV
  import opened SpMM
  import opened FactorMachine

  lemma Split(a: real, b: real, c: real)
    ensures (a + b) * c == a * c + b * c && a * (b + c) == a * b + a * c && a * 0.0 == 0.0
  {
  }

  /** Moving the weight of one column moves a product by the values in that column. */
  lemma {:induction false} DotMoved(x: RowBlock, w: seq<real>, c: nat, d: real, lo: nat, hi: nat)
    requires hi <= |x.index| && Columns(x, |w|) && c < |w|
    ensures Dot(x, w[c := w[c] + d], lo, hi) == Dot(x, w, lo, hi) + d * Hits(x, c, lo, hi)
  {
    hide ValueAt;
    if lo < hi {
      DotMoved(x, w, c, d, lo, hi - 1);
      Split(w[c], d, ValueAt(x, hi - 1));
      Split(d, Hits(x, c, lo, hi - 1), ValueAt(x, hi - 1));
    }
  }

  // --------------------------------------------------------------- the weights

  ghost function WeightedScores(x: RowBlock, w: seq<real>, p: seq<real>, n: nat): real
    requires WellFormed(x) && Columns(x, |w|) && |p| == Size(x) && n <= Size(x)
  {
    if n == 0 then 0.0 else AddWeighted(WeightedScores(x, w, p, n - 1), p[n - 1], RowDot(x, w, n - 1))
  }

  lemma WeightStep(s: real, g: real, p: real, a: real, d: real, h: real)
    ensures s + d * g + p * (a + d * h) == s + p * a + d * (g + p * h)
  {
    Split(p, a, d * h);
    Split(d, g, p * h);
    assert p * (d * h) == d * (p * h);
  }

  /** The gradient of w: the score is linear in it. */
  lemma {:induction false} WeightGradient(x: RowBlock, w: seq<real>, p: seq<real>, c: nat, d: real, n: nat)
    requires WellFormed(x) && Columns(x, |w|) && |p| == Size(x) && n <= Size(x) && c < |w|
    ensures WeightedScores(x, w[c := w[c] + d], p, n) == WeightedScores(x, w, p, n) + d * ColDot(x, p, c, n)
  {
    hide Dot, Hits;
    if n == 0 {
      Split(d, 0.0, 0.0);
    } else {
      WeightGradient(x, w, p, c, d, n - 1);
      OffsetsInside(x, n);
      DotMoved(x, w, c, d, x.offset[n - 1], x.offset[n]);
      WeightStep(WeightedScores(x, w, p, n - 1), ColDot(x, p, c, n - 1), p[n - 1], RowDot(x, w, n - 1), d,
                 Hits(x, c, x.offset[n - 1], x.offset[n]));
    }
  }

  // --------------------------------------------------------------- the factors

  function Moved(v: Matrix, c: nat, k: nat, d: real): (r: Matrix)
    requires c < |v| && k < |v[c]|
    ensures |r| == |v|
  {
    v[c := v[c][k := v[c][k] + d]]
  }

  lemma MovedColumn(v: Matrix, dim: nat, c: nat, k: nat, d: real, q: nat)
    requires IsMatrix(v, dim) && c < |v| && k < dim && q < dim
    ensures IsMatrix(Moved(v, c, k, d), dim)
    ensures Column(Moved(v, c, k, d), dim, q)
         == if q == k then Column(v, dim, k)[c := Column(v, dim, k)[c] + d] else Column(v, dim, q)
  {
    SameVector(Column(Moved(v, c, k, d), dim, q),
               if q == k then Column(v, dim, k)[c := Column(v, dim, k)[c] + d] else Column(v, dim, q));
  }

  function Delta(u: real, d: real): real {
    2.0 * (u * d) + d * d
  }

  lemma MovedSquare(col: seq<real>, c: nat, d: real)
    requires c < |col|
    ensures SquaredVector(col[c := col[c] + d]) == SquaredVector(col)[c := SquaredVector(col)[c] + Delta(col[c], d)]
  {
    DeltaIs(col[c], d);
    hide Delta;
    SameVector(SquaredVector(col[c := col[c] + d]), SquaredVector(col)[c := SquaredVector(col)[c] + Delta(col[c], d)]);
  }

  lemma DeltaIs(u: real, d: real)
    ensures (u + d) * (u + d) == u * u + Delta(u, d)
  {
  }

  /** How much the excess of one row changes: a is (X V), h and s the row's values in column c and their squares. */
  function Change(a: real, h: real, u: real, s: real, d: real): real {
    2.0 * (d * (a * h - u * s)) + d * d * (h * h - s)
  }

  lemma SquareMoved(a: real, q: real, h: real, u: real, s: real, d: real, a': real, q': real)
    requires a' == a + d * h && q' == q + Delta(u, d) * s
    ensures Surplus(a', q') == Surplus(a, q) + Change(a, h, u, s, d)
  {
    var dh := d * h;
    assert (a + dh) * (a + dh) == a * a + 2.0 * (a * dh) + dh * dh;
    assert a * dh == d * (a * h);
    assert dh * dh == d * d * (h * h);
    assert (2.0 * (u * d) + d * d) * s == 2.0 * (d * (u * s)) + d * d * s;
    assert d * (a * h - u * s) == d * (a * h) - d * (u * s);
    assert d * d * (h * h - s) == d * d * (h * h) - d * d * s;
  }

  ghost function RowChange(x: RowBlock, v: Matrix, dim: nat, lo: nat, hi: nat, c: nat, k: nat, d: real): real
    requires hi <= |x.index| && Columns(x, |v|) && IsMatrix(v, dim) && c < |v| && k < dim
  {
    Change(Dot(x, Column(v, dim, k), lo, hi), Hits(x, c, lo, hi), v[c][k], Hits(Squared(x), c, lo, hi), d)
  }

  lemma ColumnMoved(x: RowBlock, v: Matrix, dim: nat, lo: nat, hi: nat, c: nat, k: nat, d: real)
    requires hi <= |x.index| && Columns(x, |v|) && IsMatrix(v, dim) && c < |v| && k < dim
    ensures IsMatrix(Moved(v, c, k, d), dim)
    ensures var a, a' := Dot(x, Column(v, dim, k), lo, hi), Dot(x, Column(Moved(v, c, k, d), dim, k), lo, hi);
            Surplus(a', SquareDot(x, Moved(v, c, k, d), dim, lo, hi, k))
            == Surplus(a, SquareDot(x, v, dim, lo, hi, k)) + RowChange(x, v, dim, lo, hi, c, k, d)
  {
    hide Dot, Hits, SquaredVector, Squared, Moved, Change, Surplus, Delta;
    MovedColumn(v, dim, c, k, d, k);
    var col := Column(v, dim, k);
    assert col[c] == v[c][k];
    hide Column;
    DotMoved(x, col, c, d, lo, hi);
    MovedSquare(col, c, d);
    DotMoved(Squared(x), SquaredVector(col), c, Delta(col[c], d), lo, hi);
    var a, q, h, s := Dot(x, col, lo, hi), SquareDot(x, v, dim, lo, hi, k), Hits(x, c, lo, hi), Hits(Squared(x), c, lo, hi);
    assert Dot(x, Column(Moved(v, c, k, d), dim, k), lo, hi) == a + d * h;
    assert SquareDot(x, Moved(v, c, k, d), dim, lo, hi, k) == q + Delta(col[c], d) * s;
    SquareMoved(a, q, h, col[c], s, d, Dot(x, Column(Moved(v, c, k, d), dim, k), lo, hi),
                SquareDot(x, Moved(v, c, k, d), dim, lo, hi, k));
    assert RowChange(x, v, dim, lo, hi, c, k, d) == Change(a, h, col[c], s, d);
  }

  lemma SameSquareDot(x: RowBlock, v: Matrix, u: Matrix, dim: nat, lo: nat, hi: nat, q: nat)
    requires hi <= |x.index| && Columns(x, |v|) && |u| == |v| && IsMatrix(v, dim) && IsMatrix(u, dim) && q < dim
    requires Column(u, dim, q) == Column(v, dim, q)
    ensures SquareDot(x, u, dim, lo, hi, q) == SquareDot(x, v, dim, lo, hi, q)
  {
  }

  lemma {:induction false} ExcessMoved(x: RowBlock, v: Matrix, dim: nat, lo: nat, hi: nat, c: nat, k: nat, d: real, n: nat)
    requires hi <= |x.index| && Columns(x, |v|) && IsMatrix(v, dim) && c < |v| && k < dim && n <= dim
    ensures IsMatrix(Moved(v, c, k, d), dim)
    ensures Excess(x, Moved(v, c, k, d), dim, lo, hi, n)
         == Excess(x, v, dim, lo, hi, n) + if k < n then RowChange(x, v, dim, lo, hi, c, k, d) else 0.0
  {
    MovedColumn(v, dim, c, k, d, if n == 0 then 0 else n - 1);
    hide Dot, Column, RowChange, Moved, IsMatrix, Columns, Surplus, SquareDot;
    if n > 0 {
      ExcessMoved(x, v, dim, lo, hi, c, k, d, n - 1);
      if n - 1 == k {
        ColumnMoved(x, v, dim, lo, hi, c, k, d);
      } else {
        SameSquareDot(x, v, Moved(v, c, k, d), dim, lo, hi, n - 1);
      }
    }
  }

  ghost function RowPairs(x: RowBlock, v: Matrix, dim: nat, i: nat): real
    requires WellFormed(x) && Columns(x, |v|) && IsMatrix(v, dim) && i < Size(x)
  {
    OffsetsInside(x, i + 1);
    Pairs(x, v, dim, x.offset[i], x.offset[i + 1])
  }

  /** The p-weighted sum of the pair scores of the first n rows. */
  ghost function PairScores(x: RowBlock, v: Matrix, dim: nat, p: seq<real>, n: nat): real
    requires WellFormed(x) && Columns(x, |v|) && IsMatrix(v, dim) && |p| == Size(x) && n <= Size(x)
  {
    if n == 0 then 0.0 else AddWeighted(PairScores(x, v, dim, p, n - 1), p[n - 1], RowPairs(x, v, dim, n - 1))
  }

  function AddWeighted(sum: real, p: real, r: real): real {
    sum + p * r
  }

  /** diag(p) X V, column k. */
  ghost function ScaledColumn(x: RowBlock, v: Matrix, dim: nat, p: seq<real>, k: nat): (r: seq<real>)
    requires WellFormed(x) && Columns(x, |v|) && IsMatrix(v, dim) && |p| == Size(x) && k < dim
    ensures |r| == Size(x)
  {
    seq(Size(x), i requires 0 <= i < Size(x) => RowDot(x, Column(v, dim, k), i) * p[i])
  }

  lemma SquaredWellFormed(x: RowBlock)
    requires WellFormed(x)
    ensures WellFormed(Squared(x)) && Size(Squared(x)) == Size(x)
    ensures forall n :: Columns(x, n) ==> Columns(Squared(x), n)
  {
  }

  /** The gradient as it is computed: X' diag(p) X V - diag((X.*X)' p) V. */
  ghost function Gradient(x: RowBlock, v: Matrix, dim: nat, p: seq<real>, c: nat, k: nat, n: nat): real
    requires WellFormed(x) && Columns(x, |v|) && IsMatrix(v, dim) && |p| == Size(x) && n <= Size(x) && c < |v| && k < dim
  {
    SquaredWellFormed(x);
    Corrected(ColDot(x, ScaledColumn(x, v, dim, p, k), c, n), v[c][k], ColDot(Squared(x), p, c, n))
  }

  function Corrected(g: real, u: real, t: real): real {
    g - u * t
  }

  ghost function RowHits(x: RowBlock, c: nat, i: nat): real
    requires WellFormed(x) && i < Size(x)
  {
    OffsetsInside(x, i + 1);
    Hits(x, c, x.offset[i], x.offset[i + 1])
  }

  /** The coefficient of the squared move; it is zero when no row names column c twice. */
  ghost function Curvature(x: RowBlock, p: seq<real>, c: nat, n: nat): real
    requires WellFormed(x) && |p| == Size(x) && n <= Size(x)
  {
    if n == 0 then 0.0
    else
      SquaredWellFormed(x);
      var h := RowHits(x, c, n - 1);
      Curvature(x, p, c, n - 1) + p[n - 1] * (0.5 * (h * h - RowHits(Squared(x), c, n - 1)))
  }

  lemma RowMoved(x: RowBlock, v: Matrix, dim: nat, c: nat, k: nat, d: real, i: nat)
    requires WellFormed(x) && Columns(x, |v|) && IsMatrix(v, dim) && c < |v| && k < dim && i < Size(x)
    ensures IsMatrix(Moved(v, c, k, d), dim) && WellFormed(Squared(x))
    ensures RowPairs(x, Moved(v, c, k, d), dim, i) == RowPairs(x, v, dim, i)
              + 0.5 * Change(RowDot(x, Column(v, dim, k), i), RowHits(x, c, i), v[c][k], RowHits(Squared(x), c, i), d)
  {
    hide Dot, Hits, Moved, Change, Excess, Pairs, Columns;
    SquaredWellFormed(x);
    OffsetsInside(x, i + 1);
    var lo, hi := x.offset[i], x.offset[i + 1];
    ExcessMoved(x, v, dim, lo, hi, c, k, d, dim);
    ExcessIsPairs(x, v, dim, lo, hi);
    ExcessIsPairs(x, Moved(v, c, k, d), dim, lo, hi);
  }

  lemma GradientStep(p: real, a: real, h: real, u: real, s: real, d: real, g: real, t: real)
    ensures p * (0.5 * Change(a, h, u, s, d)) + d * (g - u * t)
         == d * ((g + a * p * h) - u * (t + p * s)) + d * d * (p * (0.5 * (h * h - s)))
  {
    var ah, us := a * h, u * s;
    assert a * p * h == p * ah;
    assert u * (t + p * s) == u * t + p * us;
    assert p * (0.5 * (2.0 * (d * (ah - us)) + d * d * (h * h - s))) == d * (p * (ah - us)) + d * d * (p * (0.5 * (h * h - s))) by {
      assert 0.5 * (2.0 * (d * (ah - us)) + d * d * (h * h - s)) == d * (ah - us) + d * d * (0.5 * (h * h - s));
      var e := 0.5 * (h * h - s);
      Split(p, d * (ah - us), d * d * e);
      assert p * (d * (ah - us)) == d * (p * (ah - us));
      assert p * (d * d * e) == d * d * (p * e);
    }
    assert p * (ah - us) == p * ah - p * us;
    assert d * ((g + p * ah) - (u * t + p * us)) == d * (g - u * t) + d * (p * ah - p * us);
  }

  /** A quadratic in the move d. */
  function Expansion(value: real, d: real, g: real, c: real): real {
    value + d * g + d * d * c
  }

  lemma {:induction false} PairScoresMoved(x: RowBlock, v: Matrix, dim: nat, p: seq<real>, c: nat, k: nat, d: real, n: nat)
    requires WellFormed(x) && Columns(x, |v|) && IsMatrix(v, dim) && |p| == Size(x) && n <= Size(x) && c < |v| && k < dim
    ensures IsMatrix(Moved(v, c, k, d), dim)
    ensures PairScores(x, Moved(v, c, k, d), dim, p, n)
         == Expansion(PairScores(x, v, dim, p, n), d, Gradient(x, v, dim, p, c, k, n), Curvature(x, p, c, n))
  {
    hide RowPairs, Moved, Columns, RowDot, Change, RowHits, Squared, ColDot, Corrected, Curvature, Expansion, AddWeighted, WellFormed;
    MovedColumn(v, dim, c, k, d, k);
    if n == 0 {
      GradientNone(x, v, dim, p, c, k, d);
    } else {
      PairScoresMoved(x, v, dim, p, c, k, d, n - 1);
      RowMoved(x, v, dim, c, k, d, n - 1);
      CurvatureNext(x, p, c, n);
      SquaredWellFormed(x);
      var y := ScaledColumn(x, v, dim, p, k);
      ColDotNext(x, y, c, n);
      ColDotNext(Squared(x), p, c, n);
      var a, h := RowDot(x, Column(v, dim, k), n - 1), RowHits(x, c, n - 1);
      var s := RowHits(Squared(x), c, n - 1);
      AddRow(p[n - 1], a, h, v[c][k], s, d, y[n - 1], ColDot(x, y, c, n - 1), ColDot(x, y, c, n),
             ColDot(Squared(x), p, c, n - 1), ColDot(Squared(x), p, c, n), RowPairs(x, v, dim, n - 1), RowPairs(x, Moved(v, c, k, d), dim, n - 1),
             PairScores(x, v, dim, p, n - 1), PairScores(x, Moved(v, c, k, d), dim, p, n - 1),
             Curvature(x, p, c, n - 1), Curvature(x, p, c, n));
    }
  }

  lemma AddRow(p: real, a: real, h: real, u: real, s: real, d: real, y: real, g0: real, g1: real, t0: real, t1: real,
               r: real, r': real, before: real, before': real, c0: real, c1: real)
    requires before' == Expansion(before, d, Corrected(g0, u, t0), c0) && r' == r + 0.5 * Change(a, h, u, s, d)
    requires y == a * p && g1 == g0 + y * h && t1 == t0 + p * s
    requires c1 == c0 + p * (0.5 * (h * h - s))
    ensures AddWeighted(before', p, r') == Expansion(AddWeighted(before, p, r), d, Corrected(g1, u, t1), c1)
  {
    GradientStep(p, a, h, u, s, d, g0, t0);
    Split(p, r, 0.5 * Change(a, h, u, s, d));
    Split(d * d, c0, p * (0.5 * (h * h - s)));
    hide Change;
  }

  /**
   * Moving the factor of column c and dimension k by d changes the weighted
   * sum of the scores by d times the gradient plus d squared times a number
   * that does not depend on the factors.
   */
  lemma FactorGradientExact(x: RowBlock, v: Matrix, dim: nat, p: seq<real>, c: nat, k: nat, d: real)
    requires WellFormed(x) && Columns(x, |v|) && IsMatrix(v, dim) && |p| == Size(x) && c < |v| && k < dim
    ensures IsMatrix(Moved(v, c, k, d), dim)
    ensures PairScores(x, Moved(v, c, k, d), dim, p, Size(x))
         == PairScores(x, v, dim, p, Size(x)) + d * Gradient(x, v, dim, p, c, k, Size(x)) + d * d * Curvature(x, p, c, Size(x))
  {
    hide PairScores, Moved, Gradient, Curvature, Columns, WellFormed;
    PairScoresMoved(x, v, dim, p, c, k, d, Size(x));
  }

  lemma GradientNone(x: RowBlock, v: Matrix, dim: nat, p: seq<real>, c: nat, k: nat, d: real)
    requires WellFormed(x) && Columns(x, |v|) && IsMatrix(v, dim) && |p| == Size(x) && c < |v| && k < dim
    ensures Expansion(0.0, d, Gradient(x, v, dim, p, c, k, 0), Curvature(x, p, c, 0)) == 0.0
  {
    Split(v[c][k], 0.0, 0.0);
    Split(d, 0.0, 0.0);
    Split(d * d, 0.0, 0.0);
  }

  lemma ColDotNext(x: RowBlock, p: seq<real>, c: nat, n: nat)
    requires WellFormed(x) && |p| == Size(x) && 0 < n <= Size(x)
    ensures ColDot(x, p, c, n) == ColDot(x, p, c, n - 1) + p[n - 1] * RowHits(x, c, n - 1)
  {
  }

  lemma CurvatureNext(x: RowBlock, p: seq<real>, c: nat, n: nat)
    requires WellFormed(x) && |p| == Size(x) && 0 < n <= Size(x)
    ensures WellFormed(Squared(x))
    ensures var h := RowHits(x, c, n - 1);
            Curvature(x, p, c, n) == Curvature(x, p, c, n - 1) + p[n - 1] * (0.5 * (h * h - RowHits(Squared(x), c, n - 1)))
  {
    SquaredWellFormed(x);
    hide RowHits, Squared;
  }
}
