/**
 * The mathematics of the factorisation machine: the score is computed from two
 * sparse products, and equals a sum over pairs of entries; the gradient is
 * computed from three more, and is the exact linear coefficient of the score.
 */
module FactorMachine {
  import opened Options
  import opened RowBlocks
  import opened SpMM

  /** X .* X */
  function Squared(x: RowBlock): (xx: RowBlock)
    ensures xx.offset == x.offset && xx.index == x.index
  {
    if x.value.None? then x
    else x.(value := Some(seq(|x.value.value|, j requires 0 <= j < |x.value.value| => x.value.value[j] * x.value.value[j])))
  }

  function SquaredVector(v: seq<real>): (r: seq<real>)
    ensures |r| == |v|
  {
    seq(|v|, k requires 0 <= k < |v| => v[k] * v[k])
  }

  /** V .* V */
  function SquaredMatrix(v: Matrix): (r: Matrix)
    ensures |r| == |v|
  {
    seq(|v|, i requires 0 <= i < |v| => SquaredVector(v[i]))
  }

  lemma SquaredValue(x: RowBlock, j: nat)
    ensures ValueAt(Squared(x), j) == ValueAt(x, j) * ValueAt(x, j)
  {
  }

  // ------------------------------------------------------------------ the score

  /** Sum over the first n columns of (X V)^2 - (X.*X)(V.*V), for the entries from lo up to hi. */
  ghost function Excess(x: RowBlock, v: Matrix, dim: nat, lo: nat, hi: nat, n: nat): real
    requires hi <= |x.index| && Columns(x, |v|) && IsMatrix(v, dim) && n <= dim
  {
    if n == 0 then 0.0
    else
      var a := Dot(x, Column(v, dim, n - 1), lo, hi);
      Excess(x, v, dim, lo, hi, n - 1) + Surplus(a, SquareDot(x, v, dim, lo, hi, n - 1))
  }

  function Surplus(a: real, q: real): real {
    a * a - q
  }

  /** The entries squared times column k of V squared. */
  ghost function SquareDot(x: RowBlock, v: Matrix, dim: nat, lo: nat, hi: nat, k: nat): real
    requires hi <= |x.index| && Columns(x, |v|) && IsMatrix(v, dim) && k < dim
  {
    Dot(Squared(x), SquaredVector(Column(v, dim, k)), lo, hi)
  }

  function Inner(a: seq<real>, b: seq<real>, n: nat): real
    requires n <= |a| && n <= |b|
  {
    if n == 0 then 0.0 else Inner(a, b, n - 1) + a[n - 1] * b[n - 1]
  }

  /** One pair of entries: x_a * x_b * <v_a, v_b>. */
  function PairTerm(x: RowBlock, v: Matrix, dim: nat, a: nat, b: nat): real
    requires a < |x.index| && b < |x.index| && Columns(x, |v|) && IsMatrix(v, dim)
  {
    ValueAt(x, a) * ValueAt(x, b) * Inner(v[x.index[a]], v[x.index[b]], dim)
  }

  /** Entry b with the entries from lo up to a. */
  ghost function PairsWith(x: RowBlock, v: Matrix, dim: nat, lo: nat, a: nat, b: nat): real
    requires a <= |x.index| && b < |x.index| && Columns(x, |v|) && IsMatrix(v, dim)
  {
    if lo >= a then 0.0 else PairsWith(x, v, dim, lo, a - 1, b) + PairTerm(x, v, dim, a - 1, b)
  }

  /** All pairs a < b of the entries from lo up to hi. */
  ghost function Pairs(x: RowBlock, v: Matrix, dim: nat, lo: nat, hi: nat): real
    requires hi <= |x.index| && Columns(x, |v|) && IsMatrix(v, dim)
  {
    if lo >= hi then 0.0 else Pairs(x, v, dim, lo, hi - 1) + PairsWith(x, v, dim, lo, hi - 1, hi - 1)
  }

  /** Entry b times column k. */
  ghost function Weighted(x: RowBlock, v: Matrix, dim: nat, b: nat, k: nat): real
    requires b < |x.index| && Columns(x, |v|) && IsMatrix(v, dim) && k < dim
  {
    v[x.index[b]][k] * ValueAt(x, b)
  }

  /** The first n columns of (X V) for the entries from lo up to a, times entry b. */
  ghost function Crossed(x: RowBlock, v: Matrix, dim: nat, lo: nat, a: nat, b: nat, n: nat): real
    requires a <= |x.index| && b < |x.index| && Columns(x, |v|) && IsMatrix(v, dim) && n <= dim
  {
    if n == 0 then 0.0
    else Crossed(x, v, dim, lo, a, b, n - 1) + Dot(x, Column(v, dim, n - 1), lo, a) * Weighted(x, v, dim, b, n - 1)
  }

  lemma {:induction false} CrossedNone(x: RowBlock, v: Matrix, dim: nat, lo: nat, a: nat, b: nat, n: nat)
    requires a <= |x.index| && b < |x.index| && Columns(x, |v|) && IsMatrix(v, dim) && n <= dim && lo >= a
    ensures Crossed(x, v, dim, lo, a, b, n) == 0.0
  {
    if n > 0 {
      CrossedNone(x, v, dim, lo, a, b, n - 1);
    }
  }

  lemma Step1(i: real, p: real, q: real, xa: real, xb: real)
    ensures xa * xb * (i + p * q) == xa * xb * i + (p * xa) * (q * xb)
  {
    assert xa * xb * (p * q) == (p * xa) * (q * xb);
    assert xa * xb * (i + p * q) == xa * xb * i + xa * xb * (p * q);
  }

  lemma Step2(d: real, t: real, w: real)
    ensures (d + t) * w == d * w + t * w
  {
  }

  /** One more entry on the left adds its pair, column by column. */
  lemma {:induction false} CrossedStep(x: RowBlock, v: Matrix, dim: nat, lo: nat, a: nat, b: nat, n: nat)
    requires lo <= a < |x.index| && b < |x.index| && Columns(x, |v|) && IsMatrix(v, dim) && n <= dim
    ensures Crossed(x, v, dim, lo, a + 1, b, n)
         == Crossed(x, v, dim, lo, a, b, n) + ValueAt(x, a) * ValueAt(x, b) * Inner(v[x.index[a]], v[x.index[b]], n)
  {
    hide Dot, Weighted, Column, ValueAt;
    if n > 0 {
      CrossedStep(x, v, dim, lo, a, b, n - 1);
      PairColumn(x, v, dim, a, b, n);
      DotStep(x, v, dim, lo, a, n - 1);
      Step2(Dot(x, Column(v, dim, n - 1), lo, a), Weighted(x, v, dim, a, n - 1), Weighted(x, v, dim, b, n - 1));
    }
  }

  lemma PairColumn(x: RowBlock, v: Matrix, dim: nat, a: nat, b: nat, n: nat)
    requires a < |x.index| && b < |x.index| && Columns(x, |v|) && IsMatrix(v, dim) && 0 < n <= dim
    ensures ValueAt(x, a) * ValueAt(x, b) * Inner(v[x.index[a]], v[x.index[b]], n)
         == ValueAt(x, a) * ValueAt(x, b) * Inner(v[x.index[a]], v[x.index[b]], n - 1)
            + Weighted(x, v, dim, a, n - 1) * Weighted(x, v, dim, b, n - 1)
  {
    var va, vb := v[x.index[a]], v[x.index[b]];
    Step1(Inner(va, vb, n - 1), va[n - 1], vb[n - 1], ValueAt(x, a), ValueAt(x, b));
    hide ValueAt;
  }

  lemma DotStep(x: RowBlock, v: Matrix, dim: nat, lo: nat, a: nat, k: nat)
    requires lo <= a < |x.index| && Columns(x, |v|) && IsMatrix(v, dim) && k < dim
    ensures Dot(x, Column(v, dim, k), lo, a + 1) == Dot(x, Column(v, dim, k), lo, a) + Weighted(x, v, dim, a, k)
  {
  }

  lemma {:induction false} CrossedIsPairs(x: RowBlock, v: Matrix, dim: nat, lo: nat, a: nat, b: nat)
    requires lo <= a <= |x.index| && b < |x.index| && Columns(x, |v|) && IsMatrix(v, dim)
    ensures Crossed(x, v, dim, lo, a, b, dim) == PairsWith(x, v, dim, lo, a, b)
  {
    if a == lo {
      CrossedNone(x, v, dim, lo, a, b, dim);
    } else {
      hide Crossed, Inner, ValueAt, IsMatrix;
      CrossedIsPairs(x, v, dim, lo, a - 1, b);
      CrossedStep(x, v, dim, lo, a - 1, b, dim);
    }
  }

  lemma SquareOfSum(d: real, t: real, q: real)
    ensures Surplus(d + t, q + t * t) == Surplus(d, q) + 2.0 * (d * t)
  {
    assert (d + t) * (d + t) == d * d + 2.0 * (d * t) + t * t;
  }

  lemma SquareOfProduct(a: real, b: real)
    ensures (a * a) * (b * b) == (a * b) * (a * b)
  {
  }

  /** One more entry adds twice its products with the entries before it. */
  lemma {:induction false} ExcessStep(x: RowBlock, v: Matrix, dim: nat, lo: nat, hi: nat, n: nat)
    requires lo <= hi < |x.index| && Columns(x, |v|) && IsMatrix(v, dim) && n <= dim
    ensures Excess(x, v, dim, lo, hi + 1, n) == Excess(x, v, dim, lo, hi, n) + 2.0 * Crossed(x, v, dim, lo, hi, hi, n)
  {
    hide Dot, SquareDot, Weighted, Columns, IsMatrix, Column, Surplus;
    if n > 0 {
      ExcessStep(x, v, dim, lo, hi, n - 1);
      DotStep(x, v, dim, lo, hi, n - 1);
      SquareDotStep(x, v, dim, lo, hi, n - 1);
      var d, q, t := Dot(x, Column(v, dim, n - 1), lo, hi), SquareDot(x, v, dim, lo, hi, n - 1), Weighted(x, v, dim, hi, n - 1);
      SquareOfSum(d, t, q);
    }
  }

  lemma SquareDotStep(x: RowBlock, v: Matrix, dim: nat, lo: nat, hi: nat, k: nat)
    requires lo <= hi < |x.index| && Columns(x, |v|) && IsMatrix(v, dim) && k < dim
    ensures SquareDot(x, v, dim, lo, hi + 1, k)
         == SquareDot(x, v, dim, lo, hi, k) + Weighted(x, v, dim, hi, k) * Weighted(x, v, dim, hi, k)
  {
    SquaredValue(x, hi);
    SquareOfProduct(v[x.index[hi]][k], ValueAt(x, hi));
    hide Squared, ValueAt;
  }

  /** Half the excess is the sum over all pairs of entries. */
  lemma {:induction false} ExcessIsPairs(x: RowBlock, v: Matrix, dim: nat, lo: nat, hi: nat)
    requires lo <= hi <= |x.index| && Columns(x, |v|) && IsMatrix(v, dim)
    ensures 0.5 * Excess(x, v, dim, lo, hi, dim) == Pairs(x, v, dim, lo, hi)
  {
    if lo == hi {
      ExcessNone(x, v, dim, lo, dim);
    } else {
      ExcessIsPairs(x, v, dim, lo, hi - 1);
      ExcessStep(x, v, dim, lo, hi - 1, dim);
      CrossedIsPairs(x, v, dim, lo, hi - 1, hi - 1);
    }
  }

  lemma {:induction false} ExcessNone(x: RowBlock, v: Matrix, dim: nat, lo: nat, n: nat)
    requires lo <= |x.index| && Columns(x, |v|) && IsMatrix(v, dim) && n <= dim
    ensures Excess(x, v, dim, lo, lo, n) == 0.0
  {
    if n > 0 {
      ExcessNone(x, v, dim, lo, n - 1);
    }
  }
}
