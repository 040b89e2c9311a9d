/**
 * The loss of the factorisation machine over one minibatch: scores and
 * gradients, computed in place by the sparse products.
 */
module DifactoLoss {
  import opened Arithmetic
  import opened RowBlocks
  import opened SpMV
  import opened SpMM
  import opened FactorMachine
  import opened FactorGradient
  import opened DifactoData

  // ------------------------------------------------------- scores from products

  function RowSurplus(t: seq<real>, tt: seq<real>, n: nat): real
    requires n <= |t| && n <= |tt|
  {
    if n == 0 then 0.0 else RowSurplus(t, tt, n - 1) + Surplus(t[n - 1], tt[n - 1])
  }

  lemma SquaredColumn(v: Matrix, dim: nat, k: nat)
    requires IsMatrix(v, dim) && k < dim
    ensures IsMatrix(SquaredMatrix(v), dim)
    ensures Column(SquaredMatrix(v), dim, k) == SquaredVector(Column(v, dim, k))
  {
    SameVector(Column(SquaredMatrix(v), dim, k), SquaredVector(Column(v, dim, k)));
  }

  lemma SquaredIsMatrix(v: Matrix, dim: nat)
    requires IsMatrix(v, dim)
    ensures IsMatrix(SquaredMatrix(v), dim)
  {
  }

  lemma {:induction false} SurplusIsExcess(x: RowBlock, v: Matrix, dim: nat, lo: nat, hi: nat, n: nat)
    requires hi <= |x.index| && Columns(x, |v|) && IsMatrix(v, dim) && n <= dim
    ensures IsMatrix(SquaredMatrix(v), dim) && Columns(Squared(x), |v|)
    ensures RowSurplus(Mix(x, v, dim, lo, hi), Mix(Squared(x), SquaredMatrix(v), dim, lo, hi), n) == Excess(x, v, dim, lo, hi, n)
  {
    SquaredIsMatrix(v, dim);
    hide Mix, Dot, Squared, SquaredMatrix, Surplus, Column;
    if n > 0 {
      SurplusIsExcess(x, v, dim, lo, hi, n - 1);
      MixAt(x, v, dim, lo, hi, n - 1);
      MixAt(Squared(x), SquaredMatrix(v), dim, lo, hi, n - 1);
      SquaredColumn(v, dim, n - 1);
    }
  }

  /** The pair score of row i of the batch, from the two products. */
  lemma RowScore(data: RowBlock, model: seq<real>, siz: seq<nat>, dim: nat, x: RowBlock, v: Matrix, i: nat)
    requires WellFormed(data) && Columns(data, |siz|) && Sized(model, siz) && Loaded(data, model, siz, dim, x, v)
    requires WellFormed(x) && i < Size(data)
    ensures i < Size(x) && WellFormed(Squared(x)) && Columns(Squared(x), |v|) && IsMatrix(SquaredMatrix(v), dim)
    ensures data.offset[i + 1] <= |data.index|
    ensures RowPairs(x, v, dim, i) == BatchPairs(data, model, siz, dim, data.offset[i], data.offset[i + 1])
    ensures 0.5 * RowSurplus(RowMix(x, v, dim, i), RowMix(Squared(x), SquaredMatrix(v), dim, i), dim)
         == BatchPairs(data, model, siz, dim, data.offset[i], data.offset[i + 1])
  {
    hide Mix, Squared, SquaredMatrix, Excess, Pairs, BatchPairs, Picked, Entries, Rank;
    SquaredWellFormed(x);
    OffsetsInside(x, i + 1);
    OffsetsInside(data, i + 1);
    SurplusIsExcess(x, v, dim, x.offset[i], x.offset[i + 1], dim);
    ExcessIsPairs(x, v, dim, x.offset[i], x.offset[i + 1]);
    PairsPicked(data, model, siz, dim, x, v, data.offset[i], data.offset[i + 1]);
  }

  /** The score of row i: X w plus the pairs of entries in embedded columns. */
  ghost function Score(data: RowBlock, model: seq<real>, siz: seq<nat>, dim: nat, i: nat): real
    requires WellFormed(data) && Columns(data, |siz|) && Sized(model, siz) && i < Size(data)
  {
    OffsetsInside(data, i + 1);
    RowDot(data, WeightsOf(model, siz), i) + BatchPairs(data, model, siz, dim, data.offset[i], data.offset[i + 1])
  }

  lemma {:induction false} NoBatchWith(data: RowBlock, model: seq<real>, siz: seq<nat>, dim: nat, lo: nat, a: nat, b: nat)
    requires a <= |data.index| && b < |data.index| && Columns(data, |siz|) && Sized(model, siz)
    requires dim == 0 || Rank(siz, dim, |siz|) == 0
    ensures BatchWith(data, model, siz, dim, lo, a, b) == 0.0
  {
    if lo < a {
      NoBatchWith(data, model, siz, dim, lo, a - 1, b);
      RankMonotone(siz, dim, data.index[a - 1], |siz|);
    }
  }

  /** Without embeddings there are no pairs. */
  lemma {:induction false} NoBatchPairs(data: RowBlock, model: seq<real>, siz: seq<nat>, dim: nat, lo: nat, hi: nat)
    requires hi <= |data.index| && Columns(data, |siz|) && Sized(model, siz)
    requires dim == 0 || Rank(siz, dim, |siz|) == 0
    ensures BatchPairs(data, model, siz, dim, lo, hi) == 0.0
  {
    hide BatchWith;
    if lo < hi {
      NoBatchPairs(data, model, siz, dim, lo, hi - 1);
      NoBatchWith(data, model, siz, dim, lo, hi - 1, hi - 1);
    }
  }

  lemma EmptyRowScore(data: RowBlock, w: seq<real>, i: nat)
    requires WellFormed(data) && Columns(data, |w|) && i < Size(data) && EmptyRow(data, i)
    ensures RowDot(data, w, i) == 0.0
  {
  }

  // ----------------------------------------------------------------- small loops

  method SumRow(t: seq<real>, tt: seq<real>) returns (s: real)
    requires |t| == |tt|
    ensures s == RowSurplus(t, tt, |t|)
  {
    s := 0.0;
    for j := 0 to |t|
      invariant s == RowSurplus(t, tt, j)
    {
      s := s + (t[j] * t[j] - tt[j]);
    }
  }

  method SquareAll(v: Matrix, dim: nat) returns (vv: Matrix)
    requires IsMatrix(v, dim)
    ensures vv == SquaredMatrix(v)
  {
    vv := [];
    for i := 0 to |v|
      invariant |vv| == i && forall r :: 0 <= r < i ==> vv[r] == SquaredVector(v[r])
    {
      vv := vv + [SquaredVector(v[i])];
    }
  }

  /** p = -y / (1 + exp(y * score)), with the label turned into y = 1 or -1. */
  function Residual(exp: real -> real, lab: real, score: real): real
    requires forall x :: exp(x) > 0.0
  {
    var y := if lab > 0.0 then 1.0 else -1.0;
    -y / (1.0 + exp(y * score))
  }

  /** py becomes the residuals, in place. */
  method Residuals(exp: real -> real, labels: seq<real>, py: array<real>)
    requires |labels| == py.Length && forall x :: exp(x) > 0.0
    modifies py
    ensures forall i :: 0 <= i < py.Length ==> py[i] == Residual(exp, labels[i], old(py[i]))
  {
    for i := 0 to py.Length
      invariant forall r :: 0 <= r < py.Length ==> py[r] == if r < i then Residual(exp, labels[r], old(py[r])) else old(py[r])
    {
      py[i] := Residual(exp, labels[i], py[i]);
    }
  }

  /** Adds half the surplus of every row to its score. */
  method AddPairs(py: array<real>, xv: array<seq<real>>, xxvv: array<seq<real>>, dim: nat)
    requires py.Length == xv.Length == xxvv.Length && IsMatrix(xv[..], dim) && IsMatrix(xxvv[..], dim)
    modifies py
    ensures forall i :: 0 <= i < py.Length ==>
              |xv[i]| == |xxvv[i]| == dim && py[i] == old(py[i]) + 0.5 * RowSurplus(xv[i], xxvv[i], dim)
  {
    hide RowSurplus;
    for i := 0 to py.Length
      invariant forall r :: 0 <= r < py.Length ==>
                  |xv[..][r]| == |xxvv[..][r]| == dim
                  && py[r] == if r < i then old(py[r]) + 0.5 * RowSurplus(xv[r], xxvv[r], dim) else old(py[r])
    {
      assert |xv[..][i]| == dim && |xxvv[..][i]| == dim;
      var s := SumRow(xv[i], xxvv[i]);
      py[i] := py[i] + 0.5 * s;
    }
  }

  function Scale(a: seq<real>, f: real): (r: seq<real>)
    ensures |r| == |a|
  {
    seq(|a|, k requires 0 <= k < |a| => a[k] * f)
  }

  /** Every row times its own factor, in place. */
  method ScaleRows(y: array<seq<real>>, f: seq<real>)
    requires |f| == y.Length
    modifies y
    ensures forall i :: 0 <= i < y.Length ==> y[i] == Scale(old(y[i]), f[i])
  {
    for i := 0 to y.Length
      invariant forall r :: 0 <= r < y.Length ==> y[r] == if r < i then Scale(old(y[r]), f[r]) else old(y[r])
    {
      y[i] := Scale(y[i], f[i]);
    }
  }

  // ------------------------------------------------------------ saving gradients

  /** The gradient of w goes to the first place of every column that has a model. */
  method SaveW(pos: seq<int>, weight: array<real>, grad: array<real>)
    requires |pos| == weight.Length && weight != grad
    requires forall i :: 0 <= i < |pos| ==> -1 <= pos[i] < grad.Length
    requires forall i, j :: 0 <= i < j < |pos| && pos[i] >= 0 && pos[j] >= 0 ==> pos[i] != pos[j]
    modifies grad
    ensures forall i :: 0 <= i < |pos| && pos[i] >= 0 ==> grad[pos[i]] == weight[i]
    ensures forall q: nat :: q < grad.Length && q as int !in pos ==> grad[q] == old(grad[q])
  {
    for i := 0 to |pos|
      invariant forall r :: 0 <= r < i && pos[r] >= 0 ==> grad[pos[r]] == weight[r]
      invariant forall q: nat :: q < grad.Length && q as int !in pos ==> grad[q] == old(grad[q])
    {
      if pos[i] >= 0 {
        grad[pos[i]] := weight[i];
      }
    }
  }

  ghost predicate InSome(pos: seq<nat>, dim: nat, q: nat) {
    exists r :: 0 <= r < |pos| && pos[r] <= q < pos[r] + dim
  }

  /** Rows of length dim at these places do not meet, and end within len. */
  ghost predicate Spaced(pos: seq<nat>, dim: nat, len: nat) {
    && (forall r :: 0 <= r < |pos| ==> pos[r] + dim <= len)
    && (forall r, s :: 0 <= r < s < |pos| ==> pos[r] + dim <= pos[s])
  }

  /** Every row of w stands at its place. */
  ghost predicate Placed(pos: seq<nat>, dim: nat, w: Matrix, grad: seq<real>)
    requires |pos| == |w| && IsMatrix(w, dim) && Spaced(pos, dim, |grad|)
  {
    forall r, k :: 0 <= r < |pos| && 0 <= k < dim ==> grad[pos[r] + k] == w[r][k]
  }

  /** One row of V to its place. */
  method CopyRow(row: seq<real>, at: nat, grad: array<real>)
    requires at + |row| <= grad.Length
    modifies grad
    ensures forall k :: 0 <= k < |row| ==> grad[at + k] == row[k]
    ensures forall q :: 0 <= q < grad.Length && !(at <= q < at + |row|) ==> grad[q] == old(grad[q])
  {
    for k := 0 to |row|
      invariant forall q :: 0 <= q < k ==> grad[at + q] == row[q]
      invariant forall q :: 0 <= q < grad.Length && !(at <= q < at + k) ==> grad[q] == old(grad[q])
    {
      grad[at + k] := row[k];
    }
  }

  /** The gradients of V follow the first place of every embedded column. */
  method SaveV(pos: seq<nat>, dim: nat, weight: array<seq<real>>, grad: array<real>)
    requires |pos| == weight.Length && IsMatrix(weight[..], dim) && Spaced(pos, dim, grad.Length)
    modifies grad
    ensures Placed(pos, dim, weight[..], grad[..])
    ensures forall q: nat :: q < grad.Length && !InSome(pos, dim, q) ==> grad[q] == old(grad[q])
  {
    ghost var w := weight[..];
    for i := 0 to |pos|
      invariant forall r, k :: 0 <= r < i && 0 <= k < dim ==> grad[pos[r] + k] == w[r][k]
      invariant forall q: nat :: q < grad.Length && !InSome(pos, dim, q) ==> grad[q] == old(grad[q])
    {
      assert weight[i] == w[i] && |w[i]| == dim;
      CopyRow(weight[i], pos[i], grad);
      assert forall q :: pos[i] <= q < pos[i] + dim ==> InSome(pos, dim, q);
    }
  }

  // --------------------------------------------------------- the gradient of V

  function AsColumn(p: seq<real>): (m: Matrix)
    ensures IsMatrix(m, 1) && |m| == |p|
  {
    seq(|p|, i requires 0 <= i < |p| => [p[i]])
  }

  lemma AsColumnIs(p: seq<real>)
    ensures Column(AsColumn(p), 1, 0) == p
  {
    SameVector(Column(AsColumn(p), 1, 0), p);
  }

  /** (X.*X)' p */
  method SquaredTransTimes(xx: RowBlock, p: seq<real>, m: nat, nt: nat) returns (xxp: seq<real>)
    requires WellFormed(xx) && |p| == Size(xx) > 0 && nt > 0
    ensures |xxp| == m && forall e :: 0 <= e < m ==> xxp[e] == ColDot(xx, p, e, Size(xx))
  {
    var y := new seq<real>[m](_ => []);
    AsColumnIs(p);
    var col := AsColumn(p);
    hide AsColumn, ColDot, WellFormed;
    Quotient(Size(xx), 1);
    var ok := SpMM.TransTimes(xx, col, |p|, 0.0, [], y, nt);
    xxp := [];
    for e := 0 to m
      invariant |xxp| == e && forall r :: 0 <= r < e ==> xxp[r] == ColDot(xx, p, r, Size(xx))
    {
      assert y[e] == SpMM.Total(xx, col, 1, SpMM.Start([], 0.0, 1, m, e), e, Size(xx));
      assert y[e][0] == SpMM.Start([], 0.0, 1, m, e)[0] + ColDot(xx, p, e, Size(xx));
      xxp := xxp + [y[e][0]];
    }
  }

  ghost predicate Products(x: RowBlock, v: Matrix, dim: nat, xv: Matrix)
    requires WellFormed(x) && Columns(x, |v|) && IsMatrix(v, dim)
  {
    |xv| == Size(x) && forall i :: 0 <= i < |xv| ==> xv[i] == RowMix(x, v, dim, i)
  }

  /** diag(p) X V by rows is the scaled column by columns. */
  lemma ScaledIs(x: RowBlock, v: Matrix, dim: nat, xv: Matrix, p: seq<real>, y: Matrix, k: nat)
    requires WellFormed(x) && Columns(x, |v|) && IsMatrix(v, dim) && |p| == Size(x) && k < dim
    requires Products(x, v, dim, xv) && |y| == |xv| && forall i :: 0 <= i < |y| ==> y[i] == Scale(xv[i], p[i])
    ensures IsMatrix(y, dim) && Column(y, dim, k) == ScaledColumn(x, v, dim, p, k)
  {
    hide Mix, Dot;
    forall i | 0 <= i < |y|
      ensures |y[i]| == dim && y[i][k] == RowDot(x, Column(v, dim, k), i) * p[i]
    {
      OffsetsInside(x, i + 1);
      MixAt(x, v, dim, x.offset[i], x.offset[i + 1], k);
      assert xv[i] == RowMix(x, v, dim, i);
    }
    SameVector(Column(y, dim, k), ScaledColumn(x, v, dim, p, k));
  }

  lemma Negated(u: real, t: real, g: real)
    ensures u * -t * 1.0 + g == Corrected(g, u, t)
  {
  }

  lemma GradientAssembled(x: RowBlock, v: Matrix, dim: nat, xv: Matrix, p: seq<real>, y: Matrix, z: Matrix, t: seq<real>,
                          e: nat, k: nat)
    requires WellFormed(x) && Columns(x, |v|) && IsMatrix(v, dim) && |p| == Size(x) && k < dim && e < |v|
    requires Products(x, v, dim, xv) && |y| == |xv| && forall i :: 0 <= i < |y| ==> y[i] == Scale(xv[i], p[i])
    requires WellFormed(Squared(x)) && Size(Squared(x)) == Size(x)
    requires |t| == |v| == |z| && t[e] == ColDot(Squared(x), p, e, Size(x)) && IsMatrix(z, dim) && z[e] == Scale(v[e], -t[e])
    requires IsMatrix(y, dim)
    ensures SpMM.Total(x, y, dim, SpMM.Start(z, 1.0, dim, |v|, e), e, Size(x))[k] == Gradient(x, v, dim, p, e, k, Size(x))
  {
    hide ColDot, Squared, Products, Corrected, Column, ScaledColumn, WellFormed, Columns, IsMatrix;
    ScaledIs(x, v, dim, xv, p, y, k);
    StartAt(v, dim, z, t[e], e, k);
    TotalAt(x, y, dim, SpMM.Start(z, 1.0, dim, |v|, e), e, k);
    hide SpMM.Total, SpMM.Start;
    var g := ColDot(x, ScaledColumn(x, v, dim, p, k), e, Size(x));
    Negated(v[e][k], t[e], g);
    assert Gradient(x, v, dim, p, e, k, Size(x)) == Corrected(g, v[e][k], t[e]);
  }

  lemma TotalAt(x: RowBlock, y: Matrix, dim: nat, s: seq<real>, e: nat, k: nat)
    requires WellFormed(x) && |y| == Size(x) && IsMatrix(y, dim) && |s| == dim && k < dim
    ensures SpMM.Total(x, y, dim, s, e, Size(x))[k] == s[k] + ColDot(x, Column(y, dim, k), e, Size(x))
  {
    hide ColDot, Column;
  }

  lemma StartAt(v: Matrix, dim: nat, z: Matrix, t: real, e: nat, k: nat)
    requires IsMatrix(v, dim) && IsMatrix(z, dim) && |z| == |v| && e < |v| && k < dim && z[e] == Scale(v[e], -t)
    ensures |v[e]| == dim && SpMM.Start(z, 1.0, dim, |v|, e)[k] == v[e][k] * -t * 1.0
  {
  }

  /** V becomes its own gradient, and XV is scaled by p on the way. */
  method FactorGradients(x: RowBlock, dim: nat, p: seq<real>, weight: array<seq<real>>, xv: array<seq<real>>, nt: nat)
    requires WellFormed(x) && Columns(x, weight.Length) && IsMatrix(weight[..], dim) && |p| == Size(x) > 0 && nt > 0 && dim > 0
    requires Products(x, weight[..], dim, xv[..]) && weight != xv
    modifies weight, xv
    ensures IsMatrix(weight[..], dim)
    ensures forall e: nat, k: nat :: e < weight.Length && k < dim ==>
              weight[..][e][k] == Gradient(x, old(weight[..]), dim, p, e, k, Size(x))
  {
    ghost var v, rows := weight[..], xv[..];
    SquaredWellFormed(x);
    hide Squared, Columns, WellFormed, Products, ColDot, Gradient;
    var t := SquaredTransTimes(Squared(x), p, weight.Length, nt);
    ScaleRows(weight, seq(|t|, e requires 0 <= e < |t| => -t[e]));
    ScaleRows(xv, p);
    var y, z := xv[..], weight[..];
    ProductsShape(x, v, dim, rows, p, y);
    assert IsMatrix(z, dim);
    hide Scale;
    Quotient(Size(x), dim);
    Arithmetic.Times(1, dim, Size(x));
    var ok := SpMM.TransTimes(x, y, Size(x) * dim, 1.0, z, weight, nt);
    forall e: nat, k: nat | e < weight.Length && k < dim
      ensures weight[..][e][k] == Gradient(x, v, dim, p, e, k, Size(x))
    {
      GradientAssembled(x, v, dim, rows, p, y, z, t, e, k);
    }
  }

  lemma ProductsShape(x: RowBlock, v: Matrix, dim: nat, xv: Matrix, p: seq<real>, y: Matrix)
    requires WellFormed(x) && Columns(x, |v|) && IsMatrix(v, dim) && |p| == Size(x) && Products(x, v, dim, xv)
    requires |y| == |xv| && forall i :: 0 <= i < |y| ==> y[i] == Scale(xv[i], p[i])
    ensures IsMatrix(y, dim) && |y| == Size(x)
  {
  }
}
