/** The loss object over one minibatch: load, evaluate, compute the gradient. */
module DifactoRun {
  import opened Arithmetic
  import opened Options
  import opened RowBlocks
  import opened SpMV
  import opened SpMM
  import opened FactorMachine
  import opened FactorGradient
  import opened DifactoData
  import opened DifactoLoss

  /** A minibatch and its model fit together. */
  predicate Fitting(data: RowBlock, model: seq<real>, siz: seq<nat>) {
    WellFormed(data) && |siz| <= TwoTo64 && Columns(data, |siz|) && Sized(model, siz)
  }

  /** The loaded embeddings; without any, no pair counts. */
  ghost predicate Embedded(data: RowBlock, model: seq<real>, siz: seq<nat>, dim: nat, pos: seq<nat>, x: RowBlock, v: Matrix)
    requires Fitting(data, model, siz)
  {
    && |pos| == |v| && IsMatrix(v, dim)
    && (v == [] ==> dim == 0 || Rank(siz, dim, |siz|) == 0)
    && (v != [] ==>
          && dim > 0 && Embeddings(model, siz, dim, pos, v, |siz|) && Loaded(data, model, siz, dim, x, v)
          && WellFormed(x) && Columns(x, |v|) && Size(x) == Size(data))
  }

  lemma EmbeddedNow(data: RowBlock, model: seq<real>, siz: seq<nat>, dim: nat, pos: seq<nat>, x: RowBlock, v: Matrix)
    requires Fitting(data, model, siz) && dim > 0 && v != []
    requires Embeddings(model, siz, dim, pos, v, |siz|) && PickedBlock(data, siz, dim, x)
    ensures Embedded(data, model, siz, dim, pos, x, v)
  {
    PickedWellFormed(data, siz, dim, x);
    hide Entries, FactorsOf;
  }

  lemma EmbeddedNone(data: RowBlock, model: seq<real>, siz: seq<nat>, dim: nat, pos: seq<nat>, x: RowBlock)
    requires Fitting(data, model, siz) && (dim == 0 ==> pos == [])
    requires dim > 0 ==> Embeddings(model, siz, dim, pos, [], |siz|)
    ensures Embedded(data, model, siz, dim, pos, x, [])
  {
  }

  ghost predicate Scored(data: RowBlock, model: seq<real>, siz: seq<nat>, dim: nat, py: seq<real>)
    requires Fitting(data, model, siz)
  {
    |py| == Size(data) && forall i :: 0 <= i < |py| ==> py[i] == Score(data, model, siz, dim, i)
  }

  /** After the first product: an empty row holds what it held before, and that is zero. */
  lemma LinearPart(data: RowBlock, model: seq<real>, siz: seq<nat>, dim: nat, before: seq<real>, py: seq<real>)
    requires Fitting(data, model, siz) && |before| == |py| == Size(data)
    requires (forall i :: 0 <= i < |before| ==> before[i] == 0.0) || Scored(data, model, siz, dim, before)
    requires forall i: nat :: i < |py| ==> py[i] == Written(data, WeightsOf(model, siz), i, before[i])
    ensures forall i: nat :: i < |py| ==> py[i] == RowDot(data, WeightsOf(model, siz), i)
  {
    hide WeightsOf;
    forall i: nat | i < |py|
      ensures py[i] == RowDot(data, WeightsOf(model, siz), i)
    {
      if EmptyRow(data, i) {
        EmptyRowScore(data, WeightsOf(model, siz), i);
      }
    }
  }

  lemma ScoredWithout(data: RowBlock, model: seq<real>, siz: seq<nat>, dim: nat, pos: seq<nat>, x: RowBlock, py: seq<real>)
    requires Fitting(data, model, siz) && Embedded(data, model, siz, dim, pos, x, []) && |py| == Size(data)
    requires forall i: nat :: i < |py| ==> py[i] == RowDot(data, WeightsOf(model, siz), i)
    ensures Scored(data, model, siz, dim, py)
  {
    hide WeightsOf, RowDot;
    forall i | 0 <= i < |py|
      ensures py[i] == Score(data, model, siz, dim, i)
    {
      OffsetsInside(data, i + 1);
      NoBatchPairs(data, model, siz, dim, data.offset[i], data.offset[i + 1]);
    }
  }

  lemma ScoredWith(data: RowBlock, model: seq<real>, siz: seq<nat>, dim: nat, pos: seq<nat>, x: RowBlock, v: Matrix,
                   linear: seq<real>, xv: Matrix, xxvv: Matrix, py: seq<real>)
    requires Fitting(data, model, siz) && v != [] && Embedded(data, model, siz, dim, pos, x, v)
    requires WellFormed(Squared(x)) && Size(Squared(x)) == Size(x) && Columns(Squared(x), |v|) && IsMatrix(SquaredMatrix(v), dim)
    requires |py| == |linear| == |xv| == |xxvv| == Size(data)
    requires forall i: nat :: i < |py| ==> linear[i] == RowDot(data, WeightsOf(model, siz), i)
    requires forall i: nat :: i < |py| ==> xv[i] == RowMix(x, v, dim, i)
    requires forall i: nat :: i < |py| ==> xxvv[i] == RowMix(Squared(x), SquaredMatrix(v), dim, i)
    requires forall i: nat :: i < |py| ==> |xv[i]| == |xxvv[i]| == dim && py[i] == linear[i] + 0.5 * RowSurplus(xv[i], xxvv[i], dim)
    ensures Scored(data, model, siz, dim, py)
  {
    hide WeightsOf, RowDot, RowMix, Squared, SquaredMatrix, RowSurplus, BatchPairs;
    forall i | 0 <= i < |py|
      ensures py[i] == Score(data, model, siz, dim, i)
    {
      RowScore(data, model, siz, dim, x, v, i);
    }
  }

  lemma FittingParts(data: RowBlock, model: seq<real>, siz: seq<nat>)
    requires Fitting(data, model, siz)
    ensures WellFormed(data) && |siz| <= TwoTo64 && Columns(data, |siz|) && Sized(model, siz)
  {
  }

  lemma EmbeddedParts(data: RowBlock, model: seq<real>, siz: seq<nat>, dim: nat, pos: seq<nat>, x: RowBlock, v: Matrix)
    requires Fitting(data, model, siz) && Embedded(data, model, siz, dim, pos, x, v)
    ensures IsMatrix(v, dim) && |pos| == |v|
    ensures v != [] ==> WellFormed(x) && Columns(x, |v|) && Size(x) == Size(data)
    ensures v != [] ==> WellFormed(Squared(x)) && Columns(Squared(x), |v|) && Size(Squared(x)) == Size(data)
    ensures IsMatrix(SquaredMatrix(v), dim)
  {
    SquaredIsMatrix(v, dim);
    if v != [] {
      SquaredWellFormed(x);
    }
  }

  datatype Evaluation = Evaluated | NoColumns | DividedByZero

  lemma SomeEmbedded(data: RowBlock, model: seq<real>, siz: seq<nat>, dim: nat, pos: seq<nat>, x: RowBlock, v: Matrix)
    requires Fitting(data, model, siz) && Embedded(data, model, siz, dim, pos, x, v)
    ensures v != [] <==> dim > 0 && Rank(siz, dim, |siz|) > 0
    ensures v != [] ==> siz != []
  {
  }

  class Loss {
    const nt: nat
    const data: RowBlock
    const dim: nat
    const wPos: seq<int>
    const wWeight: array<real>
    const vX: RowBlock
    const vPos: seq<nat>
    const vWeight: array<seq<real>>
    var py: array<real>
    var xv: array<seq<real>>
    ghost const model: seq<real>
    ghost const siz: seq<nat>
    ghost const v: Matrix
    ghost var evaluated: bool
    ghost var graded: bool

    ghost predicate Static()
      reads this
    {
      && nt > 0 && Fitting(data, model, siz)
      && |wPos| == |siz| && (forall i :: 0 <= i < |siz| ==> wPos[i] == if siz[i] == 0 then -1 else Begin(siz, i))
      && Embedded(data, model, siz, dim, vPos, vX, v)
      && wWeight.Length == |siz| && vWeight.Length == |v|
      && wWeight != py && vWeight != xv
    }

    /** Until the gradient is computed the weights are those of the model; afterwards they are overwritten. */
    ghost predicate Valid()
      reads this, wWeight, vWeight, py, xv
    {
      && Static()
      && (!graded ==> wWeight[..] == WeightsOf(model, siz) && vWeight[..] == v)
      && (!evaluated ==> !graded && py.Length == 0)
      && (evaluated && v != [] ==> Size(data) > 0)
      && (evaluated && !graded ==> Scored(data, model, siz, dim, py[..]) && (v != [] ==> Products(vX, v, dim, xv[..])))
    }

    constructor (data: RowBlock, model: seq<real>, siz: seq<nat>, dim: nat, nt: nat)
      requires Fitting(data, model, siz) && nt > 0
      ensures Valid() && !evaluated && fresh(wWeight) && fresh(vWeight) && fresh(py) && fresh(xv)
      ensures this.data == data && this.model == model && this.siz == siz && this.dim == dim
    {
      hide Fitting, Embedded, Embeddings, PickedBlock, WeightsOf, Begin, Rank;
      FittingParts(data, model, siz);
      var pos, weight := LoadW(model, siz);
      var x, vpos, rows := RowBlock([0], [], None, None), [], [];
      if dim > 0 {
        var colMap;
        vpos, rows, colMap := LoadColumns(model, siz, dim);
        if rows != [] {
          x := PickColumns(data, siz, dim, colMap);
          EmbeddedNow(data, model, siz, dim, vpos, x, rows);
        }
      }
      if rows == [] {
        EmbeddedNone(data, model, siz, dim, vpos, x);
      }
      var w := new real[|weight|](i requires 0 <= i < |weight| => weight[i]);
      var vw := new seq<real>[|rows|](i requires 0 <= i < |rows| => rows[i]);
      var p := new real[0];
      var q := new seq<real>[0];
      this.nt, this.data, this.dim := nt, data, dim;
      this.model, this.siz, this.v := model, siz, rows;
      wPos, wWeight, vX, vPos, vWeight := pos, w, x, vpos, vw;
      py, xv := p, q;
      evaluated, graded := false, false;
    }

    /**
     * The scores of all rows; computing them again gives the same. Without columns
     * the number of rows is never set; without rows, but with embedded columns, it
     * is divided by.
     */
    method Evaluate() returns (o: Evaluation)
      requires Valid() && !graded
      modifies this`py, this`xv, this`evaluated, py, xv
      ensures Valid() && !graded
      ensures o.NoColumns? <==> siz == []
      ensures o.DividedByZero? <==> Size(data) == 0 && dim > 0 && Rank(siz, dim, |siz|) > 0
      ensures o.Evaluated? ==> evaluated && Scored(data, model, siz, dim, py[..])
      ensures !o.Evaluated? ==> evaluated == old(evaluated)
      ensures py == old(py) || fresh(py)
      ensures xv == old(xv) || fresh(xv)
    {
      hide Fitting, Embedded, WeightsOf, Scored, RowDot, RowMix, Squared, SquaredMatrix, WellFormed, Columns, Begin;
      FittingParts(data, model, siz);
      EmbeddedParts(data, model, siz, dim, vPos, vX, v);
      SomeEmbedded(data, model, siz, dim, vPos, vX, v);
      if wWeight.Length == 0 {
        return NoColumns;
      }
      if evaluated {
        ScoredLength(data, model, siz, dim, py[..]);
      }
      if py.Length != Size(data) {
        py := new real[Size(data)](_ => 0.0);
      }
      ghost var before := py[..];
      SpMV.Times(data, wWeight[..], py, nt);
      LinearPart(data, model, siz, dim, before, py[..]);
      if vWeight.Length > 0 {
        var ok := AddAllPairs();
        if !ok {
          return DividedByZero;
        }
      } else {
        ScoredWithout(data, model, siz, dim, vPos, vX, py[..]);
      }
      evaluated := true;
      o := Evaluated;
    }

    /** The second half of Evaluate: two products with V and its square. */
    method AddAllPairs() returns (ok: bool)
      requires Static() && vWeight[..] == v && v != [] && py.Length == Size(data)
      requires forall i: nat :: i < py.Length ==> py[i] == RowDot(data, WeightsOf(model, siz), i)
      modifies this`xv, py, xv
      ensures Static() && vWeight[..] == v && WellFormed(vX) && Columns(vX, |v|) && IsMatrix(v, dim)
      ensures ok <==> Size(data) > 0
      ensures ok ==> Products(vX, v, dim, xv[..]) && Scored(data, model, siz, dim, py[..])
      ensures !ok ==> xv == old(xv) && py[..] == old(py[..]) && xv[..] == old(xv[..])
      ensures xv == old(xv) || fresh(xv)
    {
      hide Fitting, Embedded, WeightsOf, Scored, RowDot, RowMix, Squared, SquaredMatrix, RowSurplus, WellFormed, Columns, Begin;
      FittingParts(data, model, siz);
      EmbeddedParts(data, model, siz, dim, vPos, vX, v);
      ghost var linear := py[..];
      var vv := SquareAll(vWeight[..], dim);
      var xxvv := new seq<real>[Size(data)](_ => []);
      var size := Size(vX) * dim;
      if Size(vX) > 0 {
        Quotient(Size(vX), dim);
      }
      ok := SpMM.Times(Squared(vX), vv, size, xxvv, nt);
      if !ok {
        return;
      }
      if xv.Length != Size(data) {
        xv := new seq<real>[Size(data)](_ => []);
      }
      ok := SpMM.Times(vX, vWeight[..], size, xv, nt);
      RowsAreMatrix(vX, v, dim, xv[..]);
      RowsAreMatrix(Squared(vX), vv, dim, xxvv[..]);
      AddPairs(py, xv, xxvv, dim);
      ScoredWith(data, model, siz, dim, vPos, vX, v, linear, xv[..], xxvv[..], py[..]);
    }

    /**
     * The gradients of w and V, each at its place, for the residuals p of the
     * scores; py is reused for p, and the weights are overwritten.
     */
    method CalcGrad(exp: real -> real, grad: array<real>) returns (ghost p: seq<real>)
      requires Valid() && evaluated && !graded && data.labels.Some? && forall x :: exp(x) > 0.0
      requires grad.Length == |model| && grad != py && grad != wWeight
      modifies this`graded, py, xv, wWeight, vWeight, grad
      ensures Valid() && graded && py[..] == p
      ensures Fitting(data, model, siz) && ResidualsOf(data, model, siz, dim, exp, p)
      ensures WeightGradients(data, siz, p, grad[..])
      ensures v != [] ==> FactorGradientsAt(vX, siz, dim, v, p, grad[..])
      ensures forall q: nat :: q < grad.Length && q as int !in wPos && (v == [] || !InSome(vPos, dim, q)) ==>
                grad[q] == old(grad[q])
    {
      hide Fitting, Embedded, WeightsOf, Scored, RowDot, Squared, WellFormed, Columns, Begin, Products, ColDot,
        Gradient, Residual, Spaced, InSome, Rank, Score, Placed;
      FittingParts(data, model, siz);
      EmbeddedParts(data, model, siz, dim, vPos, vX, v);
      SomeEmbedded(data, model, siz, dim, vPos, vX, v);
      ScoredLength(data, model, siz, dim, py[..]);
      LabelsLength(data);
      ghost var scores := py[..];
      Residuals(exp, data.labels.value, py);
      p := py[..];
      ResidualsAre(data, model, siz, dim, exp, scores, p);
      SpMV.TransTimes(data, py[..], wWeight, nt);
      PlacesW(model, siz, wPos);
      SaveW(wPos, wWeight, grad);
      WeightsSaved(data, model, siz, p, wPos, wWeight[..], grad[..]);
      graded := true;
      if vWeight.Length > 0 {
        ghost var saved := grad[..];
        FactorGradients(vX, dim, py[..], vWeight, xv, nt);
        PlacesV(data, model, siz, dim, vPos, vX, v);
        SaveV(vPos, dim, vWeight, grad);
        WeightsKept(data, model, siz, dim, vPos, vX, v, p, saved, grad[..]);
        FactorsSaved(data, model, siz, dim, vPos, vX, v, p, vWeight[..], grad[..]);
      }
    }
  }

  lemma ScoredLength(data: RowBlock, model: seq<real>, siz: seq<nat>, dim: nat, py: seq<real>)
    requires Fitting(data, model, siz) && Scored(data, model, siz, dim, py)
    ensures |py| == Size(data)
  {
  }

  lemma LabelsLength(data: RowBlock)
    requires WellFormed(data) && data.labels.Some?
    ensures |data.labels.value| == Size(data)
  {
  }

  lemma RowsAreMatrix(x: RowBlock, v: Matrix, dim: nat, y: Matrix)
    requires WellFormed(x) && Columns(x, |v|) && IsMatrix(v, dim) && |y| == Size(x)
    requires forall i: nat :: i < |y| ==> y[i] == RowMix(x, v, dim, i)
    ensures IsMatrix(y, dim)
  {
  }

  // ------------------------------------------------------------ the saved gradients

  ghost predicate ResidualsOf(data: RowBlock, model: seq<real>, siz: seq<nat>, dim: nat, exp: real -> real, p: seq<real>)
    requires Fitting(data, model, siz) && forall x :: exp(x) > 0.0
  {
    && data.labels.Some? && |p| == Size(data)
    && forall i :: 0 <= i < |p| ==> p[i] == Residual(exp, data.labels.value[i], Score(data, model, siz, dim, i))
  }

  lemma ResidualsAre(data: RowBlock, model: seq<real>, siz: seq<nat>, dim: nat, exp: real -> real, scores: seq<real>, p: seq<real>)
    requires Fitting(data, model, siz) && (forall x :: exp(x) > 0.0) && data.labels.Some? && |data.labels.value| == |p|
    requires Scored(data, model, siz, dim, scores) && |p| == |scores|
    requires forall i :: 0 <= i < |p| ==> p[i] == Residual(exp, data.labels.value[i], scores[i])
    ensures ResidualsOf(data, model, siz, dim, exp, p)
  {
    hide Residual, Score;
  }

  /** The first place of every column with a model holds the gradient of its weight. */
  ghost predicate WeightGradients(data: RowBlock, siz: seq<nat>, p: seq<real>, grad: seq<real>)
    requires WellFormed(data) && |p| == Size(data)
  {
    forall i: nat :: i < |siz| && siz[i] > 0 ==>
      Begin(siz, i) < |grad| && grad[Begin(siz, i)] == ColDot(data, p, i, Size(data))
  }

  /** The places after it hold the gradients of its factors, if it is embedded. */
  ghost predicate FactorGradientsAt(x: RowBlock, siz: seq<nat>, dim: nat, v: Matrix, p: seq<real>, grad: seq<real>)
    requires WellFormed(x) && Columns(x, |v|) && IsMatrix(v, dim) && |p| == Size(x)
  {
    forall i: nat, k: nat :: IsEmbedded(siz, dim, i) && k < dim ==>
      && Rank(siz, dim, i) < |v| && Begin(siz, i) + 1 + k < |grad|
      && grad[Begin(siz, i) + 1 + k] == Gradient(x, v, dim, p, Rank(siz, dim, i), k, Size(x))
  }

  lemma PlacesW(model: seq<real>, siz: seq<nat>, pos: seq<int>)
    requires Sized(model, siz) && |pos| == |siz|
    requires forall i :: 0 <= i < |siz| ==> pos[i] == if siz[i] == 0 then -1 else Begin(siz, i)
    ensures forall i :: 0 <= i < |pos| ==> -1 <= pos[i] < |model|
    ensures forall i, j :: 0 <= i < j < |pos| && pos[i] >= 0 && pos[j] >= 0 ==> pos[i] != pos[j]
  {
    hide Begin;
    forall i | 0 <= i < |pos|
      ensures -1 <= pos[i] < |model|
    {
      ColumnInside(model, siz, i);
    }
    forall i, j | 0 <= i < j < |pos| && pos[i] >= 0 && pos[j] >= 0
      ensures pos[i] != pos[j]
    {
      BeginMonotone(siz, i, j);
    }
  }

  lemma WeightsSaved(data: RowBlock, model: seq<real>, siz: seq<nat>, p: seq<real>, pos: seq<int>, w: seq<real>, grad: seq<real>)
    requires Fitting(data, model, siz) && |p| == Size(data) && |pos| == |siz| == |w| && |grad| == |model|
    requires forall i :: 0 <= i < |siz| ==> pos[i] == if siz[i] == 0 then -1 else Begin(siz, i)
    requires forall i :: 0 <= i < |pos| ==> -1 <= pos[i] < |grad|
    requires forall i :: 0 <= i < |pos| && pos[i] >= 0 ==> grad[pos[i]] == w[i]
    requires forall e: nat :: e < |w| ==> w[e] == ColDot(data, p, e, Size(data))
    ensures WeightGradients(data, siz, p, grad)
  {
    hide Begin, ColDot;
    forall i: nat | i < |siz| && siz[i] > 0
      ensures Begin(siz, i) < |grad| && grad[Begin(siz, i)] == ColDot(data, p, i, Size(data))
    {
      assert pos[i] == Begin(siz, i);
    }
  }

  /** The column whose embedding is row r of V. */
  lemma {:induction false} ColumnOfRank(siz: seq<nat>, dim: nat, n: nat, r: nat) returns (i: nat)
    requires n <= |siz| && r < Rank(siz, dim, n)
    ensures i < n && IsEmbedded(siz, dim, i) && Rank(siz, dim, i) == r
  {
    if r < Rank(siz, dim, n - 1) {
      i := ColumnOfRank(siz, dim, n - 1, r);
    } else {
      i := n - 1;
    }
  }

  lemma PlaceV(data: RowBlock, model: seq<real>, siz: seq<nat>, dim: nat, pos: seq<nat>, x: RowBlock, v: Matrix, r: nat)
    returns (i: nat)
    requires Fitting(data, model, siz) && v != [] && Embedded(data, model, siz, dim, pos, x, v) && r < |pos|
    ensures IsEmbedded(siz, dim, i) && Rank(siz, dim, i) == r && pos[r] == Begin(siz, i) + 1
    ensures Begin(siz, i) + 1 + dim <= |model|
  {
    i := ColumnOfRank(siz, dim, |siz|, r);
    ColumnInside(model, siz, i);
    hide Begin, Rank, Loaded, FactorsOf;
  }

  lemma PlacesV(data: RowBlock, model: seq<real>, siz: seq<nat>, dim: nat, pos: seq<nat>, x: RowBlock, v: Matrix)
    requires Fitting(data, model, siz) && v != [] && Embedded(data, model, siz, dim, pos, x, v)
    ensures Spaced(pos, dim, |model|)
  {
    hide Fitting, Embedded, Begin, Rank;
    forall r | 0 <= r < |pos|
      ensures pos[r] + dim <= |model|
    {
      var i := PlaceV(data, model, siz, dim, pos, x, v, r);
    }
    forall r, s | 0 <= r < s < |pos|
      ensures pos[r] + dim <= pos[s]
    {
      var i := PlaceV(data, model, siz, dim, pos, x, v, r);
      var j := PlaceV(data, model, siz, dim, pos, x, v, s);
      if j < i {
        RankMonotone(siz, dim, j, i);
      }
      BeginMonotone(siz, i, j);
    }
  }

  /** The factors' places leave the weights' places alone. */
  lemma Apart(data: RowBlock, model: seq<real>, siz: seq<nat>, dim: nat, pos: seq<nat>, x: RowBlock, v: Matrix, i: nat)
    requires Fitting(data, model, siz) && v != [] && Embedded(data, model, siz, dim, pos, x, v) && i < |siz| && siz[i] > 0
    ensures !InSome(pos, dim, Begin(siz, i))
  {
    hide Fitting, Embedded, Begin, Rank;
    if InSome(pos, dim, Begin(siz, i)) {
      var r :| 0 <= r < |pos| && pos[r] <= Begin(siz, i) < pos[r] + dim;
      var j := PlaceV(data, model, siz, dim, pos, x, v, r);
      if i < j {
        BeginMonotone(siz, i, j);
      } else if j < i {
        BeginMonotone(siz, j, i);
      }
      assert false;
    }
  }

  lemma WeightsKept(data: RowBlock, model: seq<real>, siz: seq<nat>, dim: nat, pos: seq<nat>, x: RowBlock, v: Matrix,
                    p: seq<real>, before: seq<real>, after: seq<real>)
    requires Fitting(data, model, siz) && v != [] && Embedded(data, model, siz, dim, pos, x, v)
    requires |p| == Size(data) && WeightGradients(data, siz, p, before) && |before| == |after|
    requires forall q: nat :: q < |after| && !InSome(pos, dim, q) ==> after[q] == before[q]
    ensures WeightGradients(data, siz, p, after)
  {
    hide Embedded, Begin, InSome, ColDot;
    forall i: nat | i < |siz| && siz[i] > 0
      ensures Begin(siz, i) < |after| && after[Begin(siz, i)] == ColDot(data, p, i, Size(data))
    {
      Apart(data, model, siz, dim, pos, x, v, i);
    }
  }

  lemma FactorsSaved(data: RowBlock, model: seq<real>, siz: seq<nat>, dim: nat, pos: seq<nat>, x: RowBlock, v: Matrix,
                     p: seq<real>, w: Matrix, grad: seq<real>)
    requires Fitting(data, model, siz) && v != [] && Embedded(data, model, siz, dim, pos, x, v) && |p| == Size(data)
    requires |w| == |v| && IsMatrix(w, dim) && |grad| == |model| && Spaced(pos, dim, |grad|)
    requires forall e: nat, k: nat :: e < |w| && k < dim ==> w[e][k] == Gradient(x, v, dim, p, e, k, Size(x))
    requires Placed(pos, dim, w, grad)
    ensures FactorGradientsAt(x, siz, dim, v, p, grad)
  {
    hide Gradient, Begin;
    forall i: nat, k: nat | IsEmbedded(siz, dim, i) && k < dim
      ensures Rank(siz, dim, i) < |v| && Begin(siz, i) + 1 + k < |grad|
      ensures grad[Begin(siz, i) + 1 + k] == Gradient(x, v, dim, p, Rank(siz, dim, i), k, Size(x))
    {
      var r := Rank(siz, dim, i);
      assert pos[r] == Begin(siz, i) + 1;
      assert grad[pos[r] + k] == w[r][k];
    }
  }
}
