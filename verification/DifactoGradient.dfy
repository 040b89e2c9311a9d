/**
 * What the saved gradients mean for the model: moving one number of the model
 * changes the p-weighted sum of the scores as the gradient says.
 */
module DifactoGradient {
  import opened RowBlocks
  import opened SpMV
  import opened SpMM
  import opened FactorGradient
  import opened DifactoData
  import opened DifactoLoss
  import opened DifactoRun

  /** The p-weighted sum of the scores of the first n rows. */
  ghost function Weighted(data: RowBlock, model: seq<real>, siz: seq<nat>, dim: nat, p: seq<real>, n: nat): real
    requires Fitting(data, model, siz) && |p| == Size(data) && n <= Size(data)
  {
    if n == 0 then 0.0
    else AddWeighted(Weighted(data, model, siz, dim, p, n - 1), p[n - 1], Score(data, model, siz, dim, n - 1))
  }

  lemma AddSplit(a: real, b: real, p: real, r: real, q: real)
    ensures AddWeighted(a + b, p, r + q) == AddWeighted(a, p, r) + AddWeighted(b, p, q)
  {
    Split(p, r, q);
  }

  /** The linear and the pair part, each summed by itself. */
  lemma {:induction false} WeightedParts(data: RowBlock, model: seq<real>, siz: seq<nat>, dim: nat, x: RowBlock, v: Matrix,
                                         p: seq<real>, n: nat)
    requires Fitting(data, model, siz) && |p| == Size(data) && n <= Size(data)
    requires Loaded(data, model, siz, dim, x, v) && WellFormed(x) && Size(x) == Size(data)
    ensures Weighted(data, model, siz, dim, p, n)
         == WeightedScores(data, WeightsOf(model, siz), p, n) + PairScores(x, v, dim, p, n)
  {
    hide WeightsOf, RowDot, RowPairs, AddWeighted, Score, WellFormed, Columns, Sized, Loaded;
    LoadedParts(data, model, siz, dim, x, v);
    if n > 0 {
      WeightedParts(data, model, siz, dim, x, v, p, n - 1);
      ScoreParts(data, model, siz, dim, x, v, n - 1);
      AddSplit(WeightedScores(data, WeightsOf(model, siz), p, n - 1), PairScores(x, v, dim, p, n - 1), p[n - 1],
               RowDot(data, WeightsOf(model, siz), n - 1), RowPairs(x, v, dim, n - 1));
    }
  }

  lemma LoadedParts(data: RowBlock, model: seq<real>, siz: seq<nat>, dim: nat, x: RowBlock, v: Matrix)
    requires Fitting(data, model, siz) && Loaded(data, model, siz, dim, x, v)
    ensures Columns(x, |v|) && IsMatrix(v, dim)
  {
  }

  lemma ScoreParts(data: RowBlock, model: seq<real>, siz: seq<nat>, dim: nat, x: RowBlock, v: Matrix, i: nat)
    requires Fitting(data, model, siz) && i < Size(data)
    requires Loaded(data, model, siz, dim, x, v) && WellFormed(x) && Size(x) == Size(data)
    ensures Score(data, model, siz, dim, i) == RowDot(data, WeightsOf(model, siz), i) + RowPairs(x, v, dim, i)
  {
    hide WeightsOf, RowDot, RowPairs, BatchPairs, Loaded;
    RowScore(data, model, siz, dim, x, v, i);
  }

  /** The same without embeddings. */
  lemma {:induction false} WeightedLinear(data: RowBlock, model: seq<real>, siz: seq<nat>, dim: nat, p: seq<real>, n: nat)
    requires Fitting(data, model, siz) && |p| == Size(data) && n <= Size(data)
    requires dim == 0 || Rank(siz, dim, |siz|) == 0
    ensures Weighted(data, model, siz, dim, p, n) == WeightedScores(data, WeightsOf(model, siz), p, n)
  {
    hide WeightsOf, RowDot, BatchPairs, Rank;
    if n > 0 {
      WeightedLinear(data, model, siz, dim, p, n - 1);
      OffsetsInside(data, n);
      NoBatchPairs(data, model, siz, dim, data.offset[n - 1], data.offset[n]);
    }
  }

  lemma BeginApart(siz: seq<nat>, i: nat, j: nat)
    requires i < |siz| && j < |siz| && i != j
    ensures Begin(siz, i) + siz[i] <= Begin(siz, j) || Begin(siz, j) + siz[j] <= Begin(siz, i)
  {
    if i < j {
      BeginMonotone(siz, i, j);
    } else {
      BeginMonotone(siz, j, i);
    }
  }

  // --------------------------------------------------------------- one weight

  function WithWeight(model: seq<real>, siz: seq<nat>, i: nat, d: real): (m: seq<real>)
    requires Sized(model, siz) && i < |siz| && siz[i] > 0
    ensures |m| == |model|
  {
    ColumnInside(model, siz, i);
    model[Begin(siz, i) := model[Begin(siz, i)] + d]
  }

  lemma WeightMoved(model: seq<real>, siz: seq<nat>, i: nat, d: real)
    requires Sized(model, siz) && i < |siz| && siz[i] > 0
    ensures var w := WeightsOf(model, siz); WeightsOf(WithWeight(model, siz, i, d), siz) == w[i := w[i] + d]
  {
    var m, w := WithWeight(model, siz, i, d), WeightsOf(model, siz);
    hide Begin;
    forall j | 0 <= j < |siz|
      ensures WeightOf(m, siz, j) == if j == i then w[i] + d else w[j]
    {
      ColumnInside(model, siz, j);
      if j != i {
        BeginApart(siz, i, j);
      }
    }
    SameVector(WeightsOf(m, siz), w[i := w[i] + d]);
  }

  lemma FactorsStay(model: seq<real>, siz: seq<nat>, dim: nat, i: nat, d: real, j: nat)
    requires Sized(model, siz) && i < |siz| && siz[i] > 0 && IsEmbedded(siz, dim, j)
    ensures FactorsOf(WithWeight(model, siz, i, d), siz, dim, j) == FactorsOf(model, siz, dim, j)
  {
    hide Begin;
    ColumnInside(model, siz, j);
    if j != i {
      BeginApart(siz, i, j);
    }
    SameVector(FactorsOf(WithWeight(model, siz, i, d), siz, dim, j), FactorsOf(model, siz, dim, j));
  }

  /** The score is linear in a weight, and the saved gradient is its coefficient. */
  lemma WeightGradientOfModel(data: RowBlock, model: seq<real>, siz: seq<nat>, dim: nat, pos: seq<nat>, x: RowBlock, v: Matrix,
                              p: seq<real>, i: nat, d: real)
    requires Fitting(data, model, siz) && Embedded(data, model, siz, dim, pos, x, v) && |p| == Size(data)
    requires i < |siz| && siz[i] > 0
    ensures Weighted(data, WithWeight(model, siz, i, d), siz, dim, p, Size(data))
         == Weighted(data, model, siz, dim, p, Size(data)) + d * ColDot(data, p, i, Size(data))
  {
    hide Weighted, WithWeight, WeightsOf, ColDot, WeightedScores, PairScores, Loaded, Sized, Embedded;
    var m := WithWeight(model, siz, i, d);
    WeightMoved(model, siz, i, d);
    var w := WeightsOf(model, siz);
    WeightGradient(data, w, p, i, d, Size(data));
    FittingStays(data, model, siz, m);
    assert WeightsOf(m, siz) == w[i := w[i] + d];
    assert WeightedScores(data, WeightsOf(m, siz), p, Size(data))
        == WeightedScores(data, w, p, Size(data)) + d * ColDot(data, p, i, Size(data));
    if v == [] {
      NothingEmbedded(data, model, siz, dim, pos, x);
      WeightedLinear(data, model, siz, dim, p, Size(data));
      WeightedLinear(data, m, siz, dim, p, Size(data));
    } else {
      LoadedStays(data, model, siz, dim, pos, x, v, i, d);
      WeightedParts(data, model, siz, dim, x, v, p, Size(data));
      WeightedParts(data, m, siz, dim, x, v, p, Size(data));
    }
  }

  lemma FittingStays(data: RowBlock, model: seq<real>, siz: seq<nat>, m: seq<real>)
    requires Fitting(data, model, siz) && |m| == |model|
    ensures Fitting(data, m, siz)
  {
  }

  lemma NothingEmbedded(data: RowBlock, model: seq<real>, siz: seq<nat>, dim: nat, pos: seq<nat>, x: RowBlock)
    requires Fitting(data, model, siz) && Embedded(data, model, siz, dim, pos, x, [])
    ensures dim == 0 || Rank(siz, dim, |siz|) == 0
  {
  }

  lemma LoadedStays(data: RowBlock, model: seq<real>, siz: seq<nat>, dim: nat, pos: seq<nat>, x: RowBlock, v: Matrix,
                    i: nat, d: real)
    requires Fitting(data, model, siz) && v != [] && Embedded(data, model, siz, dim, pos, x, v) && i < |siz| && siz[i] > 0
    ensures Loaded(data, model, siz, dim, x, v) && Loaded(data, WithWeight(model, siz, i, d), siz, dim, x, v)
    ensures WellFormed(x) && Size(x) == Size(data)
  {
    hide Entries, FactorsOf, WithWeight, Begin, Rank;
    forall j: nat | IsEmbedded(siz, dim, j)
      ensures FactorsOf(WithWeight(model, siz, i, d), siz, dim, j) == FactorsOf(model, siz, dim, j)
    {
      FactorsStay(model, siz, dim, i, d, j);
    }
  }

  // --------------------------------------------------------------- one factor

  function WithFactor(model: seq<real>, siz: seq<nat>, dim: nat, i: nat, k: nat, d: real): (m: seq<real>)
    requires Sized(model, siz) && IsEmbedded(siz, dim, i) && k < dim
    ensures |m| == |model|
  {
    ColumnInside(model, siz, i);
    var q := Begin(siz, i) + 1 + k;
    model[q := model[q] + d]
  }

  lemma WeightsStay(model: seq<real>, siz: seq<nat>, dim: nat, i: nat, k: nat, d: real)
    requires Sized(model, siz) && IsEmbedded(siz, dim, i) && k < dim
    ensures WeightsOf(WithFactor(model, siz, dim, i, k, d), siz) == WeightsOf(model, siz)
  {
    var m := WithFactor(model, siz, dim, i, k, d);
    hide Begin;
    forall j | 0 <= j < |siz|
      ensures WeightOf(m, siz, j) == WeightOf(model, siz, j)
    {
      ColumnInside(model, siz, j);
      if j != i {
        BeginApart(siz, i, j);
      }
    }
    SameVector(WeightsOf(m, siz), WeightsOf(model, siz));
  }

  lemma FactorMoved(model: seq<real>, siz: seq<nat>, dim: nat, i: nat, k: nat, d: real, j: nat)
    requires Sized(model, siz) && IsEmbedded(siz, dim, i) && k < dim && IsEmbedded(siz, dim, j)
    ensures var f := FactorsOf(model, siz, dim, j);
            FactorsOf(WithFactor(model, siz, dim, i, k, d), siz, dim, j) == if j == i then f[k := f[k] + d] else f
  {
    hide Begin;
    ColumnInside(model, siz, j);
    ColumnInside(model, siz, i);
    if j != i {
      BeginApart(siz, i, j);
    }
    var f := FactorsOf(model, siz, dim, j);
    SameVector(FactorsOf(WithFactor(model, siz, dim, i, k, d), siz, dim, j), if j == i then f[k := f[k] + d] else f);
  }

  lemma LoadedMoved(data: RowBlock, model: seq<real>, siz: seq<nat>, dim: nat, pos: seq<nat>, x: RowBlock, v: Matrix,
                    i: nat, k: nat, d: real)
    requires Fitting(data, model, siz) && v != [] && Embedded(data, model, siz, dim, pos, x, v)
    requires IsEmbedded(siz, dim, i) && k < dim
    ensures Rank(siz, dim, i) < |v| && |v[Rank(siz, dim, i)]| == dim
    ensures Loaded(data, WithFactor(model, siz, dim, i, k, d), siz, dim, x, Moved(v, Rank(siz, dim, i), k, d))
  {
    hide Entries, FactorsOf, WithFactor, Begin;
    var m, c := WithFactor(model, siz, dim, i, k, d), Rank(siz, dim, i);
    var v' := Moved(v, c, k, d);
    forall j: nat | IsEmbedded(siz, dim, j)
      ensures Rank(siz, dim, j) < |v'| && v'[Rank(siz, dim, j)] == FactorsOf(m, siz, dim, j)
    {
      FactorMoved(model, siz, dim, i, k, d, j);
      if i < j {
        RankMonotone(siz, dim, i, j);
      } else if j < i {
        RankMonotone(siz, dim, j, i);
      }
    }
  }

  /**
   * Moving one factor of the model by d changes the weighted sum of the scores
   * by d times the saved gradient, plus d squared times a number without V.
   */
  lemma FactorGradientOfModel(data: RowBlock, model: seq<real>, siz: seq<nat>, dim: nat, pos: seq<nat>, x: RowBlock, v: Matrix,
                              p: seq<real>, i: nat, k: nat, d: real)
    requires Fitting(data, model, siz) && v != [] && Embedded(data, model, siz, dim, pos, x, v) && |p| == Size(data)
    requires IsEmbedded(siz, dim, i) && k < dim
    ensures Rank(siz, dim, i) < |v|
    ensures Weighted(data, WithFactor(model, siz, dim, i, k, d), siz, dim, p, Size(data))
         == Weighted(data, model, siz, dim, p, Size(data))
            + d * Gradient(x, v, dim, p, Rank(siz, dim, i), k, Size(x)) + d * d * Curvature(x, p, Rank(siz, dim, i), Size(x))
  {
    hide Weighted, WithFactor, WeightsOf, WeightedScores, PairScores, Loaded, Gradient, Curvature, Rank, Moved;
    var m, c := WithFactor(model, siz, dim, i, k, d), Rank(siz, dim, i);
    LoadedMoved(data, model, siz, dim, pos, x, v, i, k, d);
    WeightsStay(model, siz, dim, i, k, d);
    WeightedParts(data, model, siz, dim, x, v, p, Size(data));
    WeightedParts(data, m, siz, dim, x, Moved(v, c, k, d), p, Size(data));
    FactorGradientExact(x, v, dim, p, c, k, d);
  }
}
