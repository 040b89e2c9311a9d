/**
 * How a model with weights and embeddings of some columns is unpacked for a
 * minibatch: the weight of every column, and the sub-matrix of the entries in
 * embedded columns with the embeddings as rows.
 */
module DifactoData {
  import opened Options
  import opened RowBlocks
  import opened SpMV
  import opened SpMM
  import opened FactorMachine

  /** Where the model of column i begins. */
  function Begin(siz: seq<nat>, i: nat): nat
    requires i <= |siz|
  {
    if i == 0 then 0 else Begin(siz, i - 1) + siz[i - 1]
  }

  lemma {:induction false} BeginMonotone(siz: seq<nat>, i: nat, j: nat)
    requires i <= j <= |siz|
    ensures Begin(siz, i) <= Begin(siz, j)
    ensures i < j ==> Begin(siz, i) + siz[i] <= Begin(siz, j)
  {
    if i < j {
      BeginMonotone(siz, i, j - 1);
    }
  }

  /** The sizes account for the whole model. */
  predicate Sized(model: seq<real>, siz: seq<nat>) {
    Begin(siz, |siz|) == |model|
  }

  lemma ColumnInside(model: seq<real>, siz: seq<nat>, i: nat)
    requires Sized(model, siz) && i < |siz|
    ensures Begin(siz, i) + siz[i] <= |model|
  {
    BeginMonotone(siz, i, |siz|);
  }

  /** A column without a model weighs nothing. */
  function WeightOf(model: seq<real>, siz: seq<nat>, i: nat): real
    requires Sized(model, siz) && i < |siz|
  {
    ColumnInside(model, siz, i);
    if siz[i] == 0 then 0.0 else model[Begin(siz, i)]
  }

  function WeightsOf(model: seq<real>, siz: seq<nat>): (w: seq<real>)
    requires Sized(model, siz)
    ensures |w| == |siz|
  {
    seq(|siz|, i requires 0 <= i < |siz| => WeightOf(model, siz, i))
  }

  predicate IsEmbedded(siz: seq<nat>, dim: nat, i: nat) {
    i < |siz| && siz[i] == dim + 1
  }

  function FactorsOf(model: seq<real>, siz: seq<nat>, dim: nat, i: nat): (v: seq<real>)
    requires Sized(model, siz) && IsEmbedded(siz, dim, i)
    ensures |v| == dim
  {
    ColumnInside(model, siz, i);
    model[Begin(siz, i) + 1..Begin(siz, i) + 1 + dim]
  }

  /** The number of embedded columns before column i: its row in V. */
  function Rank(siz: seq<nat>, dim: nat, i: nat): (r: nat)
    requires i <= |siz|
    ensures r <= i
  {
    if i == 0 then 0 else Rank(siz, dim, i - 1) + if IsEmbedded(siz, dim, i - 1) then 1 else 0
  }

  lemma {:induction false} RankMonotone(siz: seq<nat>, dim: nat, i: nat, j: nat)
    requires i <= j <= |siz|
    ensures Rank(siz, dim, i) <= Rank(siz, dim, j)
    ensures i < j && IsEmbedded(siz, dim, i) ==> Rank(siz, dim, i) < Rank(siz, dim, j)
  {
    if i < j {
      RankMonotone(siz, dim, i, j - 1);
    }
  }

  // ------------------------------------------------------------ loading w

  /** The weights, and where their gradients go: -1 for a column without a model. */
  method LoadW(model: seq<real>, siz: seq<nat>) returns (pos: seq<int>, weight: seq<real>)
    requires Sized(model, siz)
    ensures weight == WeightsOf(model, siz)
    ensures |pos| == |siz| && forall i :: 0 <= i < |siz| ==> pos[i] == if siz[i] == 0 then -1 else Begin(siz, i)
  {
    hide Begin, WeightOf;
    pos, weight := [], [];
    var p := 0;
    NextBegin(siz, 0);
    for i := 0 to |siz|
      invariant p == Begin(siz, i) && |pos| == |weight| == i
      invariant forall j :: 0 <= j < i ==> weight[j] == WeightOf(model, siz, j)
      invariant forall j :: 0 <= j < i ==> pos[j] == if siz[j] == 0 then -1 else Begin(siz, j)
    {
      WeightIs(model, siz, i);
      NextBegin(siz, i);
      if siz[i] == 0 {
        pos, weight := pos + [-1], weight + [0.0];
      } else {
        pos, weight := pos + [p], weight + [model[p]];
        p := p + siz[i];
      }
    }
    SameVector(weight, WeightsOf(model, siz));
  }

  lemma NextBegin(siz: seq<nat>, i: nat)
    requires i <= |siz|
    ensures Begin(siz, 0) == 0 && (i < |siz| ==> Begin(siz, i + 1) == Begin(siz, i) + siz[i])
  {
  }

  lemma WeightIs(model: seq<real>, siz: seq<nat>, i: nat)
    requires Sized(model, siz) && i < |siz|
    ensures Begin(siz, i) + siz[i] <= |model|
    ensures WeightOf(model, siz, i) == if siz[i] == 0 then 0.0 else model[Begin(siz, i)]
  {
    ColumnInside(model, siz, i);
  }

  // ------------------------------------------------------------ loading V

  /** The rows of V and their places belong to the embedded columns, in order. */
  ghost predicate Embeddings(model: seq<real>, siz: seq<nat>, dim: nat, pos: seq<nat>, v: Matrix, n: nat)
    requires Sized(model, siz) && n <= |siz|
  {
    && |pos| == |v| == Rank(siz, dim, n) && IsMatrix(v, dim)
    && forall i: nat :: i < n && IsEmbedded(siz, dim, i) ==>
         && Rank(siz, dim, i) < |v|
         && pos[Rank(siz, dim, i)] == Begin(siz, i) + 1
         && v[Rank(siz, dim, i)] == FactorsOf(model, siz, dim, i)
  }

  lemma EmbeddingsNone(model: seq<real>, siz: seq<nat>, dim: nat)
    requires Sized(model, siz)
    ensures Embeddings(model, siz, dim, [], [], 0)
  {
  }

  lemma EmbeddingsNext(model: seq<real>, siz: seq<nat>, dim: nat, pos: seq<nat>, v: Matrix, n: nat)
    requires Sized(model, siz) && n < |siz| && Embeddings(model, siz, dim, pos, v, n)
    ensures !IsEmbedded(siz, dim, n) ==> Embeddings(model, siz, dim, pos, v, n + 1)
    ensures IsEmbedded(siz, dim, n) ==>
              Embeddings(model, siz, dim, pos + [Begin(siz, n) + 1], v + [FactorsOf(model, siz, dim, n)], n + 1)
  {
    hide FactorsOf, Begin;
  }

  /** Collects the embedded columns: colMap is one more than the row in V, 0 for none. */
  method LoadColumns(model: seq<real>, siz: seq<nat>, dim: nat) returns (pos: seq<nat>, v: Matrix, colMap: seq<nat>)
    requires Sized(model, siz)
    ensures Embeddings(model, siz, dim, pos, v, |siz|)
    ensures |colMap| == |siz|
    ensures forall i: nat :: i < |siz| ==> colMap[i] == if IsEmbedded(siz, dim, i) then Rank(siz, dim, i) + 1 else 0
  {
    hide Embeddings;
    EmbeddingsNone(model, siz, dim);
    pos, v, colMap := [], [], [];
    var k, p := 0, 0;
    for i := 0 to |siz|
      invariant p == Begin(siz, i) && k == Rank(siz, dim, i) && |colMap| == i
      invariant Embeddings(model, siz, dim, pos, v, i)
      invariant forall j: nat :: j < i ==> colMap[j] == if IsEmbedded(siz, dim, j) then Rank(siz, dim, j) + 1 else 0
    {
      ColumnInside(model, siz, i);
      EmbeddingsNext(model, siz, dim, pos, v, i);
      if siz[i] == dim + 1 {
        pos := pos + [p + 1];
        v := v + [model[p + 1..p + 1 + dim]];
        k := k + 1;
        colMap := colMap + [k];
      } else {
        colMap := colMap + [0];
      }
      p := p + siz[i];
    }
  }

  // ------------------------------------------------------------- picking columns

  /** The number of the first j entries in embedded columns. */
  function Picked(data: RowBlock, siz: seq<nat>, dim: nat, j: nat): (n: nat)
    requires j <= |data.index|
    ensures n <= j
  {
    if j == 0 then 0 else Picked(data, siz, dim, j - 1) + if IsEmbedded(siz, dim, data.index[j - 1]) then 1 else 0
  }

  lemma {:induction false} PickedMonotone(data: RowBlock, siz: seq<nat>, dim: nat, i: nat, j: nat)
    requires i <= j <= |data.index|
    ensures Picked(data, siz, dim, i) <= Picked(data, siz, dim, j)
    ensures i < j && IsEmbedded(siz, dim, data.index[i]) ==> Picked(data, siz, dim, i) < Picked(data, siz, dim, j)
  {
    if i < j {
      PickedMonotone(data, siz, dim, i, j - 1);
    }
  }

  /** The entries in embedded columns among the first n, under the rows of V. */
  ghost predicate Entries(data: RowBlock, siz: seq<nat>, dim: nat, index: seq<nat>, value: Option<seq<real>>, n: nat)
    requires n <= |data.index| && Columns(data, |siz|)
  {
    && |index| == Picked(data, siz, dim, n)
    && (value.Some? <==> data.value.Some?)
    && (value.Some? ==> |value.value| == |index| && |data.value.value| == |data.index|)
    && (forall k :: 0 <= k < |index| ==> index[k] < Rank(siz, dim, |siz|))
    && forall j: nat :: j < n && IsEmbedded(siz, dim, data.index[j]) ==>
         var k := Picked(data, siz, dim, j);
         k < |index| && index[k] == Rank(siz, dim, data.index[j]) && (value.Some? ==> value.value[k] == data.value.value[j])
  }

  lemma EntryNext(data: RowBlock, siz: seq<nat>, dim: nat, index: seq<nat>, value: Option<seq<real>>, n: nat)
    requires n < |data.index| && Columns(data, |siz|) && Entries(data, siz, dim, index, value, n)
    ensures !IsEmbedded(siz, dim, data.index[n]) ==> Entries(data, siz, dim, index, value, n + 1)
    ensures IsEmbedded(siz, dim, data.index[n]) ==>
              Entries(data, siz, dim, index + [Rank(siz, dim, data.index[n])],
                      if value.Some? then Some(value.value + [data.value.value[n]]) else None, n + 1)
  {
    hide Entries, Rank, Columns;
    if IsEmbedded(siz, dim, data.index[n]) {
      EntryAdded(data, siz, dim, index, value, n);
    } else {
      EntrySkipped(data, siz, dim, index, value, n);
    }
  }

  lemma EntrySkipped(data: RowBlock, siz: seq<nat>, dim: nat, index: seq<nat>, value: Option<seq<real>>, n: nat)
    requires n < |data.index| && Columns(data, |siz|) && Entries(data, siz, dim, index, value, n)
    requires !IsEmbedded(siz, dim, data.index[n])
    ensures Entries(data, siz, dim, index, value, n + 1)
  {
    hide Rank;
  }

  lemma EntryAdded(data: RowBlock, siz: seq<nat>, dim: nat, index: seq<nat>, value: Option<seq<real>>, n: nat)
    requires n < |data.index| && Columns(data, |siz|) && Entries(data, siz, dim, index, value, n)
    requires IsEmbedded(siz, dim, data.index[n])
    ensures Entries(data, siz, dim, index + [Rank(siz, dim, data.index[n])],
                    if value.Some? then Some(value.value + [data.value.value[n]]) else None, n + 1)
  {
    RankMonotone(siz, dim, data.index[n], |siz|);
    hide Rank, Columns;
    var index' := index + [Rank(siz, dim, data.index[n])];
    assert forall k :: 0 <= k < |index| ==> index'[k] == index[k];
    forall j: nat | j < n + 1 && IsEmbedded(siz, dim, data.index[j])
      ensures Picked(data, siz, dim, j) < |index'| && index'[Picked(data, siz, dim, j)] == Rank(siz, dim, data.index[j])
      ensures value.Some? ==>
                (value.value + [data.value.value[n]])[Picked(data, siz, dim, j)] == data.value.value[j]
    {
    }
  }

  /** The sub-matrix of the embedded columns. */
  ghost predicate PickedBlock(data: RowBlock, siz: seq<nat>, dim: nat, x: RowBlock)
    requires WellFormed(data) && Columns(data, |siz|)
  {
    && |x.offset| == |data.offset|
    && (forall i :: 0 <= i < |data.offset| ==>
          data.offset[i] <= |data.index| && x.offset[i] == Picked(data, siz, dim, data.offset[i]))
    && Entries(data, siz, dim, x.index, x.value, |data.index|)
    && x.labels.None?
  }

  method PickColumns(data: RowBlock, siz: seq<nat>, dim: nat, colMap: seq<nat>) returns (x: RowBlock)
    requires WellFormed(data) && Columns(data, |siz|) && |colMap| == |siz|
    requires forall i: nat :: i < |siz| ==> colMap[i] == if IsEmbedded(siz, dim, i) then Rank(siz, dim, i) + 1 else 0
    ensures PickedBlock(data, siz, dim, x)
  {
    var os, idx := [0], [];
    var val := if data.value.Some? then Some([]) else None;
    hide Rank, Entries, IsEmbedded, Picked;
    PickNothing(data, siz, dim, val);
    for i := 0 to |data.offset| - 1
      invariant |os| == i + 1 && data.offset[i] <= |data.index|
      invariant Entries(data, siz, dim, idx, val, data.offset[i])
      invariant forall r :: 0 <= r <= i ==> data.offset[r] <= |data.index| && os[r] == Picked(data, siz, dim, data.offset[r])
    {
      OffsetsInside(data, i + 1);
      var j := data.offset[i];
      while j < data.offset[i + 1]
        invariant data.offset[i] <= j <= data.offset[i + 1] && Entries(data, siz, dim, idx, val, j)
      {
        EntryCount(data, siz, dim, idx, val, j);
        EntryNext(data, siz, dim, idx, val, j);
        var k := colMap[data.index[j]];
        if k > 0 {
          idx := idx + [k - 1];
          if data.value.Some? {
            val := Some(val.value + [data.value.value[j]]);
          }
        }
        j := j + 1;
      }
      EntryCount(data, siz, dim, idx, val, j);
      os := os + [|idx|];
    }
    x := RowBlock(os, idx, val, None);
  }

  lemma PickNothing(data: RowBlock, siz: seq<nat>, dim: nat, val: Option<seq<real>>)
    requires WellFormed(data) && Columns(data, |siz|) && val == if data.value.Some? then Some([]) else None
    ensures Entries(data, siz, dim, [], val, 0) && Picked(data, siz, dim, 0) == 0
  {
  }

  lemma EntryCount(data: RowBlock, siz: seq<nat>, dim: nat, index: seq<nat>, value: Option<seq<real>>, n: nat)
    requires n <= |data.index| && Columns(data, |siz|) && Entries(data, siz, dim, index, value, n)
    ensures |index| == Picked(data, siz, dim, n) && (value.Some? <==> data.value.Some?)
  {
  }

  lemma PickedWellFormed(data: RowBlock, siz: seq<nat>, dim: nat, x: RowBlock)
    requires WellFormed(data) && Columns(data, |siz|) && PickedBlock(data, siz, dim, x) && |siz| <= TwoTo64
    ensures WellFormed(x) && Columns(x, Rank(siz, dim, |siz|)) && Size(x) == Size(data)
  {
    hide Rank;
    forall i | 0 <= i < |x.offset| - 1
      ensures x.offset[i] <= x.offset[i + 1]
    {
      PickedMonotone(data, siz, dim, data.offset[i], data.offset[i + 1]);
    }
  }

  // ----------------------------------------------------- the pairs of the batch

  /** One pair of entries of the batch; it counts when both columns are embedded. */
  ghost function BatchTerm(data: RowBlock, model: seq<real>, siz: seq<nat>, dim: nat, a: nat, b: nat): real
    requires a < |data.index| && b < |data.index| && Sized(model, siz)
  {
    var p, q := data.index[a], data.index[b];
    if IsEmbedded(siz, dim, p) && IsEmbedded(siz, dim, q)
    then ValueAt(data, a) * ValueAt(data, b) * Inner(FactorsOf(model, siz, dim, p), FactorsOf(model, siz, dim, q), dim)
    else 0.0
  }

  ghost function BatchWith(data: RowBlock, model: seq<real>, siz: seq<nat>, dim: nat, lo: nat, a: nat, b: nat): real
    requires a <= |data.index| && b < |data.index| && Sized(model, siz)
  {
    if lo >= a then 0.0
    else BatchWith(data, model, siz, dim, lo, a - 1, b) + BatchTerm(data, model, siz, dim, a - 1, b)
  }

  /** All pairs a < b of the entries from lo up to hi of the batch. */
  ghost function BatchPairs(data: RowBlock, model: seq<real>, siz: seq<nat>, dim: nat, lo: nat, hi: nat): real
    requires hi <= |data.index| && Sized(model, siz)
  {
    if lo >= hi then 0.0
    else BatchPairs(data, model, siz, dim, lo, hi - 1) + BatchWith(data, model, siz, dim, lo, hi - 1, hi - 1)
  }

  /** The loaded parts, together. */
  ghost predicate Loaded(data: RowBlock, model: seq<real>, siz: seq<nat>, dim: nat, x: RowBlock, v: Matrix)
    requires WellFormed(data) && Columns(data, |siz|) && Sized(model, siz)
  {
    && PickedBlock(data, siz, dim, x) && Columns(x, |v|) && IsMatrix(v, dim)
    && forall i: nat :: IsEmbedded(siz, dim, i) ==> Rank(siz, dim, i) < |v| && v[Rank(siz, dim, i)] == FactorsOf(model, siz, dim, i)
  }

  lemma PickedEntry(data: RowBlock, model: seq<real>, siz: seq<nat>, dim: nat, x: RowBlock, v: Matrix, j: nat)
    requires WellFormed(data) && Columns(data, |siz|) && Sized(model, siz) && Loaded(data, model, siz, dim, x, v)
    requires j < |data.index| && IsEmbedded(siz, dim, data.index[j])
    ensures var k := Picked(data, siz, dim, j);
            && k < |x.index| && x.index[k] < |v| && v[x.index[k]] == FactorsOf(model, siz, dim, data.index[j])
            && ValueAt(x, k) == ValueAt(data, j)
  {
    hide FactorsOf, Rank, Picked;
  }

  lemma PickedTotal(data: RowBlock, model: seq<real>, siz: seq<nat>, dim: nat, x: RowBlock, v: Matrix)
    requires WellFormed(data) && Columns(data, |siz|) && Sized(model, siz) && Loaded(data, model, siz, dim, x, v)
    ensures |x.index| == Picked(data, siz, dim, |data.index|) && Columns(x, |v|) && IsMatrix(v, dim)
  {
  }

  lemma NoTerm(data: RowBlock, model: seq<real>, siz: seq<nat>, dim: nat, a: nat, b: nat)
    requires a < |data.index| && b < |data.index| && Sized(model, siz) && !IsEmbedded(siz, dim, data.index[a])
    ensures BatchTerm(data, model, siz, dim, a, b) == 0.0
  {
  }

  lemma TermPicked(data: RowBlock, model: seq<real>, siz: seq<nat>, dim: nat, x: RowBlock, v: Matrix, a: nat, b: nat)
    requires WellFormed(data) && Columns(data, |siz|) && Sized(model, siz) && Loaded(data, model, siz, dim, x, v)
    requires a < |data.index| && b < |data.index|
    requires IsEmbedded(siz, dim, data.index[a]) && IsEmbedded(siz, dim, data.index[b])
    ensures Picked(data, siz, dim, a) < |x.index| && Picked(data, siz, dim, b) < |x.index|
    ensures PairTerm(x, v, dim, Picked(data, siz, dim, a), Picked(data, siz, dim, b)) == BatchTerm(data, model, siz, dim, a, b)
  {
    hide FactorsOf, Rank, Picked, ValueAt, Inner;
    PickedEntry(data, model, siz, dim, x, v, a);
    PickedEntry(data, model, siz, dim, x, v, b);
  }

  lemma {:induction false} WithPicked(data: RowBlock, model: seq<real>, siz: seq<nat>, dim: nat, x: RowBlock, v: Matrix,
                                      lo: nat, a: nat, b: nat)
    requires WellFormed(data) && Columns(data, |siz|) && Sized(model, siz) && Loaded(data, model, siz, dim, x, v)
    requires lo <= a <= |data.index| && b < |data.index| && IsEmbedded(siz, dim, data.index[b])
    ensures Picked(data, siz, dim, a) <= |x.index| && Picked(data, siz, dim, b) < |x.index|
    ensures PairsWith(x, v, dim, Picked(data, siz, dim, lo), Picked(data, siz, dim, a), Picked(data, siz, dim, b))
         == BatchWith(data, model, siz, dim, lo, a, b)
  {
    hide PairTerm, BatchTerm, WellFormed, Columns, Sized, Loaded, IsMatrix;
    PickedTotal(data, model, siz, dim, x, v);
    PickedMonotone(data, siz, dim, lo, a);
    PickedMonotone(data, siz, dim, a, |data.index|);
    PickedEntry(data, model, siz, dim, x, v, b);
    if lo < a {
      WithPicked(data, model, siz, dim, x, v, lo, a - 1, b);
      PickedMonotone(data, siz, dim, lo, a - 1);
      if IsEmbedded(siz, dim, data.index[a - 1]) {
        TermPicked(data, model, siz, dim, x, v, a - 1, b);
      } else {
        NoTerm(data, model, siz, dim, a - 1, b);
      }
    }
  }

  /** The pairs of the sub-matrix are the pairs of the batch with both columns embedded. */
  lemma {:induction false} PairsPicked(data: RowBlock, model: seq<real>, siz: seq<nat>, dim: nat, x: RowBlock, v: Matrix,
                                       lo: nat, hi: nat)
    requires WellFormed(data) && Columns(data, |siz|) && Sized(model, siz) && Loaded(data, model, siz, dim, x, v)
    requires lo <= hi <= |data.index|
    ensures Picked(data, siz, dim, hi) <= |x.index|
    ensures Pairs(x, v, dim, Picked(data, siz, dim, lo), Picked(data, siz, dim, hi)) == BatchPairs(data, model, siz, dim, lo, hi)
  {
    hide PairsWith, WellFormed, Columns, Sized, Loaded, IsMatrix;
    PickedTotal(data, model, siz, dim, x, v);
    PickedMonotone(data, siz, dim, lo, hi);
    PickedMonotone(data, siz, dim, hi, |data.index|);
    if lo < hi {
      PairsPicked(data, model, siz, dim, x, v, lo, hi - 1);
      PickedMonotone(data, siz, dim, lo, hi - 1);
      if IsEmbedded(siz, dim, data.index[hi - 1]) {
        WithPicked(data, model, siz, dim, x, v, lo, hi - 1, hi - 1);
      } else {
        NoPairs(data, model, siz, dim, lo, hi - 1, hi - 1);
      }
    }
  }

  lemma {:induction false} NoPairs(data: RowBlock, model: seq<real>, siz: seq<nat>, dim: nat, lo: nat, a: nat, b: nat)
    requires a <= |data.index| && b < |data.index| && Sized(model, siz) && !IsEmbedded(siz, dim, data.index[b])
    ensures BatchWith(data, model, siz, dim, lo, a, b) == 0.0
  {
    if lo < a {
      NoPairs(data, model, siz, dim, lo, a - 1, b);
    }
  }
}
