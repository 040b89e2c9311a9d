/** Blocks of sparse rows, shared by the localizer, the sparse products and the losses. */
module RowBlocks {
  import opened Options

  /** Rows of sparse entries; without values every entry counts one. */
  datatype RowBlock = RowBlock(offset: seq<nat>, index: seq<nat>, value: Option<seq<real>>, labels: Option<seq<real>>)

  const TwoTo64: nat := 0x1_0000_0000_0000_0000

  predicate WellFormed(b: RowBlock) {
    && |b.offset| > 0 && b.offset[0] == 0 && b.offset[|b.offset| - 1] == |b.index|
    && (forall i :: 0 <= i < |b.offset| - 1 ==> b.offset[i] <= b.offset[i + 1])
    && (b.value.Some? ==> |b.value.value| == |b.index|)
    && (b.labels.Some? ==> |b.labels.value| == |b.offset| - 1)
    && (forall j :: 0 <= j < |b.index| ==> b.index[j] < TwoTo64)
  }

  lemma {:induction false} OffsetsInside(b: RowBlock, i: nat)
    requires WellFormed(b) && i < |b.offset|
    ensures b.offset[i] <= |b.index|
    decreases |b.offset| - i
  {
    if i < |b.offset| - 1 {
      OffsetsInside(b, i + 1);
    }
  }

  function ValueAt(b: RowBlock, j: nat): real {
    if b.value.None? then 1.0 else if j < |b.value.value| then b.value.value[j] else 0.0
  }

  /** Every entry is in one of the first n columns. */
  predicate Columns(b: RowBlock, n: nat) {
    forall j :: 0 <= j < |b.index| ==> b.index[j] < n
  }

  /** The entries from lo up to hi times the weights of their columns. */
  function Dot(b: RowBlock, w: seq<real>, lo: nat, hi: nat): real
    requires hi <= |b.index| && Columns(b, |w|)
  {
    if lo >= hi then 0.0 else Dot(b, w, lo, hi - 1) + w[b.index[hi - 1]] * ValueAt(b, hi - 1)
  }

  /** A block without values is one whose values are all one. */
  lemma {:induction false} OnesUnlessGiven(b: RowBlock, w: seq<real>, lo: nat, hi: nat)
    requires hi <= |b.index| && Columns(b, |w|) && b.value.None?
    ensures Dot(b, w, lo, hi) == Dot(b.(value := Some(seq(|b.index|, _ => 1.0))), w, lo, hi)
  {
    if lo < hi {
      OnesUnlessGiven(b, w, lo, hi - 1);
    }
  }

  /** Every value counts for its own entry, times the weight of the column. */
  lemma {:induction false} OneValue(b: RowBlock, w: seq<real>, lo: nat, hi: nat, j: nat, v: real)
    requires hi <= |b.index| && Columns(b, |w|) && b.value.Some? && |b.value.value| == |b.index| && j < |b.index|
    ensures Dot(b.(value := Some(b.value.value[j := v])), w, lo, hi)
         == Dot(b, w, lo, hi) + if lo <= j < hi then w[b.index[j]] * (v - b.value.value[j]) else 0.0
  {
    if lo < hi {
      OneValue(b, w, lo, hi - 1, j, v);
      var x := w[b.index[hi - 1]];
      if j == hi - 1 {
        Difference(x, v, b.value.value[j]);
      }
    }
  }

  lemma Difference(x: real, v: real, u: real)
    ensures x * v == x * u + x * (v - u)
  {
  }

  lemma {:induction false} NoValue(b: RowBlock, w: seq<real>, lo: nat, hi: nat)
    requires hi <= |b.index| && Columns(b, |w|) && b.value == Some(seq(|b.index|, _ => 0.0))
    ensures Dot(b, w, lo, hi) == 0.0
  {
    if lo < hi {
      NoValue(b, w, lo, hi - 1);
    }
  }
}
