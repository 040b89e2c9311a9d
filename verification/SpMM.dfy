/**
 * Multi-threaded sparse matrix times dense matrix. A dense matrix is a
 * sequence of rows of one length; column by column the products are those of
 * the vector case.
 */
module SpMM {
  import opened Arithmetic
  import opened RowBlocks
  import opened SpMV

  type Matrix = seq<seq<real>>

  predicate IsMatrix(x: Matrix, dim: nat) {
    forall i :: 0 <= i < |x| ==> |x[i]| == dim
  }

  function Column(x: Matrix, dim: nat, k: nat): (c: seq<real>)
    requires IsMatrix(x, dim) && k < dim
    ensures |c| == |x|
  {
    seq(|x|, i requires 0 <= i < |x| => x[i][k])
  }

  function Zero(dim: nat): seq<real> {
    seq(dim, _ => 0.0)
  }

  function Plus(a: seq<real>, b: seq<real>, v: real): seq<real>
    requires |a| == |b|
  {
    seq(|a|, k requires 0 <= k < |a| => a[k] + b[k] * v)
  }

  lemma SameVector(a: seq<real>, b: seq<real>)
    requires |a| == |b| && forall k :: 0 <= k < |a| ==> a[k] == b[k]
    ensures a == b
  {
  }

  method AddScaled(a: seq<real>, b: seq<real>, v: real) returns (r: seq<real>)
    requires |a| == |b|
    ensures r == Plus(a, b, v)
  {
    r := a;
    for k := 0 to |a|
      invariant |r| == |a| && forall q :: 0 <= q < |a| ==> r[q] == if q < k then a[q] + b[q] * v else a[q]
    {
      r := r[k := r[k] + b[k] * v];
    }
    SameVector(r, Plus(a, b, v));
  }

  // --------------------------------------------------------------------- y = D x

  /** The rows of x picked by the entries from lo up to hi, added up with their values. */
  function Mix(d: RowBlock, x: Matrix, dim: nat, lo: nat, hi: nat): (r: seq<real>)
    requires hi <= |d.index| && Columns(d, |x|) && IsMatrix(x, dim)
    ensures |r| == dim
  {
    if lo >= hi then Zero(dim) else Plus(Mix(d, x, dim, lo, hi - 1), x[d.index[hi - 1]], ValueAt(d, hi - 1))
  }

  /** Column by column this is the product with a vector. */
  lemma {:induction false} MixAt(d: RowBlock, x: Matrix, dim: nat, lo: nat, hi: nat, k: nat)
    requires hi <= |d.index| && Columns(d, |x|) && IsMatrix(x, dim) && k < dim
    ensures Mix(d, x, dim, lo, hi)[k] == Dot(d, Column(x, dim, k), lo, hi)
  {
    if lo < hi {
      MixAt(d, x, dim, lo, hi - 1, k);
    }
  }

  ghost function RowMix(d: RowBlock, x: Matrix, dim: nat, i: nat): (r: seq<real>)
    requires WellFormed(d) && Columns(d, |x|) && IsMatrix(x, dim) && i < Size(d)
    ensures |r| == dim
  {
    OffsetsInside(d, i + 1);
    Mix(d, x, dim, d.offset[i], d.offset[i + 1])
  }

  /** Adds the entries of one row to a row of zeros. */
  method RowTimes(d: RowBlock, x: Matrix, dim: nat, i: nat) returns (yi: seq<real>)
    requires WellFormed(d) && Columns(d, |x|) && IsMatrix(x, dim) && i < Size(d)
    ensures yi == RowMix(d, x, dim, i)
  {
    OffsetsInside(d, i + 1);
    yi := Zero(dim);
    for j := d.offset[i] to d.offset[i + 1]
      invariant yi == Mix(d, x, dim, d.offset[i], j)
    {
      var v := if d.value.Some? then d.value.value[j] else 1.0;
      yi := AddScaled(yi, x[d.index[j]], v);
    }
  }

  method TimesThread(d: RowBlock, x: Matrix, dim: nat, y: array<seq<real>>, t: nat, nt: nat)
    requires WellFormed(d) && Columns(d, |x|) && IsMatrix(x, dim) && y.Length == Size(d) && t < nt
    requires forall i: nat :: i < y.Length && Owner(Range(0, Size(d)), i, nt) == t ==> y[i] == Zero(dim)
    modifies y
    ensures forall i: nat :: i < y.Length ==>
              y[i] == if Owner(Range(0, Size(d)), i, nt) == t then RowMix(d, x, dim, i) else old(y[i])
  {
    var all := Range(0, Size(d));
    var rg := Segment(all, t, nt);
    hide Columns, Segment, Owner, Mix;
    forall i: nat | Has(rg, i)
      ensures i < y.Length && y[i] == Zero(dim)
    {
      OneOwner(all, i, t, nt);
    }
    var i := rg.begin;
    while i < rg.end
      invariant rg.begin <= i <= rg.end
      invariant forall r: nat :: r < y.Length ==> y[r] == if rg.begin <= r < i then RowMix(d, x, dim, r) else old(y[r])
    {
      if d.offset[i] != d.offset[i + 1] {
        y[i] := RowTimes(d, x, dim, i);
      } else {
        EmptyMix(d, x, dim, i);
      }
      i := i + 1;
    }
    forall i: nat | i < y.Length
      ensures y[i] == if Owner(all, i, nt) == t then RowMix(d, x, dim, i) else old(y[i])
    {
      OneOwner(all, i, t, nt);
    }
  }

  lemma EmptyMix(d: RowBlock, x: Matrix, dim: nat, i: nat)
    requires WellFormed(d) && Columns(d, |x|) && IsMatrix(x, dim) && i < Size(d) && EmptyRow(d, i)
    ensures RowMix(d, x, dim, i) == Zero(dim)
  {
  }

  /**
   * The product of vectors: size is the number of reals in y, and the number of
   * columns is its quotient by the number of rows. Not ok: that number is zero.
   */
  method Times(d: RowBlock, x: Matrix, size: nat, y: array<seq<real>>, nt: nat) returns (ok: bool)
    requires WellFormed(d) && Columns(d, |x|) && y.Length == Size(d) && nt > 0
    requires x != [] && Size(d) > 0 ==> IsMatrix(x, size / Size(d))
    modifies y
    ensures ok <==> x == [] || Size(d) > 0
    ensures x == [] ==> y[..] == old(y[..])
    ensures ok && x != [] ==> forall i: nat :: i < y.Length ==> y[i] == RowMix(d, x, size / Size(d), i)
  {
    hide RowMix, WellFormed, Columns;
    if x == [] {
      return true;
    }
    if Size(d) == 0 {
      return false;
    }
    var dim := size / Size(d);
    TimesBy(d, x, dim, y, nt);
    ok := true;
  }

  /** The product, empty rows included: y is cleared first. An empty x leaves y alone. */
  method TimesBy(d: RowBlock, x: Matrix, dim: nat, y: array<seq<real>>, nt: nat)
    requires WellFormed(d) && Columns(d, |x|) && IsMatrix(x, dim) && y.Length == Size(d) && nt > 0
    modifies y
    ensures x == [] ==> y[..] == old(y[..])
    ensures x != [] ==> forall i: nat :: i < y.Length ==> y[i] == RowMix(d, x, dim, i)
  {
    if x == [] {
      return;
    }
    hide RowMix, Columns, Owner, WellFormed;
    for i := 0 to y.Length
      invariant forall r :: 0 <= r < i ==> y[r] == Zero(dim)
    {
      y[i] := Zero(dim);
    }
    ghost var all := Range(0, Size(d));
    var todo := Threads(nt);
    while todo != {}
      invariant todo <= Threads(nt)
      invariant forall i: nat :: i < y.Length ==>
                  y[i] == if Owner(all, i, nt) in todo then Zero(dim) else RowMix(d, x, dim, i)
    {
      SomeThread(todo);
      var t :| t in todo;
      TimesThread(d, x, dim, y, t, nt);
      todo := todo - {t};
    }
  }

  // ------------------------------------------------------------ y = D' x + p z

  /** Where row e of y starts from. */
  function Start(z: Matrix, p: real, dim: nat, m: nat, e: nat): (r: seq<real>)
    requires IsMatrix(z, dim) && e < m
    ensures |r| == dim
  {
    if |z| == m && p != 0.0 then seq(dim, k requires 0 <= k < dim => z[e][k] * p) else Zero(dim)
  }

  /** Row e of y after the first i rows of D and row i up to entry j. */
  ghost function Gather(d: RowBlock, x: Matrix, dim: nat, s: seq<real>, e: nat, i: nat, j: nat): (r: seq<real>)
    requires WellFormed(d) && |x| == Size(d) && IsMatrix(x, dim) && |s| == dim
    requires i < Size(d) && d.offset[i] <= j <= d.offset[i + 1]
    ensures |r| == dim
  {
    seq(dim, k requires 0 <= k < dim => s[k] + Partial(d, Column(x, dim, k), e, i, j))
  }

  /** Row e of y after the first n rows of D. */
  ghost function Total(d: RowBlock, x: Matrix, dim: nat, s: seq<real>, e: nat, n: nat): (r: seq<real>)
    requires WellFormed(d) && |x| == Size(d) && IsMatrix(x, dim) && |s| == dim && n <= Size(d)
    ensures |r| == dim
  {
    seq(dim, k requires 0 <= k < dim => s[k] + ColDot(d, Column(x, dim, k), e, n))
  }

  lemma GatherEnds(d: RowBlock, x: Matrix, dim: nat, s: seq<real>, e: nat, i: nat)
    requires WellFormed(d) && |x| == Size(d) && IsMatrix(x, dim) && |s| == dim && i < Size(d)
    ensures Gather(d, x, dim, s, e, i, d.offset[i]) == Total(d, x, dim, s, e, i)
    ensures Gather(d, x, dim, s, e, i, d.offset[i + 1]) == Total(d, x, dim, s, e, i + 1)
  {
    hide Partial, ColDot, Column;
    forall k | 0 <= k < dim
      ensures Partial(d, Column(x, dim, k), e, i, d.offset[i]) == ColDot(d, Column(x, dim, k), e, i)
      ensures Partial(d, Column(x, dim, k), e, i, d.offset[i + 1]) == ColDot(d, Column(x, dim, k), e, i + 1)
    {
      PartialEnds(d, Column(x, dim, k), e, i);
    }
  }

  lemma TotalNone(d: RowBlock, x: Matrix, dim: nat, s: seq<real>, e: nat)
    requires WellFormed(d) && |x| == Size(d) && IsMatrix(x, dim) && |s| == dim
    ensures Total(d, x, dim, s, e, 0) == s
  {
  }

  lemma GatherStep(d: RowBlock, x: Matrix, dim: nat, s: seq<real>, e: nat, i: nat, j: nat)
    requires WellFormed(d) && |x| == Size(d) && IsMatrix(x, dim) && |s| == dim
    requires i < Size(d) && d.offset[i] <= j < d.offset[i + 1]
    ensures j < |d.index|
    ensures Gather(d, x, dim, s, e, i, j + 1)
         == if d.index[j] == e then Plus(Gather(d, x, dim, s, e, i, j), x[i], ValueAt(d, j)) else Gather(d, x, dim, s, e, i, j)
  {
    OffsetsInside(d, i + 1);
    hide Partial;
    forall k | 0 <= k < dim
      ensures Partial(d, Column(x, dim, k), e, i, j + 1)
           == Partial(d, Column(x, dim, k), e, i, j) + if d.index[j] == e then x[i][k] * ValueAt(d, j) else 0.0
    {
      PartialStep(d, Column(x, dim, k), e, i, j);
    }
    var before, after := Gather(d, x, dim, s, e, i, j), Gather(d, x, dim, s, e, i, j + 1);
    SameVector(after, if d.index[j] == e then Plus(before, x[i], ValueAt(d, j)) else before);
  }

  /** The entries of row i of D, as far as they fall in the thread's segment. */
  method TransRow(d: RowBlock, x: Matrix, dim: nat, y: array<seq<real>>, rg: Range, i: nat, ghost s: Matrix)
    requires WellFormed(d) && |x| == Size(d) && IsMatrix(x, dim) && i < Size(d)
    requires rg.begin <= rg.end <= y.Length == |s| && IsMatrix(s, dim)
    requires forall e: nat :: Has(rg, e) ==> y[e] == Total(d, x, dim, s[e], e, i)
    modifies y
    ensures forall e: nat :: Has(rg, e) ==> y[e] == Total(d, x, dim, s[e], e, i + 1)
    ensures forall e: nat :: e < y.Length && !Has(rg, e) ==> y[e] == old(y[e])
  {
    forall e: nat | Has(rg, e)
      ensures Gather(d, x, dim, s[e], e, i, d.offset[i]) == Total(d, x, dim, s[e], e, i)
      ensures Gather(d, x, dim, s[e], e, i, d.offset[i + 1]) == Total(d, x, dim, s[e], e, i + 1)
    {
      GatherEnds(d, x, dim, s[e], e, i);
    }
    hide Total, Gather, Plus;
    for j := d.offset[i] to d.offset[i + 1]
      invariant forall e: nat :: Has(rg, e) ==> y[e] == Gather(d, x, dim, s[e], e, i, j)
      invariant forall e: nat :: e < y.Length && !Has(rg, e) ==> y[e] == old(y[e])
    {
      AddEntry(d, x, dim, y, rg, i, j, s);
    }
  }

  /** One entry of row i of D. */
  method AddEntry(d: RowBlock, x: Matrix, dim: nat, y: array<seq<real>>, rg: Range, i: nat, j: nat, ghost s: Matrix)
    requires WellFormed(d) && |x| == Size(d) && IsMatrix(x, dim) && i < Size(d) && d.offset[i] <= j < d.offset[i + 1]
    requires rg.begin <= rg.end <= y.Length == |s| && IsMatrix(s, dim)
    requires forall e: nat :: Has(rg, e) ==> y[e] == Gather(d, x, dim, s[e], e, i, j)
    modifies y
    ensures forall e: nat :: Has(rg, e) ==> y[e] == Gather(d, x, dim, s[e], e, i, j + 1)
    ensures forall e: nat :: e < y.Length && !Has(rg, e) ==> y[e] == old(y[e])
  {
    forall e: nat | Has(rg, e)
      ensures j < |d.index|
      ensures Gather(d, x, dim, s[e], e, i, j + 1)
           == if d.index[j] == e then Plus(Gather(d, x, dim, s[e], e, i, j), x[i], ValueAt(d, j))
              else Gather(d, x, dim, s[e], e, i, j)
    {
      GatherStep(d, x, dim, s[e], e, i, j);
    }
    hide Gather, Plus;
    OffsetsInside(d, i + 1);
    var e := d.index[j];
    if Has(rg, e) {
      var v := if d.value.Some? then d.value.value[j] else 1.0;
      y[e] := AddScaled(y[e], x[i], v);
    }
  }

  method TransThread(d: RowBlock, x: Matrix, dim: nat, y: array<seq<real>>, t: nat, nt: nat, ghost s: Matrix)
    requires WellFormed(d) && |x| == Size(d) && IsMatrix(x, dim) && t < nt && y.Length == |s| && IsMatrix(s, dim)
    requires forall e: nat :: e < y.Length && Owner(Range(0, y.Length), e, nt) == t ==> y[e] == s[e]
    modifies y
    ensures forall e: nat :: e < y.Length ==>
              y[e] == if Owner(Range(0, y.Length), e, nt) == t then Total(d, x, dim, s[e], e, Size(d)) else old(y[e])
  {
    var all := Range(0, y.Length);
    var rg := Segment(all, t, nt);
    hide Segment, Owner, Total;
    forall e: nat | Has(rg, e)
      ensures e < y.Length && y[e] == Total(d, x, dim, s[e], e, 0)
    {
      OneOwner(all, e, t, nt);
      TotalNone(d, x, dim, s[e], e);
    }
    for i := 0 to Size(d)
      invariant forall e: nat :: Has(rg, e) ==> y[e] == Total(d, x, dim, s[e], e, i)
      invariant forall e: nat :: e < y.Length && !Has(rg, e) ==> y[e] == old(y[e])
    {
      if d.offset[i] == d.offset[i + 1] {
        forall e: nat | Has(rg, e)
          ensures Total(d, x, dim, s[e], e, i + 1) == Total(d, x, dim, s[e], e, i)
        {
          GatherEnds(d, x, dim, s[e], e, i);
        }
      } else {
        TransRow(d, x, dim, y, rg, i, s);
      }
    }
    forall e: nat | e < y.Length
      ensures y[e] == if Owner(all, e, nt) == t then Total(d, x, dim, s[e], e, Size(d)) else old(y[e])
    {
      OneOwner(all, e, t, nt);
    }
  }

  /**
   * The transposed product of vectors: size is the number of reals in x, and dim is
   * its quotient by the number of rows. Not ok: that number or dim is zero, by which
   * the number of reals in y is divided.
   */
  method TransTimes(d: RowBlock, x: Matrix, size: nat, p: real, z: Matrix, y: array<seq<real>>, nt: nat) returns (ok: bool)
    requires WellFormed(d) && nt > 0 && (size == 0 <==> x == [])
    requires size >= Size(d) > 0 ==> |x| == Size(d) && IsMatrix(x, size / Size(d)) && IsMatrix(z, size / Size(d))
    modifies y
    ensures ok <==> size == 0 || size >= Size(d) > 0
    ensures size == 0 ==> y[..] == old(y[..])
    ensures ok && size > 0 ==>
              forall e: nat :: e < y.Length ==>
                y[e] == Total(d, x, size / Size(d), Start(z, p, size / Size(d), y.Length, e), e, Size(d))
  {
    hide Total, WellFormed, Start;
    if size == 0 {
      return true;
    }
    if Size(d) == 0 {
      return false;
    }
    var dim := size / Size(d);
    QuotientPositive(size, Size(d));
    if dim == 0 {
      return false;
    }
    TransTimesBy(d, x, dim, p, z, y, nt);
    ok := true;
  }

  /**
   * y = D' x + p z, where z counts only if it has the shape of y and p is not
   * zero. An empty x leaves y alone.
   */
  method TransTimesBy(d: RowBlock, x: Matrix, dim: nat, p: real, z: Matrix, y: array<seq<real>>, nt: nat)
    requires WellFormed(d) && |x| == Size(d) && IsMatrix(x, dim) && IsMatrix(z, dim) && nt > 0
    modifies y
    ensures x == [] ==> y[..] == old(y[..])
    ensures x != [] ==> forall e: nat :: e < y.Length ==>
              y[e] == Total(d, x, dim, Start(z, p, dim, y.Length, e), e, Size(d))
  {
    if x == [] {
      return;
    }
    for e := 0 to y.Length
      invariant forall r :: 0 <= r < e ==> y[r] == Start(z, p, dim, y.Length, r)
    {
      if |z| == y.Length && p != 0.0 {
        y[e] := seq(dim, k requires 0 <= k < dim => z[e][k] * p);
      } else {
        y[e] := Zero(dim);
      }
    }
    ghost var s := y[..];
    assert IsMatrix(s, dim);
    hide Total, Owner, WellFormed, Start;
    ghost var all := Range(0, y.Length);
    var todo := Threads(nt);
    while todo != {}
      invariant todo <= Threads(nt)
      invariant forall e: nat :: e < y.Length ==>
                  y[e] == if Owner(all, e, nt) in todo then s[e] else Total(d, x, dim, s[e], e, Size(d))
    {
      SomeThread(todo);
      var t :| t in todo;
      TransThread(d, x, dim, y, t, nt, s);
      todo := todo - {t};
    }
  }
}
