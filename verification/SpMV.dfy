/**
 * Multi-threaded sparse matrix times vector. Each thread writes only its own
 * segment of the output and reads only the inputs, so the threads are run one
 * after the other here, in any order.
 */
module SpMV {
  import opened RowBlocks

  // --------------------------------------------------------------- the segments

  datatype Range = Range(begin: nat, end: nat)

  /** Where segment number idx of the range begins: a floor over reals. */
  function Cut(r: Range, idx: nat, nparts: nat): int
    requires r.begin <= r.end && nparts > 0
  {
    (r.begin as real + (r.end - r.begin) as real / nparts as real * idx as real).Floor
  }

  function Segment(r: Range, idx: nat, nparts: nat): (s: Range)
    requires r.begin <= r.end && idx < nparts
    ensures r.begin <= s.begin <= s.end <= r.end
  {
    CutsOrdered(r, idx, idx + 1, nparts);
    CutsOrdered(r, idx + 1, nparts, nparts);
    CutEnds(r, nparts);
    CutsOrdered(r, 0, idx, nparts);
    Range(Cut(r, idx, nparts), if idx == nparts - 1 then r.end else Cut(r, idx + 1, nparts))
  }

  predicate Has(r: Range, i: nat) {
    r.begin <= i < r.end
  }

  lemma Scaled(a: real, x: real, y: real)
    requires a >= 0.0 && x <= y
    ensures a * x <= a * y
  {
    assert a * (y - x) >= 0.0;
  }

  lemma CutsOrdered(r: Range, i: nat, j: nat, nparts: nat)
    requires r.begin <= r.end && nparts > 0 && i <= j
    ensures Cut(r, i, nparts) <= Cut(r, j, nparts)
  {
    Scaled((r.end - r.begin) as real / nparts as real, i as real, j as real);
  }

  lemma CutEnds(r: Range, nparts: nat)
    requires r.begin <= r.end && nparts > 0
    ensures Cut(r, 0, nparts) == r.begin && Cut(r, nparts, nparts) == r.end
  {
    var w, n := (r.end - r.begin) as real, nparts as real;
    assert w / n * n == w;
    assert w / n * 0.0 == 0.0;
  }

  /** The segments of all parts tile the range: they follow each other and leave nothing out. */
  lemma SegmentsTile(r: Range, idx: nat, nparts: nat)
    requires r.begin <= r.end && idx < nparts
    ensures Segment(r, 0, nparts).begin == r.begin && Segment(r, nparts - 1, nparts).end == r.end
    ensures idx + 1 < nparts ==> Segment(r, idx, nparts).end == Segment(r, idx + 1, nparts).begin
  {
    CutEnds(r, nparts);
  }

  /** The range is divided evenly: every segment has its share, rounded down, or one more. */
  lemma SegmentEven(r: Range, idx: nat, nparts: nat)
    requires r.begin <= r.end && idx < nparts
    ensures var s, share := Segment(r, idx, nparts), (r.end - r.begin) / nparts;
            share <= s.end - s.begin <= share + 1
  {
    CutEnds(r, nparts);
    CutApart(r, idx, nparts);
    hide Cut;
  }

  lemma CutApart(r: Range, idx: nat, nparts: nat)
    requires r.begin <= r.end && nparts > 0
    ensures var share := (r.end - r.begin) / nparts;
            share <= Cut(r, idx + 1, nparts) - Cut(r, idx, nparts) <= share + 1
  {
    var b, itv := r.begin as real, (r.end - r.begin) as real / nparts as real;
    ShareIs(r.end - r.begin, nparts);
    Onward(b, itv, idx as real, (idx + 1) as real);
    FloorApart(b + itv * idx as real, itv, b + itv * (idx + 1) as real, (r.end - r.begin) / nparts);
  }

  lemma ShareIs(w: nat, n: nat)
    requires n > 0
    ensures (w / n) as real <= w as real / n as real < (w / n) as real + 1.0
  {
    var q, rem := w / n, w % n;
    assert w == q * n + rem;
    assert w as real == q as real * n as real + rem as real;
    QuotientIs(w as real, q as real, n as real, rem as real);
  }

  lemma QuotientIs(w: real, q: real, n: real, rem: real)
    requires n > 0.0 && 0.0 <= rem < n && w == q * n + rem
    ensures q <= w / n < q + 1.0
  {
    var x := w / n;
    assert x * n == w;
    if x < q {
      Below(x, q, n);
    } else if x >= q + 1.0 {
      OneMore(n, q);
      Scaled(n, q + 1.0, x);
    }
  }

  lemma OneMore(n: real, q: real)
    ensures n * (q + 1.0) == q * n + n
  {
  }

  lemma Below(x: real, q: real, n: real)
    requires x < q && n > 0.0
    ensures x * n < q * n
  {
    assert (q - x) * n > 0.0;
  }

  lemma Onward(b: real, itv: real, i: real, j: real)
    requires j == i + 1.0
    ensures b + itv * j == b + itv * i + itv
  {
  }

  lemma FloorApart(a: real, itv: real, c: real, share: int)
    requires share as real <= itv < share as real + 1.0 && c == a + itv
    ensures share <= c.Floor - a.Floor <= share + 1
  {
  }

  /** The part that an index belongs to, searched from part number t down. */
  ghost function OwnerBelow(r: Range, i: nat, t: nat, nparts: nat): (o: nat)
    requires r.begin <= i < r.end && t < nparts && i < Segment(r, t, nparts).end
    ensures o <= t && Has(Segment(r, o, nparts), i)
  {
    if Segment(r, t, nparts).begin <= i then t
    else
      SegmentsTile(r, t, nparts);
      SegmentsTile(r, if t == 0 then 0 else t - 1, nparts);
      OwnerBelow(r, i, t - 1, nparts)
  }

  ghost function Owner(r: Range, i: nat, nparts: nat): (o: nat)
    requires r.begin <= i < r.end && nparts > 0
    ensures o < nparts && Has(Segment(r, o, nparts), i)
  {
    SegmentsTile(r, 0, nparts);
    OwnerBelow(r, i, nparts - 1, nparts)
  }

  /** An index is in the segment of exactly one part. */
  lemma OneOwner(r: Range, i: nat, t: nat, nparts: nat)
    requires r.begin <= r.end && t < nparts
    ensures Has(Segment(r, t, nparts), i) <==> r.begin <= i < r.end && t == Owner(r, i, nparts)
  {
    if Has(Segment(r, t, nparts), i) {
      var o := Owner(r, i, nparts);
      if o < t {
        CutsOrdered(r, o + 1, t, nparts);
      } else if t < o {
        CutsOrdered(r, t + 1, o, nparts);
      }
    }
  }

  // --------------------------------------------------------------------- y = D x

  function Size(d: RowBlock): nat
    requires |d.offset| > 0
  {
    |d.offset| - 1
  }

  ghost function RowDot(d: RowBlock, x: seq<real>, i: nat): real
    requires WellFormed(d) && Columns(d, |x|) && i < Size(d)
  {
    OffsetsInside(d, i + 1);
    Dot(d, x, d.offset[i], d.offset[i + 1])
  }

  predicate EmptyRow(d: RowBlock, i: nat)
    requires |d.offset| > 0 && i < Size(d)
  {
    d.offset[i] == d.offset[i + 1]
  }

  /** What Times leaves in row i: an empty row keeps what was there. */
  ghost function Written(d: RowBlock, x: seq<real>, i: nat, before: real): real
    requires WellFormed(d) && Columns(d, |x|) && i < Size(d)
  {
    if EmptyRow(d, i) then before else RowDot(d, x, i)
  }

  method RowTimes(d: RowBlock, x: seq<real>, i: nat) returns (yi: real)
    requires WellFormed(d) && Columns(d, |x|) && i < Size(d)
    ensures yi == RowDot(d, x, i)
  {
    OffsetsInside(d, i + 1);
    yi := 0.0;
    for j := d.offset[i] to d.offset[i + 1]
      invariant yi == Dot(d, x, d.offset[i], j)
    {
      if d.value.Some? {
        yi := yi + x[d.index[j]] * d.value.value[j];
      } else {
        yi := yi + x[d.index[j]];
      }
    }
  }

  /** One thread: the rows of its segment. */
  method TimesThread(d: RowBlock, x: seq<real>, y: array<real>, t: nat, nt: nat)
    requires WellFormed(d) && Columns(d, |x|) && y.Length == Size(d) && t < nt
    modifies y
    ensures forall i: nat :: i < y.Length ==>
              y[i] == if Owner(Range(0, Size(d)), i, nt) == t then Written(d, x, i, old(y[i])) else old(y[i])
  {
    var all := Range(0, Size(d));
    var rg := Segment(all, t, nt);
    hide RowDot, Columns, Segment, Owner;
    var i := rg.begin;
    while i < rg.end
      invariant rg.begin <= i <= rg.end
      invariant forall r :: 0 <= r < y.Length ==>
                  y[r] == if rg.begin <= r < i then Written(d, x, r, old(y[r])) else old(y[r])
    {
      if d.offset[i] != d.offset[i + 1] {
        y[i] := RowTimes(d, x, i);
      }
      i := i + 1;
    }
    forall i: nat | i < y.Length
      ensures y[i] == if Owner(all, i, nt) == t then Written(d, x, i, old(y[i])) else old(y[i])
    {
      OneOwner(all, i, t, nt);
    }
  }

  lemma SomeThread(todo: set<nat>)
    requires todo != {}
    ensures exists t :: t in todo
  {
  }

  function Threads(nt: nat): set<nat> {
    set t: nat | t < nt && IsThread(t, nt)
  }

  predicate IsThread(t: nat, nt: nat) {
    t < nt
  }

  /** Every row that is not empty gets its product; the result does not depend on the threads. */
  method Times(d: RowBlock, x: seq<real>, y: array<real>, nt: nat)
    requires WellFormed(d) && Columns(d, |x|) && y.Length == Size(d) && nt > 0
    modifies y
    ensures forall i: nat :: i < y.Length ==> y[i] == Written(d, x, i, old(y[i]))
  {
    hide RowDot, Columns, Owner, WellFormed;
    ghost var all := Range(0, Size(d));
    var todo := Threads(nt);
    ghost var was := y[..];
    while todo != {}
      invariant todo <= Threads(nt)
      invariant forall i: nat :: i < y.Length ==>
                  y[i] == if Owner(all, i, nt) in todo then was[i] else Written(d, x, i, was[i])
    {
      SomeThread(todo);
      var t :| t in todo;
      TimesThread(d, x, y, t, nt);
      todo := todo - {t};
    }
  }

  // -------------------------------------------------------------------- y = D' x

  /** The values from lo up to hi that are in column e. */
  function Hits(d: RowBlock, e: nat, lo: nat, hi: nat): real
    requires hi <= |d.index|
  {
    if lo >= hi then 0.0 else Hits(d, e, lo, hi - 1) + if d.index[hi - 1] == e then ValueAt(d, hi - 1) else 0.0
  }

  /** Column e of the first n rows times x. */
  ghost function ColDot(d: RowBlock, x: seq<real>, e: nat, n: nat): real
    requires WellFormed(d) && |x| == Size(d) && n <= Size(d)
  {
    if n == 0 then 0.0
    else
      OffsetsInside(d, n);
      ColDot(d, x, e, n - 1) + x[n - 1] * Hits(d, e, d.offset[n - 1], d.offset[n])
  }

  /** The first i rows and row i up to entry j. */
  ghost function Partial(d: RowBlock, x: seq<real>, e: nat, i: nat, j: nat): real
    requires WellFormed(d) && |x| == Size(d) && i < Size(d) && d.offset[i] <= j <= d.offset[i + 1]
  {
    OffsetsInside(d, i + 1);
    ColDot(d, x, e, i) + x[i] * Hits(d, e, d.offset[i], j)
  }

  lemma Distribute(a: real, b: real, c: real)
    ensures a * (b + c) == a * b + a * c && a * 0.0 == 0.0
  {
  }

  lemma PartialStep(d: RowBlock, x: seq<real>, e: nat, i: nat, j: nat)
    requires WellFormed(d) && |x| == Size(d) && i < Size(d) && d.offset[i] <= j < d.offset[i + 1]
    ensures j < |d.index|
    ensures Partial(d, x, e, i, j + 1) == Partial(d, x, e, i, j) + if d.index[j] == e then x[i] * ValueAt(d, j) else 0.0
  {
    OffsetsInside(d, i + 1);
    hide ColDot;
    Distribute(x[i], Hits(d, e, d.offset[i], j), if d.index[j] == e then ValueAt(d, j) else 0.0);
  }

  lemma PartialEnds(d: RowBlock, x: seq<real>, e: nat, i: nat)
    requires WellFormed(d) && |x| == Size(d) && i < Size(d)
    ensures Partial(d, x, e, i, d.offset[i]) == ColDot(d, x, e, i)
    ensures Partial(d, x, e, i, d.offset[i + 1]) == ColDot(d, x, e, i + 1)
  {
    OffsetsInside(d, i + 1);
    Distribute(x[i], 0.0, 0.0);
  }

  /** The entries of row i, as far as they fall in the thread's segment. */
  method TransRow(d: RowBlock, x: seq<real>, y: array<real>, rg: Range, i: nat)
    requires WellFormed(d) && |x| == Size(d) && i < Size(d) && rg.begin <= rg.end <= y.Length
    requires forall e: nat :: Has(rg, e) ==> y[e] == ColDot(d, x, e, i)
    modifies y
    ensures forall e: nat :: Has(rg, e) ==> y[e] == ColDot(d, x, e, i + 1)
    ensures forall e: nat :: e < y.Length && !Has(rg, e) ==> y[e] == old(y[e])
  {
    forall e: nat | Has(rg, e)
      ensures Partial(d, x, e, i, d.offset[i]) == ColDot(d, x, e, i)
      ensures Partial(d, x, e, i, d.offset[i + 1]) == ColDot(d, x, e, i + 1)
    {
      PartialEnds(d, x, e, i);
    }
    hide ColDot, Partial;
    var xi := x[i];
    for j := d.offset[i] to d.offset[i + 1]
      invariant forall e: nat :: Has(rg, e) ==> y[e] == Partial(d, x, e, i, j)
      invariant forall e: nat :: e < y.Length && !Has(rg, e) ==> y[e] == old(y[e])
    {
      forall e: nat | Has(rg, e)
        ensures j < |d.index|
        ensures Partial(d, x, e, i, j + 1) == Partial(d, x, e, i, j) + if d.index[j] == e then x[i] * ValueAt(d, j) else 0.0
      {
        PartialStep(d, x, e, i, j);
      }
      OffsetsInside(d, i + 1);
      var k := d.index[j];
      if Has(rg, k) {
        if d.value.Some? {
          y[k] := y[k] + xi * d.value.value[j];
        } else {
          y[k] := y[k] + xi;
        }
      }
    }
  }

  /** One thread: clears its segment of y and adds up all rows there. */
  method TransThread(d: RowBlock, x: seq<real>, y: array<real>, t: nat, nt: nat)
    requires WellFormed(d) && |x| == Size(d) && t < nt
    modifies y
    ensures forall e: nat :: e < y.Length ==>
              y[e] == if Owner(Range(0, y.Length), e, nt) == t then ColDot(d, x, e, Size(d)) else old(y[e])
  {
    var all := Range(0, y.Length);
    var rg := Segment(all, t, nt);
    hide Segment, Owner;
    for e := rg.begin to rg.end
      invariant forall r: nat :: r < y.Length ==> y[r] == if rg.begin <= r < e then 0.0 else old(y[r])
    {
      y[e] := 0.0;
    }
    for i := 0 to Size(d)
      invariant forall e: nat :: Has(rg, e) ==> y[e] == ColDot(d, x, e, i)
      invariant forall e: nat :: e < y.Length && !Has(rg, e) ==> y[e] == old(y[e])
    {
      if d.offset[i] == d.offset[i + 1] {
        forall e: nat
          ensures ColDot(d, x, e, i + 1) == ColDot(d, x, e, i)
        {
          PartialEnds(d, x, e, i);
        }
      } else {
        TransRow(d, x, y, rg, i);
      }
    }
    hide ColDot;
    forall e: nat | e < y.Length
      ensures y[e] == if Owner(all, e, nt) == t then ColDot(d, x, e, Size(d)) else old(y[e])
    {
      OneOwner(all, e, t, nt);
    }
  }

  /** Every column gets its product, whatever was in y before. */
  method TransTimes(d: RowBlock, x: seq<real>, y: array<real>, nt: nat)
    requires WellFormed(d) && |x| == Size(d) && nt > 0
    modifies y
    ensures forall e: nat :: e < y.Length ==> y[e] == ColDot(d, x, e, Size(d))
  {
    hide ColDot, Owner, WellFormed;
    ghost var all := Range(0, y.Length);
    var todo := Threads(nt);
    while todo != {}
      invariant todo <= Threads(nt)
      invariant forall e: nat :: e < y.Length ==> Owner(all, e, nt) in todo || y[e] == ColDot(d, x, e, Size(d))
    {
      SomeThread(todo);
      var t :| t in todo;
      TransThread(d, x, y, t, nt);
      todo := todo - {t};
    }
  }
}
