/** How InputSplitBase::Init cuts several files into one byte range per rank, for text and for RecordIO,
    and when those ranges tile the input. */
module SplitRanges {
  import opened Sequences
  import opened Arithmetic
  import opened Options
  import opened Bytes
  import opened RecordIO

  datatype Format = Text | RecordIO

  function AlignBytes(format: Format): (a: nat)
    ensures a == 1 || a == 4
  {
    if format.Text? then 1 else 4
  }

  // ---- looking for the beginning of a record inside one file ----

  predicate Eol(c: byte) {
    c == 10 || c == 13
  }

  /** Just after the first end-of-line at or after p. */
  function PastEol(f: seq<byte>, p: nat): (q: nat)
    requires p <= |f|
    ensures p <= q <= |f|
    decreases |f| - p
  {
    if p == |f| then p else if Eol(f[p]) then p + 1 else PastEol(f, p + 1)
  }

  /** Past the run of end-of-line characters at p. */
  function SkipEols(f: seq<byte>, p: nat): (q: nat)
    requires p <= |f|
    ensures p <= q <= |f|
    decreases |f| - p
  {
    if p < |f| && Eol(f[p]) then SkipEols(f, p + 1) else p
  }

  /** LineSplitter::SeekRecordBegin, as an absolute position. */
  function SeekText(f: seq<byte>, p: nat): (q: nat)
    requires p <= |f|
    ensures p <= q <= |f|
  {
    SkipEols(f, PastEol(f, p))
  }

  /** RecordIOSplitter::SeekRecordBegin from word w of n; a header cut off by the end of the file is a failed CHECK.
      A magic word with another flag is skipped together with the word after it. */
  function SeekWord(f: seq<byte>, n: nat, w: nat): (q: Option<nat>)
    requires |f| == 4 * n && w <= n
    ensures q.Some? ==> w <= q.value <= n
    decreases n - w
  {
    if w == n then Some(n)
    else if Word(f, 4 * w) != MAGIC then SeekWord(f, n, w + 1)
    else if w + 1 == n then None
    else if DecodeFlag(Word(f, 4 * (w + 1))) <= 1 then Some(w)
    else SeekWord(f, n, w + 2)
  }

  predicate Aligned(format: Format, p: int) {
    format.RecordIO? ==> p % 4 == 0
  }

  lemma AlignedDifference(format: Format, a: int, b: int)
    requires Aligned(format, a) && Aligned(format, b)
    ensures Aligned(format, a - b)
  {
  }

  lemma AlignedSum(format: Format, a: int, b: int)
    requires Aligned(format, a) && Aligned(format, b)
    ensures Aligned(format, a + b)
  {
  }

  function Seek(format: Format, f: seq<byte>, p: nat): (q: Option<nat>)
    requires p <= |f| && Aligned(format, p) && Aligned(format, |f|)
    ensures q.Some? ==> p <= q.value <= |f| && Aligned(format, q.value)
  {
    match format
    case Text => Some(SeekText(f, p))
    case RecordIO =>
      match SeekWord(f, |f| / 4, p / 4)
      case None => None
      case Some(w) => Some(4 * w)
  }

  // ---- several files ----

  /** Non-empty files whose sizes are multiples of the alignment. */
  ghost predicate Files(format: Format, files: seq<seq<byte>>) {
    forall i :: 0 <= i < |files| ==> files[i] != [] && Aligned(format, |files[i]|)
  }

  function TotalSize(files: seq<seq<byte>>): (n: nat) {
    if files == [] then 0 else |files[0]| + TotalSize(files[1..])
  }

  lemma {:induction false} FlattenLength(files: seq<seq<byte>>)
    ensures |Flatten(files)| == TotalSize(files)
  {
    if files != [] {
      FlattenLength(files[1..]);
    }
  }

  lemma {:induction false} TotalAligned(format: Format, files: seq<seq<byte>>)
    requires Files(format, files)
    ensures Aligned(format, TotalSize(files))
  {
    if files != [] {
      TotalAligned(format, files[1..]);
    }
  }

  /** Where a nominal offset b moves to: unchanged on a file boundary, otherwise the next record begin
      within the same file. */
  ghost function Adjust(format: Format, files: seq<seq<byte>>, b: nat): (q: Option<nat>)
    requires Files(format, files) && b <= TotalSize(files) && Aligned(format, b)
    ensures q.Some? ==> b <= q.value <= TotalSize(files) && Aligned(format, q.value)
  {
    if b == 0 then Some(0)
    else if b < |files[0]| then Seek(format, files[0], b)
    else
      AlignedDifference(format, b, |files[0]|);
      match Adjust(format, files[1..], b - |files[0]|)
      case None => None
      case Some(q) => AlignedSum(format, |files[0]|, q); Some(|files[0]| + q)
  }

  /** The nominal size of a range: the ceiling of total / nsplit, rounded up to the alignment. */
  function Step(format: Format, total: nat, nsplit: nat): (step: nat)
    requires nsplit > 0
  {
    var align := AlignBytes(format);
    var nstep := (total + nsplit - 1) / nsplit;
    (nstep + align - 1) / align * align
  }

  /** The nominal start of a rank. */
  function Nominal(format: Format, total: nat, nsplit: nat, rank: nat): (b: nat)
    requires nsplit > 0 && Aligned(format, total)
    ensures b <= total && Aligned(format, b)
  {
    StepAligned(format, total, nsplit, rank);
    Min(Step(format, total, nsplit) * rank, total)
  }

  lemma StepAligned(format: Format, total: nat, nsplit: nat, i: nat)
    requires nsplit > 0
    ensures Aligned(format, Step(format, total, nsplit) * i)
  {
    var align := AlignBytes(format);
    MultipleOfAlign(format, ((total + nsplit - 1) / nsplit + align - 1) / align, i);
  }

  lemma MultipleOfAlign(format: Format, q: nat, i: nat)
    ensures Aligned(format, q * AlignBytes(format) * i)
  {
    assert q * 4 * i == 4 * (q * i);
  }

  lemma NominalMonotone(format: Format, total: nat, nsplit: nat, rank: nat)
    requires nsplit > 0 && Aligned(format, total)
    ensures Nominal(format, total, nsplit, rank) <= Nominal(format, total, nsplit, rank + 1)
  {
    hide Step;
    var step := Step(format, total, nsplit);
    assert step * (rank + 1) == step * rank + step;
  }

  lemma NominalEnds(format: Format, total: nat, nsplit: nat)
    requires nsplit > 0 && Aligned(format, total)
    ensures Nominal(format, total, nsplit, 0) == 0
    ensures Nominal(format, total, nsplit, nsplit) == total
  {
    StepCovers(format, total, nsplit);
    hide Step;
  }

  lemma StepCovers(format: Format, total: nat, nsplit: nat)
    requires nsplit > 0
    ensures Step(format, total, nsplit) * nsplit >= total
  {
    var align := AlignBytes(format);
    var q := (total + nsplit - 1) / nsplit;
    var step := (q + align - 1) / align * align;
    CeilingCovers(total, nsplit);
    CeilingCovers(q, align);
    Times(q, step, nsplit);
  }

  lemma CeilingCovers(total: nat, n: nat)
    requires n > 0
    ensures (total + n - 1) / n * n >= total
  {
    var t := total + n - 1;
    assert t == t / n * n + t % n;
  }

  /** The end points of the ranges: rank r gets the bytes from Point(r) to Point(r + 1). */
  ghost function Point(format: Format, files: seq<seq<byte>>, nsplit: nat, rank: nat): (q: Option<nat>)
    requires Files(format, files) && nsplit > 0
  {
    TotalAligned(format, files);
    Adjust(format, files, Nominal(format, TotalSize(files), nsplit, rank))
  }

  /** The ranges of the ranks tile the input: they start at 0, follow one another without gap or overlap,
      and end at the last byte. */
  ghost predicate Tiles(format: Format, files: seq<seq<byte>>, nsplit: nat)
    requires Files(format, files) && nsplit > 0
  {
    && Point(format, files, nsplit, 0) == Some(0)
    && Point(format, files, nsplit, nsplit) == Some(TotalSize(files))
    && forall r: nat :: r < nsplit ==> RangeInOrder(format, files, nsplit, r)
  }

  ghost predicate RangeInOrder(format: Format, files: seq<seq<byte>>, nsplit: nat, r: nat)
    requires Files(format, files) && nsplit > 0
  {
    var p, q := Point(format, files, nsplit, r), Point(format, files, nsplit, r + 1);
    p.Some? && q.Some? && p.value <= q.value
  }

  /** Seeking inside f never fails and never moves an earlier offset past a later one. */
  ghost predicate SeekOrdered(format: Format, f: seq<byte>)
    requires Aligned(format, |f|)
  {
    forall p: nat, q: nat :: 0 < p <= q <= |f| && Aligned(format, p) && Aligned(format, q) ==>
      var x, y := Seek(format, f, p), Seek(format, f, q);
      x.Some? && y.Some? && x.value <= y.value
  }

  ghost predicate AllOrdered(format: Format, files: seq<seq<byte>>)
    requires Files(format, files)
  {
    forall i :: 0 <= i < |files| ==> SeekOrdered(format, files[i])
  }

  lemma OrderedPair(format: Format, f: seq<byte>, p: nat, q: nat)
    requires Aligned(format, |f|) && SeekOrdered(format, f)
    requires 0 < p <= q <= |f| && Aligned(format, p) && Aligned(format, q)
    ensures Seek(format, f, p).Some? && Seek(format, f, q).Some?
    ensures Seek(format, f, p).value <= Seek(format, f, q).value
  {
    hide Seek;
  }

  lemma {:induction false} AdjustTotal(format: Format, files: seq<seq<byte>>)
    requires Files(format, files)
    ensures Aligned(format, TotalSize(files))
    ensures Adjust(format, files, TotalSize(files)) == Some(TotalSize(files))
  {
    hide Seek;
    TotalAligned(format, files);
    if files != [] {
      AdjustTotal(format, files[1..]);
    }
  }

  lemma {:induction false} AdjustMonotone(format: Format, files: seq<seq<byte>>, b: nat, e: nat)
    requires Files(format, files) && AllOrdered(format, files)
    requires b <= e <= TotalSize(files) && Aligned(format, b) && Aligned(format, e)
    ensures var x, y := Adjust(format, files, b), Adjust(format, files, e);
      x.Some? && y.Some? && x.value <= y.value
  {
    hide Seek, SeekOrdered, Aligned;
    if b == 0 {
      if e > 0 {
        AdjustDefined(format, files, e);
      }
    } else {
      var n := |files[0]|;
      if e < n {
        OrderedPair(format, files[0], b, e);
      } else if b < n {
        OrderedPair(format, files[0], b, b);
        AdjustDefined(format, files, e);
      } else {
        assert AllOrdered(format, files[1..]);
        AlignedDifference(format, b, n);
        AlignedDifference(format, e, n);
        AdjustMonotone(format, files[1..], b - n, e - n);
      }
    }
  }

  lemma {:induction false} AdjustDefined(format: Format, files: seq<seq<byte>>, b: nat)
    requires Files(format, files) && AllOrdered(format, files)
    requires b <= TotalSize(files) && Aligned(format, b)
    ensures Adjust(format, files, b).Some?
  {
    hide Seek, SeekOrdered;
    if b > 0 {
      if b < |files[0]| {
        OrderedPair(format, files[0], b, b);
      }
      if b >= |files[0]| {
        assert AllOrdered(format, files[1..]);
        AdjustDefined(format, files[1..], b - |files[0]|);
      }
    }
  }

  /** When seeking is ordered in every file, the ranges tile the input for every number of ranks. */
  lemma OrderedTiles(format: Format, files: seq<seq<byte>>, nsplit: nat)
    requires Files(format, files) && nsplit > 0 && AllOrdered(format, files)
    ensures Tiles(format, files, nsplit)
  {
    hide Seek, Nominal, Adjust;
    TotalAligned(format, files);
    var total := TotalSize(files);
    NominalEnds(format, total, nsplit);
    AdjustTotal(format, files);
    AdjustZero(format, files);
    assert Point(format, files, nsplit, 0) == Some(0);
    assert Point(format, files, nsplit, nsplit) == Some(total);
    forall r: nat | r < nsplit
      ensures RangeInOrder(format, files, nsplit, r)
    {
      NominalMonotone(format, total, nsplit, r);
      AdjustMonotone(format, files, Nominal(format, total, nsplit, r), Nominal(format, total, nsplit, r + 1));
    }
  }

  lemma AdjustZero(format: Format, files: seq<seq<byte>>)
    requires Files(format, files)
    ensures Adjust(format, files, 0) == Some(0)
  {
  }

  /** The byte ranges of the first k ranks, joined. */
  ghost function Joined(format: Format, files: seq<seq<byte>>, nsplit: nat, k: nat): seq<byte>
    requires Files(format, files) && 0 <= k <= nsplit && nsplit > 0 && Tiles(format, files, nsplit)
  {
    if k == 0 then []
    else Joined(format, files, nsplit, k - 1) + RankBytes(format, files, nsplit, k - 1)
  }

  ghost function RankBytes(format: Format, files: seq<seq<byte>>, nsplit: nat, rank: nat): seq<byte>
    requires Files(format, files) && rank < nsplit && Tiles(format, files, nsplit)
  {
    FlattenLength(files);
    assert RangeInOrder(format, files, nsplit, rank);
    var p, q := Point(format, files, nsplit, rank), Point(format, files, nsplit, rank + 1);
    Flatten(files)[p.value..q.value]
  }

  lemma {:induction false} JoinedPrefix(format: Format, files: seq<seq<byte>>, nsplit: nat, k: nat)
    requires Files(format, files) && 0 <= k <= nsplit && nsplit > 0 && Tiles(format, files, nsplit)
    ensures |Flatten(files)| == TotalSize(files)
    ensures Point(format, files, nsplit, k).Some? && Point(format, files, nsplit, k).value <= TotalSize(files)
    ensures Joined(format, files, nsplit, k) == Flatten(files)[..Point(format, files, nsplit, k).value]
  {
    hide Point;
    FlattenLength(files);
    PointInside(format, files, nsplit, k);
    if k > 0 {
      JoinedPrefix(format, files, nsplit, k - 1);
      assert RangeInOrder(format, files, nsplit, k - 1);
    }
  }

  lemma PointInside(format: Format, files: seq<seq<byte>>, nsplit: nat, k: nat)
    requires Files(format, files) && nsplit > 0
    ensures Point(format, files, nsplit, k).Some? ==> Point(format, files, nsplit, k).value <= TotalSize(files)
  {
  }

  /** Tiling at byte level: the ranks' bytes, in rank order, are the input. */
  lemma TilesJoin(format: Format, files: seq<seq<byte>>, nsplit: nat)
    requires Files(format, files) && nsplit > 0 && Tiles(format, files, nsplit)
    ensures Joined(format, files, nsplit, nsplit) == Flatten(files)
  {
    hide Point;
    JoinedPrefix(format, files, nsplit, nsplit);
  }

  // ---- text ----

  lemma {:induction false} PastEolMonotone(f: seq<byte>, p: nat, q: nat)
    requires p <= q <= |f|
    ensures SeekText(f, p) <= SeekText(f, q)
    decreases |f| - p
  {
    if p < q {
      if Eol(f[p]) {
        // both ends lie behind the same run of end-of-line characters, or q lies behind it
        RunEnd(f, p + 1, q);
      } else {
        PastEolMonotone(f, p + 1, q);
      }
    }
  }

  lemma {:induction false} RunEnd(f: seq<byte>, p: nat, q: nat)
    requires p <= q <= |f|
    ensures SkipEols(f, p) <= SkipEols(f, PastEol(f, q))
    decreases |f| - p
  {
    if p < |f| && Eol(f[p]) && p < q {
      RunEnd(f, p + 1, q);
    }
  }

  /** Text ranges tile the input for every number of ranks, whatever the bytes. */
  lemma TextTiles(files: seq<seq<byte>>, nsplit: nat)
    requires nsplit > 0 && forall i :: 0 <= i < |files| ==> files[i] != []
    ensures Tiles(Text, files, nsplit)
  {
    hide SeekText;
    forall i | 0 <= i < |files|
      ensures SeekOrdered(Text, files[i])
    {
      var f := files[i];
      forall p: nat, q: nat | 0 < p <= q <= |f|
        ensures SeekText(f, p) <= SeekText(f, q)
      {
        PastEolMonotone(f, p, q);
      }
    }
    OrderedTiles(Text, files, nsplit);
  }
}
