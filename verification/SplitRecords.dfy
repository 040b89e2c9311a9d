/** RecordIO input: exactly when byte ranges tile arbitrary files, and which records each rank gets
    when the files were written by RecordIOWriter. */
module SplitRecords {
  import opened Sequences
  import opened Options
  import opened Bytes
  import opened RecordIO
  import opened RecordIOCuts
  import opened SplitRanges

  // ---- arbitrary files ----

  /** Past its first word the file neither ends in a magic word nor has a magic word right before a record head. */
  ghost predicate Clean(f: seq<byte>, n: nat) {
    && (n >= 2 ==> !MagicAt(f, n - 1))
    && forall w: nat :: 0 < w && MagicAt(f, w) ==> !IsHead(f, w + 1)
  }

  lemma {:induction false} CleanSeek(f: seq<byte>, n: nat, w: nat)
    requires |f| == 4 * n && 0 < w <= n && Clean(f, n)
    ensures SeekWord(f, n, w) == Some(NextHead(f, n, w))
    decreases n - w
  {
    hide Word, DecodeFlag;
    if w < n {
      if w + 1 == n {
        assert !MagicAt(f, w);
        CleanSeek(f, n, w + 1);
      } else if !IsHead(f, w) {
        if MagicAt(f, w) {
          assert !IsHead(f, w + 1);
          CleanSeek(f, n, w + 2);
        } else {
          CleanSeek(f, n, w + 1);
        }
      }
    }
  }

  lemma {:induction false} NextHeadMonotone(f: seq<byte>, n: nat, w: nat, v: nat)
    requires |f| == 4 * n && w <= v <= n
    ensures NextHead(f, n, w) <= NextHead(f, n, v)
    decreases v - w
  {
    hide IsHead;
    if w < v {
      NextHeadMonotone(f, n, w + 1, v);
    }
  }

  lemma CleanOrdered(f: seq<byte>, n: nat)
    requires |f| == 4 * n && Clean(f, n)
    ensures SeekOrdered(RecordIO, f)
  {
    hide SeekWord, NextHead, Clean;
    assert n == |f| / 4;
    forall p: nat, q: nat | 0 < p <= q <= |f| && p % 4 == 0 && q % 4 == 0
      ensures Seek(RecordIO, f, p).Some? && Seek(RecordIO, f, q).Some?
      ensures Seek(RecordIO, f, p).value <= Seek(RecordIO, f, q).value
    {
      CleanSeek(f, n, p / 4);
      CleanSeek(f, n, q / 4);
      NextHeadMonotone(f, n, p / 4, q / 4);
    }
  }

  /** What goes wrong in a file that is not clean: seeking fails, or skips a head that a later seek finds. */
  lemma UncleanSeek(f: seq<byte>, n: nat) returns (w: nat)
    requires |f| == 4 * n && !Clean(f, n)
    ensures 0 < w < n
    ensures var x, y := SeekWord(f, n, w), SeekWord(f, n, w + 1); x.None? || y.None? || x.value > y.value
  {
    hide Word;
    if n >= 2 && MagicAt(f, n - 1) {
      w := n - 1;
    } else {
      w :| 0 < w && MagicAt(f, w) && IsHead(f, w + 1);
      assert DecodeFlag(MAGIC) == 6;
      assert SeekWord(f, n, w) == SeekWord(f, n, w + 2);
    }
  }

  lemma AlignedZero(format: Format)
    ensures Aligned(format, 0)
  {
  }

  /** The offset of file i. */
  function Offset(files: seq<seq<byte>>, i: nat): (o: nat)
    requires i <= |files|
  {
    if i == 0 then 0 else |files[0]| + Offset(files[1..], i - 1)
  }

  lemma {:induction false} OffsetInside(format: Format, files: seq<seq<byte>>, i: nat)
    requires Files(format, files) && i < |files|
    ensures Offset(files, i) + |files[i]| <= TotalSize(files) && Aligned(format, Offset(files, i))
  {
    hide Aligned;
    if i > 0 {
      OffsetInside(format, files[1..], i - 1);
      AlignedSum(format, |files[0]|, Offset(files[1..], i - 1));
    } else {
      AlignedZero(format);
    }
  }

  /** Inside file i, adjusting a nominal offset is seeking in that file alone. */
  lemma {:induction false} AdjustInFile(format: Format, files: seq<seq<byte>>, i: nat, p: nat)
    requires Files(format, files) && i < |files| && 0 < p < |files[i]| && Aligned(format, p)
    ensures Offset(files, i) + p <= TotalSize(files) && Aligned(format, Offset(files, i) + p)
    ensures var q := Seek(format, files[i], p);
      Adjust(format, files, Offset(files, i) + p) == if q.None? then None else Some(Offset(files, i) + q.value)
  {
    hide Seek, TotalSize, Aligned;
    OffsetInside(format, files, i);
    AlignedSum(format, Offset(files, i), p);
    if i > 0 {
      AdjustInFile(format, files[1..], i - 1, p);
    }
  }

  lemma AdjustInFileOrEnd(format: Format, files: seq<seq<byte>>, i: nat, p: nat)
    requires Files(format, files) && i < |files| && 0 < p <= |files[i]| && Aligned(format, p)
    ensures Offset(files, i) + p <= TotalSize(files) && Aligned(format, Offset(files, i) + p)
    ensures p < |files[i]| ==> var q := Seek(format, files[i], p);
      Adjust(format, files, Offset(files, i) + p) == if q.None? then None else Some(Offset(files, i) + q.value)
    ensures p == |files[i]| ==> Adjust(format, files, Offset(files, i) + p) == Some(Offset(files, i) + p)
  {
    hide Seek, Adjust;
    OffsetInside(format, files, i);
    if p < |files[i]| {
      AdjustInFile(format, files, i, p);
    } else {
      AdjustBoundary(format, files, i + 1);
      OffsetStep(files, i);
    }
  }

  lemma {:induction false} OffsetStep(files: seq<seq<byte>>, i: nat)
    requires i < |files|
    ensures Offset(files, i + 1) == Offset(files, i) + |files[i]|
  {
    if i > 0 {
      OffsetStep(files[1..], i - 1);
    }
  }

  lemma {:induction false} AdjustBoundary(format: Format, files: seq<seq<byte>>, i: nat)
    requires Files(format, files) && i <= |files|
    ensures Offset(files, i) <= TotalSize(files) && Aligned(format, Offset(files, i))
    ensures Adjust(format, files, Offset(files, i)) == Some(Offset(files, i))
  {
    hide Seek, Aligned;
    if i > 0 {
      AdjustBoundary(format, files[1..], i - 1);
      AlignedSum(format, |files[0]|, Offset(files[1..], i - 1));
    } else {
      assert Aligned(format, 0) by { AlignedZero(format); }
    }
  }

  /** With one rank per word the nominal offsets are all the multiples of 4. */
  lemma OneWordPerRank(total: nat, words: nat, r: nat)
    requires total == 4 * words && 0 < words && r <= words
    ensures Nominal(RecordIO, total, words, r) == 4 * r
  {
    assert total + words - 1 == 4 * words + (words - 1);
    assert (total + words - 1) / words == 4 by { FourTimes(words); }
  }

  lemma FourTimes(n: nat)
    requires n > 0
    ensures (4 * n + (n - 1)) / n == 4
  {
    var x := 4 * n + (n - 1);
    assert x == x / n * n + x % n;
  }

  lemma UncleanDoesNotTile(files: seq<seq<byte>>, i: nat) returns (nsplit: nat)
    requires Files(RecordIO, files) && i < |files| && !Clean(files[i], |files[i]| / 4)
    ensures nsplit > 0 && !Tiles(RecordIO, files, nsplit)
  {
    hide SeekWord, Adjust, Nominal, Clean, Offset, TotalSize;
    TotalAligned(RecordIO, files);
    var f, n, total := files[i], |files[i]| / 4, TotalSize(files);
    var w := UncleanSeek(f, n);
    OffsetInside(RecordIO, files, i);
    nsplit := total / 4;
    var r := Offset(files, i) / 4 + w;
    assert 4 * r == Offset(files, i) + 4 * w;
    assert r < nsplit;
    OneWordPerRank(total, nsplit, r);
    OneWordPerRank(total, nsplit, r + 1);
    AdjustInFileOrEnd(RecordIO, files, i, 4 * w);
    AdjustInFileOrEnd(RecordIO, files, i, 4 * (w + 1));
    SeekAtEnd(f, n);
    assert !RangeInOrder(RecordIO, files, nsplit, r);
  }

  lemma SeekAtEnd(f: seq<byte>, n: nat)
    requires |f| == 4 * n
    ensures SeekWord(f, n, n) == Some(n)
  {
  }

  /** RecordIO byte ranges tile the input for every number of ranks exactly when every file is clean. */
  lemma RecordIOTilesIff(files: seq<seq<byte>>)
    requires Files(RecordIO, files)
    ensures (forall nsplit: nat :: nsplit > 0 ==> Tiles(RecordIO, files, nsplit)) <==>
            (forall i :: 0 <= i < |files| ==> Clean(files[i], |files[i]| / 4))
  {
    hide Clean, Tiles, SeekOrdered;
    if forall i :: 0 <= i < |files| ==> Clean(files[i], |files[i]| / 4) {
      forall i | 0 <= i < |files|
        ensures SeekOrdered(RecordIO, files[i])
      {
        CleanOrdered(files[i], |files[i]| / 4);
      }
      forall nsplit: nat | nsplit > 0
        ensures Tiles(RecordIO, files, nsplit)
      {
        OrderedTiles(RecordIO, files, nsplit);
      }
    } else {
      var i :| 0 <= i < |files| && !Clean(files[i], |files[i]| / 4);
      var nsplit := UncleanDoesNotTile(files, i);
    }
  }

  /** The concrete failure: the five words 0, magic, magic, 0, 0. Of five ranks, rank 0 reads all 20 bytes
      while rank 2 starts again at byte 8, so the bytes from there on are handed out twice. */
  ghost function DoubledMagicFile(): seq<byte> {
    Zeros(4) + WordBytes(MAGIC) + WordBytes(MAGIC) + Zeros(8)
  }

  lemma DoubledMagicOverlaps()
    ensures Files(RecordIO, [DoubledMagicFile()]) && TotalSize([DoubledMagicFile()]) == 20
    ensures Point(RecordIO, [DoubledMagicFile()], 5, 0) == Some(0)
    ensures Point(RecordIO, [DoubledMagicFile()], 5, 1) == Some(20)
    ensures Point(RecordIO, [DoubledMagicFile()], 5, 2) == Some(8)
    ensures !Tiles(RecordIO, [DoubledMagicFile()], 5)
  {
    hide Tiles, Adjust, SeekWord, Nominal;
    var f := DoubledMagicFile();
    DoubledMagicSeeks();
    assert [f][1..] == [];
    TotalAligned(RecordIO, [f]);
    OneWordPerRank(20, 5, 0);
    OneWordPerRank(20, 5, 1);
    OneWordPerRank(20, 5, 2);
    AdjustBoundary(RecordIO, [f], 0);
    AdjustInFile(RecordIO, [f], 0, 4);
    AdjustInFile(RecordIO, [f], 0, 8);
    OutOfOrder(RecordIO, [f], 5, 1);
  }

  lemma OutOfOrder(format: Format, files: seq<seq<byte>>, nsplit: nat, r: nat)
    requires Files(format, files) && r < nsplit && !RangeInOrder(format, files, nsplit, r)
    ensures !Tiles(format, files, nsplit)
  {
  }

  lemma DoubledMagicSeeks()
    ensures |DoubledMagicFile()| == 20
    ensures SeekWord(DoubledMagicFile(), 5, 1) == Some(5) && SeekWord(DoubledMagicFile(), 5, 2) == Some(2)
  {
    var f := DoubledMagicFile();
    WordOfBytes(MAGIC, []);
    assert f[4..8] == WordBytes(MAGIC) + [] && f[8..12] == WordBytes(MAGIC) + [];
    assert Word(f, 4) == MAGIC && Word(f, 8) == MAGIC && Word(f, 12) == 0 && Word(f, 16) == 0;
    assert DecodeFlag(MAGIC) == 6 && DecodeFlag(0) == 0;
    assert MagicAt(f, 1) && IsHead(f, 2);
    assert SeekWord(f, 5, 4) == Some(5);
    assert SeekWord(f, 5, 3) == Some(5);
  }

  // ---- files of written records ----

  /** In a written file a magic word is never directly before a record head. */
  lemma WrittenClean(rs: seq<Record>)
    ensures |EncodeAll(rs)| == 4 * AllWords(rs)
    ensures Clean(EncodeAll(rs), AllWords(rs))
  {
    hide IsHead, MagicAt, EncodeAll, AllWords;
    EncodeAllLength(rs);
    var s, n := EncodeAll(rs), AllWords(rs);
    if n >= 2 {
      HeadIffRecordStart(rs, n - 1);
    }
    forall w: nat | 0 < w && MagicAt(s, w)
      ensures !IsHead(s, w + 1)
    {
      if IsHead(s, w + 1) {
        HeadIffRecordStart(rs, w + 1);
        MagicBeforeHead(rs, w);
      }
    }
  }

  lemma MagicBeforeHead(rs: seq<Record>, w: nat)
    requires RecordStart(rs, w + 1)
    ensures !MagicAt(EncodeAll(rs), w)
  {
    hide EncodeAll, AllWords, RecordStart, Word;
    StartInside(rs, w + 1);
    StartIsCut(rs, w + 1);
    var i := CountBefore(rs, w + 1);
    CutBytes(rs, 0, i);
    EncodeAllLength(rs[..0]);
    EncodeAllLength(rs[..i]);
    NoRecords(rs);
    assert rs[0..i] == rs[..i];
    HeadIffRecordStart(rs[..i], w);
    var s, t := EncodeAll(rs), EncodeAll(rs[..i]);
    assert t == s[..4 * w + 4];
    if MagicAt(s, w) {
      SameWord(s, t, w);
    }
  }

  lemma SameWord(s: seq<byte>, t: seq<byte>, w: nat)
    requires 4 * w + 4 <= |s| && t == s[..4 * w + 4]
    ensures MagicAt(s, w) == MagicAt(t, w)
  {
  }

  lemma NoRecords(rs: seq<Record>)
    ensures rs[..0] == [] && AllWords(rs[..0]) == 0
  {
  }

  /** A record start is a fixed point of Cut. */
  lemma {:induction false} StartIsCut(rs: seq<Record>, k: int)
    requires RecordStart(rs, k)
    ensures Cut(rs, k) == k
  {
    if k != 0 {
      StartIsCut(rs[1..], k - EscapeWords(rs[0]));
      TakeWords(rs, CountBefore(rs, k));
    }
  }

  lemma WrittenSeek(rs: seq<Record>, k: nat)
    requires 0 < k <= AllWords(rs)
    ensures |EncodeAll(rs)| == 4 * AllWords(rs)
    ensures SeekWord(EncodeAll(rs), AllWords(rs), k) == Some(Cut(rs, k))
  {
    hide Clean, Cut;
    WrittenClean(rs);
    CleanSeek(EncodeAll(rs), AllWords(rs), k);
    NextHeadIsCut(rs, k);
  }

  /** files[i] holds the records recs[i], and no file is empty. */
  ghost predicate Written(files: seq<seq<byte>>, recs: seq<seq<Record>>) {
    && |files| == |recs|
    && forall i :: 0 <= i < |files| ==> recs[i] != [] && files[i] == EncodeAll(recs[i])
  }

  lemma EncodedFile(rs: seq<Record>)
    requires rs != []
    ensures EncodeAll(rs) != [] && |EncodeAll(rs)| % 4 == 0
  {
    assert AllWords(rs) > 0;
    EncodeAllLength(rs);
    hide EncodeAll, AllWords;
  }

  lemma WrittenFiles(files: seq<seq<byte>>, recs: seq<seq<Record>>)
    requires Written(files, recs)
    ensures Files(RecordIO, files)
  {
    hide EncodeAll;
    forall i | 0 <= i < |files|
      ensures files[i] != [] && |files[i]| % 4 == 0
    {
      EncodedFile(recs[i]);
    }
  }

  lemma {:induction false} WrittenTotal(files: seq<seq<byte>>, recs: seq<seq<Record>>)
    requires Written(files, recs)
    ensures Flatten(files) == EncodeAll(Flatten(recs))
    ensures TotalSize(files) == 4 * AllWords(Flatten(recs))
  {
    hide EncodeAll, AllWords;
    if files == [] {
      NoRecords([]);
      EncodeAllLength([]);
    } else {
      WrittenTotal(files[1..], recs[1..]);
      EncodeAllConcat(recs[0], Flatten(recs[1..]));
      EncodeAllLength(recs[0]);
    }
  }

  /** Cuts of a concatenation fall into one of the halves. */
  lemma {:induction false} CountConcat(a: seq<Record>, b: seq<Record>, k: int)
    ensures k <= AllWords(a) ==> CountBefore(a + b, k) == CountBefore(a, k)
    ensures k >= AllWords(a) ==> CountBefore(a + b, k) == |a| + CountBefore(b, k - AllWords(a))
  {
    if a == [] {
      assert a + b == b;
    } else {
      assert (a + b)[1..] == a[1..] + b;
      CountConcat(a[1..], b, k - EscapeWords(a[0]));
    }
  }

  lemma CutInFirst(a: seq<Record>, b: seq<Record>, k: int)
    requires k <= AllWords(a)
    ensures Cut(a + b, k) == Cut(a, k)
  {
    hide AllWords, CountBefore;
    CountConcat(a, b, k);
    PrefixOfFirst(a, b, CountBefore(a, k));
  }

  lemma CutInSecond(a: seq<Record>, b: seq<Record>, k: int)
    requires k >= AllWords(a)
    ensures Cut(a + b, k) == AllWords(a) + Cut(b, k - AllWords(a))
  {
    hide AllWords, CountBefore;
    CountConcat(a, b, k);
    var d := CountBefore(b, k - AllWords(a));
    PrefixOfSecond(a, b, d);
    EncodeAllConcat(a, b[..d]);
  }

  lemma PrefixOfFirst<T>(a: seq<T>, b: seq<T>, c: nat)
    requires c <= |a|
    ensures (a + b)[..c] == a[..c]
  {
  }

  lemma PrefixOfSecond<T>(a: seq<T>, b: seq<T>, d: nat)
    requires d <= |b|
    ensures (a + b)[..|a| + d] == a + b[..d]
  {
  }

  /** Across file boundaries, adjusting word k goes to the first record of the whole input not starting before k. */
  lemma {:induction false} AdjustIsCut(files: seq<seq<byte>>, recs: seq<seq<Record>>, all: seq<Record>, k: nat)
    requires Files(RecordIO, files) && 4 * k <= TotalSize(files)
    requires Written(files, recs) && all == Flatten(recs)
    ensures Adjust(RecordIO, files, 4 * k) == Some(4 * Cut(all, k))
  {
    hide Cut, SeekWord, EncodeAll, AllWords;
    if k == 0 {
      CutZero(all);
    } else {
      var a, b := recs[0], Flatten(recs[1..]);
      EncodeAllLength(a);
      if 4 * k < |files[0]| {
        CutInFirst(a, b, k);
        WrittenSeek(a, k);
      } else {
        CutInSecond(a, b, k);
        AdjustIsCut(files[1..], recs[1..], b, k - AllWords(a));
      }
    }
  }

  lemma CutZero(rs: seq<Record>)
    ensures Cut(rs, 0) == 0
  {
    NoRecords(rs);
  }

  /** The number of records that start before the nominal range of a rank. */
  ghost function RankCut(all: seq<Record>, nsplit: nat, rank: nat): (c: nat)
    requires nsplit > 0
    ensures c <= |all|
  {
    CountBefore(all, Nominal(RecordIO, 4 * AllWords(all), nsplit, rank) / 4)
  }

  lemma RankCutMonotone(all: seq<Record>, nsplit: nat, rank: nat)
    requires nsplit > 0
    ensures RankCut(all, nsplit, rank) <= RankCut(all, nsplit, rank + 1)
  {
    hide Nominal, CountBefore, AllWords;
    var total := 4 * AllWords(all);
    NominalMonotone(RecordIO, total, nsplit, rank);
    CountMonotone(all, Nominal(RecordIO, total, nsplit, rank) / 4, Nominal(RecordIO, total, nsplit, rank + 1) / 4);
  }

  lemma RankCutEnds(all: seq<Record>, nsplit: nat)
    requires nsplit > 0
    ensures RankCut(all, nsplit, 0) == 0 && RankCut(all, nsplit, nsplit) == |all|
  {
    hide Nominal, CountBefore, AllWords;
    NominalEnds(RecordIO, 4 * AllWords(all), nsplit);
    CountZero(all);
    CountAll(all, AllWords(all));
  }

  /** The records of a rank: those that start inside its nominal range. */
  ghost function RankRecords(all: seq<Record>, nsplit: nat, rank: nat): seq<Record>
    requires nsplit > 0
  {
    RankCutMonotone(all, nsplit, rank);
    all[RankCut(all, nsplit, rank)..RankCut(all, nsplit, rank + 1)]
  }

  lemma WrittenTiles(files: seq<seq<byte>>, recs: seq<seq<Record>>, nsplit: nat)
    requires Written(files, recs) && nsplit > 0
    ensures Files(RecordIO, files) && Tiles(RecordIO, files, nsplit)
  {
    hide Clean, Tiles, EncodeAll, AllWords;
    WrittenFiles(files, recs);
    forall i | 0 <= i < |files|
      ensures Clean(files[i], |files[i]| / 4)
    {
      WrittenClean(recs[i]);
    }
    RecordIOTilesIff(files);
  }

  /** The byte range of a rank is the encoding of its records. */
  lemma RankBytesAreRecords(files: seq<seq<byte>>, recs: seq<seq<Record>>, nsplit: nat, rank: nat)
    requires Written(files, recs) && rank < nsplit
    ensures Files(RecordIO, files) && Tiles(RecordIO, files, nsplit)
    ensures RankBytes(RecordIO, files, nsplit, rank) == EncodeAll(RankRecords(Flatten(recs), nsplit, rank))
  {
    hide Nominal, Adjust, EncodeAll, AllWords, CountBefore, TotalSize, Flatten, Tiles, Written;
    WrittenTiles(files, recs, nsplit);
    WrittenTotal(files, recs);
    var all, total := Flatten(recs), TotalSize(files);
    var lo, hi := Nominal(RecordIO, total, nsplit, rank), Nominal(RecordIO, total, nsplit, rank + 1);
    RankCutMonotone(all, nsplit, rank);
    AdjustIsCut(files, recs, all, lo / 4);
    AdjustIsCut(files, recs, all, hi / 4);
    CutBytes(all, CountBefore(all, lo / 4), CountBefore(all, hi / 4));
  }

  /** The records of ranks 0 .. k-1, in rank order. */
  ghost function FirstRanks(all: seq<Record>, nsplit: nat, k: nat): seq<Record>
    requires nsplit > 0
  {
    if k == 0 then [] else FirstRanks(all, nsplit, k - 1) + RankRecords(all, nsplit, k - 1)
  }

  lemma {:induction false} FirstRanksPrefix(all: seq<Record>, nsplit: nat, k: nat)
    requires nsplit > 0
    ensures FirstRanks(all, nsplit, k) == all[..RankCut(all, nsplit, k)]
  {
    hide RankCut;
    if k == 0 {
      RankCutEnds(all, nsplit);
    } else {
      FirstRanksPrefix(all, nsplit, k - 1);
      RankCutMonotone(all, nsplit, k - 1);
    }
  }

  /** Every record goes to exactly one rank, in order, for every number of ranks. */
  lemma RanksCoverRecords(all: seq<Record>, nsplit: nat)
    requires nsplit > 0
    ensures FirstRanks(all, nsplit, nsplit) == all
  {
    hide RankCut, FirstRanks;
    FirstRanksPrefix(all, nsplit, nsplit);
    RankCutEnds(all, nsplit);
  }
}
