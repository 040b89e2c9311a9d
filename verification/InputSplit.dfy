/** InputSplitBase: one rank reading its byte range over several files, chunk by chunk, with an overflow
    buffer for the record that a chunk boundary cuts, and a buffer that doubles until a record fits. */
module InputSplit {
  import opened Sequences
  import opened Options
  import opened Bytes
  import opened RecordIO
  import opened SplitRanges
  import opened SplitRecords
  import opened SplitText

  // ---- SeekRecordBegin ----

  method SeekTextBegin(f: seq<byte>, start: nat) returns (nstep: nat)
    requires start <= |f|
    ensures start + nstep == SeekText(f, start)
    ensures start < |f| ==> NextLine(f, start, start + nstep)
  {
    if start < |f| {
      SeekTextIsNextLine(f, start);
    }
    nstep := 0;
    while true
      invariant start + nstep <= |f| && PastEol(f, start + nstep) == PastEol(f, start)
      decreases |f| - nstep
    {
      if start + nstep == |f| {
        return;
      }
      nstep := nstep + 1;
      if Eol(f[start + nstep - 1]) {
        break;
      }
    }
    while true
      invariant start + nstep <= |f| && SkipEols(f, start + nstep) == SeekText(f, start)
      decreases |f| - nstep
    {
      if start + nstep == |f| {
        return;
      }
      if !Eol(f[start + nstep]) {
        break;
      }
      nstep := nstep + 1;
    }
  }

  method SeekRecordIOBegin(f: seq<byte>, start: nat) returns (ok: bool, nstep: nat)
    requires start <= |f| && start % 4 == 0 && |f| % 4 == 0
    ensures Seek(RecordIO, f, start) == if ok then Some(start + nstep) else None
  {
    hide Word, DecodeFlag;
    nstep := 0;
    ghost var n, w := |f| / 4, start / 4;
    while true
      invariant start + nstep == 4 * w && w <= n
      invariant SeekWord(f, n, w) == SeekWord(f, n, start / 4)
      decreases n - w
    {
      if start + nstep == |f| {
        return true, nstep;
      }
      var v := Word(f, start + nstep);
      nstep := nstep + 4;
      if v == MAGIC {
        if start + nstep == |f| {
          return false, nstep;
        }
        var lrec := Word(f, start + nstep);
        nstep := nstep + 4;
        var cflag := DecodeFlag(lrec);
        if cflag == 0 || cflag == 1 {
          break;
        }
        w := w + 1;
      }
      w := w + 1;
    }
    return true, nstep - 8;
  }

  /** How far the next record begin is from offset start of f; not ok is a failed CHECK. */
  method SeekRecordBegin(format: Format, f: seq<byte>, start: nat) returns (ok: bool, nstep: nat)
    requires start <= |f| && Aligned(format, start) && Aligned(format, |f|)
    ensures Seek(format, f, start) == if ok then Some(start + nstep) else None
  {
    if format.Text? {
      nstep := SeekTextBegin(f, start);
      ok := true;
    } else {
      ok, nstep := SeekRecordIOBegin(f, start);
    }
  }

  // ---- FindLastRecordBegin ----

  /** k is where a buffer may be cut: at 0, at a record head, or just behind an end-of-line. */
  ghost predicate CutPoint(format: Format, b: seq<byte>, k: nat) {
    k == 0 || (k <= |b| && match format
                           case Text => Eol(b[k - 1])
                           case RecordIO => k % 4 == 0 && IsHead(b, k / 4))
  }

  /** The last cut point that the search, which skips the first byte or word, can find. */
  method FindLastRecordBegin(format: Format, b: seq<byte>) returns (k: nat)
    requires b != [] && (format.RecordIO? ==> |b| % 4 == 0 && |b| >= 8)
    ensures k <= |b| && CutPoint(format, b, k)
    ensures format.Text? ==> forall i :: 1 <= i < |b| && k <= i ==> !Eol(b[i])
    ensures format.RecordIO? ==> forall w: nat :: k < 4 * w ==> !IsHead(b, w)
  {
    if format.Text? {
      var p := |b| - 1;
      while p != 0
        invariant 0 <= p < |b|
        invariant forall i :: p < i < |b| ==> !Eol(b[i])
      {
        if Eol(b[p]) {
          return p + 1;
        }
        p := p - 1;
      }
      return 0;
    } else {
      var w := |b| / 4 - 2;
      while w != 0
        invariant 0 <= w && 4 * w + 8 <= |b|
        invariant forall v: nat :: w < v ==> !IsHead(b, v)
      {
        if IsHead(b, w) {
          return 4 * w;
        }
        w := w - 1;
      }
      return 0;
    }
  }

  // ---- locating an offset ----

  /** upper_bound(file_offset, b) - 1: the file holding offset b, or the number of files at the very end. */
  function FileAt(files: seq<seq<byte>>, b: nat): (i: nat)
    requires b <= TotalSize(files) && forall k :: 0 <= k < |files| ==> files[k] != []
    ensures i <= |files| && Offset(files, i) <= b
    ensures i < |files| ==> b < Offset(files, i) + |files[i]|
    ensures i == |files| ==> b == Offset(files, i)
  {
    if files == [] || b < |files[0]| then 0 else 1 + FileAt(files[1..], b - |files[0]|)
  }

  lemma {:induction false} OffsetOfAll(files: seq<seq<byte>>)
    ensures Offset(files, |files|) == TotalSize(files)
  {
    if files != [] {
      OffsetOfAll(files[1..]);
    }
  }

  /** The bytes of file i inside the concatenation. */
  lemma {:induction false} FileInFlat(files: seq<seq<byte>>, i: nat, p: nat, n: nat)
    requires i < |files| && p + n <= |files[i]|
    ensures Offset(files, i) + |files[i]| <= |Flatten(files)|
    ensures files[i][p..p + n] == Flatten(files)[Offset(files, i) + p..Offset(files, i) + p + n]
  {
    if i > 0 {
      FileInFlat(files[1..], i - 1, p, n);
    }
  }

  lemma JoinSlices(s: seq<byte>, a: nat, b: nat, c: nat)
    requires a <= b <= c <= |s|
    ensures s[a..b] + s[b..c] == s[a..c]
  {
  }

  /** How many bytes one read of a file stream returns: some of those asked for, none only at the end of the file. */
  method ShortRead(avail: nat, asked: nat) returns (n: nat)
    requires asked > 0
    ensures n <= avail && n <= asked && (n == 0 <==> avail == 0)
  {
    var some: int := *;
    n := if 0 < some <= Min(avail, asked) then some else Min(avail, asked);
  }

  /** Buffers hold whole pairs of words. */
  predicate Octets(size: nat) {
    size % 8 == 0
  }

  class Split {
    const format: Format
    const files: seq<seq<byte>>
    var filePtr: nat
    var fsPos: nat
    var offsetBegin: nat
    var offsetEnd: nat
    var offsetCurr: nat
    var overflow: seq<byte>

    ghost predicate Valid()
      reads this
    {
      && Files(format, files)
      && (offsetBegin >= offsetEnd ==> overflow == [])
      && (offsetBegin < offsetEnd ==>
            && offsetBegin <= offsetCurr <= offsetEnd <= |Flatten(files)|
            && filePtr < |files| && fsPos <= |files[filePtr]|
            && offsetCurr == Offset(files, filePtr) + fsPos)
    }

    /** The bytes of this rank that have not been handed out yet. */
    ghost function Remaining(): seq<byte>
      reads this
      requires Valid()
    {
      if offsetBegin >= offsetEnd then [] else overflow + Flatten(files)[offsetCurr..offsetEnd]
    }

    constructor (format: Format, files: seq<seq<byte>>)
      requires Files(format, files)
      ensures this.format == format && this.files == files && Valid() && Remaining() == []
    {
      this.format, this.files := format, files;
      filePtr, fsPos, offsetBegin, offsetEnd, offsetCurr, overflow := 0, 0, 0, 0, 0, [];
    }

    /** Computes the range of this rank; not ok is a failed CHECK while looking for its end points. */
    method Init(rank: nat, nsplit: nat) returns (ok: bool)
      requires Valid() && overflow == [] && rank < nsplit
      modifies this
      ensures ok <==> Point(format, files, nsplit, rank).Some? && Point(format, files, nsplit, rank + 1).Some?
      ensures ok ==> Valid() && overflow == []
      ensures ok ==> offsetBegin == Point(format, files, nsplit, rank).value
      ensures ok ==> offsetEnd == Point(format, files, nsplit, rank + 1).value <= |Flatten(files)|
      ensures ok && offsetBegin < offsetEnd ==> Remaining() == Flatten(files)[offsetBegin..offsetEnd]
    {
      hide Nominal, Adjust, Flatten, Offset, TotalSize, Seek, FileAt, Aligned;
      TotalAligned(format, files);
      FlattenLength(files);
      var ntotal := TotalSize(files);
      offsetBegin := Nominal(format, ntotal, nsplit, rank);
      offsetEnd := Nominal(format, ntotal, nsplit, rank + 1);
      offsetCurr := offsetBegin;
      NominalMonotone(format, ntotal, nsplit, rank);
      if offsetBegin == offsetEnd {
        EqualNominals(format, files, nsplit, rank);
        return true;
      }
      ok, offsetEnd := Locate(offsetEnd);
      if !ok {
        return;
      }
      ok, offsetBegin := Locate(offsetBegin);
      if !ok {
        return;
      }
      BeforeFirst();
    }

    /** The exact position for a nominal offset: itself on a file boundary, else the next record begin in that file. */
    method Locate(b: nat) returns (ok: bool, q: nat)
      requires Files(format, files) && b <= TotalSize(files) && Aligned(format, b)
      ensures Adjust(format, files, b) == if ok then Some(q) else None
    {
      hide Flatten, Offset, TotalSize, Seek, FileAt, Aligned, Adjust;
      var i := FileAt(files, b);
      AdjustBoundary(format, files, i);
      if b == Offset(files, i) {
        return true, b;
      }
      var p := b - Offset(files, i);
      AlignedDifference(format, b, Offset(files, i));
      AdjustInFile(format, files, i, p);
      var nstep;
      ok, nstep := SeekRecordBegin(format, files[i], p);
      q := b + nstep;
    }

    /** Goes back to the beginning of the range. */
    method BeforeFirst()
      requires Files(format, files) && (offsetBegin >= offsetEnd ==> overflow == [])
      requires offsetEnd <= |Flatten(files)|
      modifies this`filePtr, this`fsPos, this`offsetCurr, this`overflow
      ensures Valid()
      ensures offsetBegin < offsetEnd ==> overflow == [] && Remaining() == Flatten(files)[offsetBegin..offsetEnd]
      ensures offsetBegin >= offsetEnd ==> overflow == []
    {
      hide Flatten, Offset, TotalSize, FileAt;
      if offsetBegin >= offsetEnd {
        return;
      }
      FlattenLength(files);
      OffsetOfAll(files);
      var fp := FileAt(files, offsetBegin);
      filePtr := fp;
      fsPos := offsetBegin - Offset(files, fp);
      offsetCurr := offsetBegin;
      overflow := [];
      assert Remaining() == Flatten(files)[offsetBegin..offsetEnd];
    }

    /** One read of the current file. */
    method ReadSome(asked: nat) returns (piece: seq<byte>)
      requires Valid() && offsetBegin < offsetEnd && 0 < asked <= offsetEnd - offsetCurr
      modifies this`fsPos, this`offsetCurr
      ensures Valid() && |piece| <= asked && offsetCurr == old(offsetCurr) + |piece|
      ensures piece == Flatten(files)[old(offsetCurr)..offsetCurr]
      ensures piece == [] <==> old(fsPos) == |files[filePtr]|
      ensures piece == [] ==> fsPos == old(fsPos)
    {
      hide Flatten, Offset;
      var n := ShortRead(|files[filePtr]| - fsPos, asked);
      FileInFlat(files, filePtr, fsPos, n);
      piece := files[filePtr][fsPos..fsPos + n];
      fsPos := fsPos + n;
      offsetCurr := offsetCurr + n;
    }

    /** Reads up to size bytes of the range, crossing file boundaries; the underlying stream may return short reads. */
    method Read(size: nat) returns (buf: seq<byte>)
      requires Valid()
      modifies this`filePtr, this`fsPos, this`offsetCurr
      ensures Valid()
      ensures offsetBegin >= offsetEnd ==> buf == [] && offsetCurr == old(offsetCurr)
      ensures offsetBegin < offsetEnd ==>
                && |buf| == Min(size, offsetEnd - old(offsetCurr))
                && offsetCurr == old(offsetCurr) + |buf|
                && buf == Flatten(files)[old(offsetCurr)..offsetCurr]
    {
      hide Flatten, Offset;
      buf := [];
      if offsetBegin >= offsetEnd {
        return;
      }
      var nleft := if offsetCurr + size > offsetEnd then offsetEnd - offsetCurr else size;
      assert buf == Flatten(files)[offsetCurr..offsetCurr];
      if nleft == 0 {
        return;
      }
      ghost var goal := offsetCurr + nleft;
      while true
        invariant Valid() && offsetCurr + nleft == goal && nleft > 0
        invariant old(offsetCurr) <= offsetCurr && buf == Flatten(files)[old(offsetCurr)..offsetCurr]
        decreases nleft, |files| - filePtr
      {
        ghost var from := offsetCurr;
        var piece := ReadSome(nleft);
        var n := |piece|;
        JoinSlices(Flatten(files), old(offsetCurr), from, offsetCurr);
        buf := buf + piece;
        nleft := nleft - n;
        if nleft == 0 {
          break;
        }
        if n == 0 {
          // the check of the source that the offsets agree
          NextFile(files, filePtr, offsetCurr);
          assert offsetCurr == Offset(files, filePtr + 1);
          if filePtr + 1 >= |files| {
            break;
          }
          filePtr := filePtr + 1;
          fsPos := 0;
        }
      }
    }

    /** Fills buf[..size] from the overflow and the range, and cuts the chunk at the last record begin; what lies
        behind the cut becomes the new overflow. Not ok means that the range is exhausted; a chunk of 0 bytes
        means that the buffer is too small. */
    method ReadChunk(buf: array<byte>, size: nat) returns (ok: bool, n: nat)
      requires Valid() && size <= buf.Length && Octets(size)
      modifies this`filePtr, this`fsPos, this`offsetCurr, this`overflow, buf
      ensures Valid()
      ensures !ok ==> old(Remaining()) == [] && Remaining() == []
      ensures ok ==> n <= size && buf[..n] + Remaining() == old(Remaining())
      ensures ok && n == 0 ==> size <= |Remaining()|
      ensures ok ==> n == |old(Remaining())| || CutPoint(format, old(Remaining()), n)
    {
      RemainingFacts();
      hide Valid, Remaining, CutPoint, Octets, Min;
      ghost var all := Remaining();
      if size <= |overflow| {
        CutAtZero(format, all);
        FrontOf(buf[..], all);
        return true, 0;
      }
      n := Gather(buf, size);
      SizeTaken(size, all, buf[..n], Remaining());
      if n == 0 {
        return false, 0;
      }
      n := CutChunk(buf, size, n, all);
      return true, n;
    }

    /** A buffer that is not full is the last chunk; a full one is cut at its last record begin. */
    method CutChunk(buf: array<byte>, size: nat, filled: nat, ghost all: seq<byte>) returns (n: nat)
      requires Valid() && overflow == [] && 0 < filled <= size <= buf.Length && Octets(size) && offsetBegin < offsetEnd
      requires buf[..filled] + Remaining() == all && (filled < size ==> filled == |all|)
      modifies this`overflow
      ensures Valid() && n <= size && buf[..n] + Remaining() == all
      ensures n == 0 ==> size <= |Remaining()|
      ensures n == |all| || CutPoint(format, all, n)
    {
      hide Valid, Remaining, CutPoint, Octets;
      n := filled;
      if filled == size {
        var got := buf[..size];
        n := KeepOverflow(got);
        assert got[..n] == buf[..n];
      }
    }

    /** The overflow comes first, and an empty range has nothing left. */
    lemma RemainingFacts()
      requires Valid()
      ensures |overflow| <= |Remaining()| && (Remaining() != [] ==> offsetBegin < offsetEnd)
    {
    }

    /** Cuts a full buffer at its last record begin and keeps the bytes behind the cut. */
    method KeepOverflow(got: seq<byte>) returns (n: nat)
      requires Valid() && overflow == [] && |got| > 0 && Octets(|got|) && offsetBegin < offsetEnd
      modifies this`overflow
      ensures Valid() && n <= |got|
      ensures got[..n] + Remaining() == got + old(Remaining())
      ensures n == 0 ==> |got| <= |Remaining()|
      ensures CutPoint(format, got + old(Remaining()), n)
    {
      hide Flatten, Offset, Files, CutPoint, Eol, IsHead, Octets;
      Eighth(|got|);
      ghost var rest := Remaining();
      n := FindLastRecordBegin(format, got);
      overflow := got[n..];
      CutPrefix(format, got, rest, n);
      CutInTwo(got, rest, n);
      NoOverflow(Flatten(files)[offsetCurr..offsetEnd]);
    }

    /** The overflow and then bytes of the range, up to size bytes in all. */
    method Gather(buf: array<byte>, size: nat) returns (n: nat)
      requires Valid() && |overflow| < size <= buf.Length
      modifies this`filePtr, this`fsPos, this`offsetCurr, this`overflow, buf
      ensures Valid() && overflow == []
      ensures n == Min(size, |old(Remaining())|)
      ensures buf[..n] + Remaining() == old(Remaining())
    {
      hide Flatten, Offset, Files;
      var front := overflow;
      overflow := [];
      var more := Read(size - |front|);
      n := |front| + |more|;
      Store(buf, front + more);
      if offsetBegin < offsetEnd {
        TakeMore(Flatten(files), front, old(offsetCurr), offsetCurr, offsetEnd);
      }
    }
  }

  /** The size is a multiple of eight, so of the four that the search for a record begin asks for. */
  lemma Eighth(size: nat)
    requires Octets(size)
    ensures size % 4 == 0 && (size > 0 ==> size >= 8)
  {
    var q := 2 * (size / 8);
    assert size == 4 * q;
  }

  method Store(buf: array<byte>, b: seq<byte>)
    requires |b| <= buf.Length
    modifies buf
    ensures buf[..|b|] == b
  {
    forall i | 0 <= i < |b| {
      buf[i] := b[i];
    }
  }

  lemma TakeMore(all: seq<byte>, front: seq<byte>, i: nat, j: nat, k: nat)
    requires i <= j <= k <= |all|
    ensures (front + all[i..j]) + all[j..k] == front + all[i..k]
    ensures |front + all[i..k]| == |front| + (k - i)
  {
    assert all[i..k] == all[i..j] + all[j..k];
  }

  lemma FrontOf(buf: seq<byte>, all: seq<byte>)
    ensures buf[..0] + all == all
  {
  }

  lemma SizeTaken(size: nat, all: seq<byte>, got: seq<byte>, rest: seq<byte>)
    requires got + rest == all && |got| == Min(size, |all|)
    ensures |got| <= size && (|got| == 0 && size > 0 ==> all == [] && rest == [])
    ensures |got| < size ==> |got| == |all|
    ensures |got| > 0 ==> all != []
  {
  }

  lemma NoOverflow(rest: seq<byte>)
    ensures [] + rest == rest
  {
  }

  lemma CutInTwo(got: seq<byte>, rest: seq<byte>, n: nat)
    requires n <= |got|
    ensures got[..n] + (got[n..] + rest) == got + rest
  {
  }

  lemma CutAtZero(format: Format, b: seq<byte>)
    ensures CutPoint(format, b, 0)
  {
  }

  /** A cut point of a prefix is a cut point of the whole. */
  lemma CutPrefix(format: Format, b: seq<byte>, rest: seq<byte>, k: nat)
    requires k <= |b| && CutPoint(format, b, k)
    ensures CutPoint(format, b + rest, k)
  {
  }

  lemma NextFile(files: seq<seq<byte>>, i: nat, curr: nat)
    requires i < |files| && curr == Offset(files, i) + |files[i]|
    ensures curr == Offset(files, i + 1)
    ensures i + 1 == |files| ==> curr == |Flatten(files)|
  {
    OffsetStep(files, i);
    OffsetOfAll(files);
    FlattenLength(files);
  }

  lemma EqualNominals(format: Format, files: seq<seq<byte>>, nsplit: nat, rank: nat)
    requires Files(format, files) && rank < nsplit && Aligned(format, TotalSize(files))
    requires Nominal(format, TotalSize(files), nsplit, rank) == Nominal(format, TotalSize(files), nsplit, rank + 1)
    ensures Point(format, files, nsplit, rank) == Point(format, files, nsplit, rank + 1)
              == Some(Nominal(format, TotalSize(files), nsplit, rank))
  {
    hide Adjust;
    var total := TotalSize(files);
    AdjustTotal(format, files);
    var align := AlignBytes(format);
    var q := (total + nsplit - 1) / nsplit;
    var step := (q + align - 1) / align * align;
    CeilingCovers(total, nsplit);
    CeilingCovers(q, align);
    assert step * (rank + 1) == step * rank + step;
    if total > 0 {
      assert q > 0;
    }
    assert Nominal(format, total, nsplit, rank) == total;
  }
}
