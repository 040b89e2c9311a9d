/** A whole pass of one rank: Chunk::Load with its doubling buffer, and the loops behind NextChunk and NextRecord. */
module SplitRun {
  import opened Sequences
  import opened Bytes
  import opened RecordIO
  import opened RecordIOCuts
  import opened RecordIOChunk
  import opened SplitRanges
  import opened SplitRecords
  import opened ChunkExtract
  import opened InputSplit
  import opened TextLines

  /** The buffer has at least one word, the tail that is never filled. */
  ghost predicate Buffer(chunk: Chunk)
    reads chunk
  {
    chunk.Valid() && chunk.data.Length == 8 * chunk.words && chunk.words >= 1
  }

  /** data.resize: a larger buffer with the old contents in front. */
  method Resize(chunk: Chunk, words: nat)
    requires Buffer(chunk) && words >= chunk.words
    modifies chunk
    ensures Buffer(chunk) && fresh(chunk.data) && chunk.words == words
    ensures chunk.begin == old(chunk.begin) && chunk.end == old(chunk.end)
    ensures chunk.data[..old(chunk.data.Length)] == old(chunk.data[..])
  {
    var before := chunk.data;
    var data := new byte[8 * words];
    forall i | 0 <= i < before.Length {
      data[i] := before[i];
    }
    chunk.data, chunk.words := data, words;
  }

  /** What one successful load takes off the remaining bytes: a non-empty chunk that ends at the end of the range or at
      a record begin. */
  ghost predicate Loaded(format: Format, all: seq<byte>, chunk: seq<byte>, rest: seq<byte>) {
    chunk != [] && chunk + rest == all && (rest == [] || CutPoint(format, all, |chunk|))
  }

  /** Chunk::Load. The buffer doubles until a record begin lies inside it or the range is exhausted. */
  method Load(split: Split, chunk: Chunk, bufferSize: nat) returns (ok: bool)
    requires split.Valid() && Buffer(chunk)
    modifies split`filePtr, split`fsPos, split`offsetCurr, split`overflow, chunk, chunk.data
    ensures split.Valid() && Buffer(chunk)
    ensures chunk.data == old(chunk.data) || fresh(chunk.data)
    ensures !ok ==> old(split.Remaining()) == [] == split.Remaining()
    ensures ok ==> chunk.begin == 0 && chunk.end + 8 <= chunk.data.Length
    ensures ok ==> Loaded(split.format, old(split.Remaining()), chunk.data[..chunk.end], split.Remaining())
  {
    hide Flatten, Offset, Files, CutPoint;
    ghost var all := split.Remaining();
    if bufferSize + 1 > chunk.words {
      Resize(chunk, bufferSize + 1);
    }
    while true
      invariant split.Valid() && Buffer(chunk) && split.Remaining() == all
      invariant chunk.data == old(chunk.data) || fresh(chunk.data)
      decreases |all| + 8 - 8 * chunk.words
    {
      var n;
      ok, n := FillBuffer(split, chunk, all);
      if !ok {
        return;
      }
      if n == 0 {
        Resize(chunk, 2 * chunk.words);
      } else {
        chunk.begin, chunk.end := 0, n;
        return;
      }
    }
  }

  /** One round of the loop: all but the tail word of the buffer is offered to ReadChunk. */
  method FillBuffer(split: Split, chunk: Chunk, ghost all: seq<byte>) returns (ok: bool, n: nat)
    requires split.Valid() && Buffer(chunk) && split.Remaining() == all
    modifies split`filePtr, split`fsPos, split`offsetCurr, split`overflow, chunk.data
    ensures split.Valid() && n + 8 <= chunk.data.Length
    ensures !ok ==> all == [] == split.Remaining()
    ensures ok && n == 0 ==> split.Remaining() == all && 8 * chunk.words - 8 <= |all|
    ensures ok && n > 0 ==> Loaded(split.format, all, chunk.data[..n], split.Remaining())
  {
    hide Flatten, Offset, Files, CutPoint;
    var size := 8 * (chunk.words - 1);
    ok, n := split.ReadChunk(chunk.data, size);
    if ok && n == 0 {
      assert chunk.data[..0] + split.Remaining() == split.Remaining();
    }
    if !ok {
      n := 0;
    }
  }

  /** NextChunk until it returns false: for every format, input, rank and buffer size the non-empty chunks of a rank
      join to exactly its byte range, and no line of a text runs over from one chunk to the next. */
  method ReadChunks(format: Format, files: seq<seq<byte>>, rank: nat, nsplit: nat, bufferSize: nat)
    returns (ok: bool, chunks: seq<seq<byte>>)
    requires Files(format, files) && rank < nsplit
    ensures ok <==> Point(format, files, nsplit, rank).Some? && Point(format, files, nsplit, rank + 1).Some?
    ensures ok ==> var b, e := Point(format, files, nsplit, rank).value, Point(format, files, nsplit, rank + 1).value;
      && e <= |Flatten(files)|
      && Flatten(chunks) == (if b < e then Flatten(files)[b..e] else [])
    ensures forall i :: 0 <= i < |chunks| ==> chunks[i] != []
    ensures ok && format.Text? ==> AllLines(chunks) == Lines(Flatten(chunks))
  {
    hide Point, Files, CutPoint, Offset, Flatten;
    FlattenNothing<byte>();
    var split := new Split(format, files);
    ok := split.Init(rank, nsplit);
    chunks := [];
    if !ok {
      return;
    }
    var chunk := new Chunk(bufferSize);
    chunks := LoadAll(split, chunk, bufferSize);
  }

  /** Loads until the range is exhausted. */
  method LoadAll(split: Split, chunk: Chunk, bufferSize: nat) returns (chunks: seq<seq<byte>>)
    requires split.Valid() && Buffer(chunk)
    modifies split`filePtr, split`fsPos, split`offsetCurr, split`overflow, chunk, chunk.data
    ensures Flatten(chunks) == old(split.Remaining())
    ensures forall i :: 0 <= i < |chunks| ==> chunks[i] != []
    ensures split.format.Text? ==> AllLines(chunks) == Lines(old(split.Remaining()))
  {
    hide Files, CutPoint, Offset, Flatten, Lines, Loaded;
    FlattenNothing<byte>();
    NoLines();
    ghost var all := split.Remaining();
    chunks := [];
    while true
      invariant split.Valid() && Buffer(chunk) && (chunk.data == old(chunk.data) || fresh(chunk.data))
      invariant Flatten(chunks) + split.Remaining() == all
      invariant forall i :: 0 <= i < |chunks| ==> chunks[i] != []
      invariant split.format.Text? ==> AllLines(chunks) + Lines(split.Remaining()) == Lines(all)
      decreases |split.Remaining()|
    {
      ghost var was := split.Remaining();
      var more := Load(split, chunk, bufferSize);
      if !more {
        return;
      }
      LoadedLines(split.format, was, chunk.data[..chunk.end], split.Remaining());
      AllLinesAppend(chunks, chunk.data[..chunk.end]);
      chunks := Append(chunks, chunk.data[..chunk.end], split.Remaining(), all);
    }
  }

  /** What a load takes off a text is whole lines. */
  lemma LoadedLines(format: Format, all: seq<byte>, chunk: seq<byte>, rest: seq<byte>)
    requires Loaded(format, all, chunk, rest)
    ensures chunk != [] && chunk + rest == all
    ensures format.Text? ==> Lines(all) == Lines(chunk) + Lines(rest)
  {
    LinesJoined(chunk, rest);
    if format.Text? && rest != [] {
      assert all[|chunk| - 1] == chunk[|chunk| - 1];
    }
  }

  /** push_back of a non-empty chunk. */
  method Append(chunks: seq<seq<byte>>, chunk: seq<byte>, ghost rest: seq<byte>, ghost all: seq<byte>)
    returns (chunks': seq<seq<byte>>)
    requires Flatten(chunks) + (chunk + rest) == all && chunk != []
    requires forall i :: 0 <= i < |chunks| ==> chunks[i] != []
    ensures Flatten(chunks') + rest == all
    ensures forall i :: 0 <= i < |chunks'| ==> chunks'[i] != []
    ensures chunks' == chunks + [chunk]
  {
    hide Flatten;
    chunks' := chunks + [chunk];
    FlattenAppend(chunks, chunk);
    assert Flatten(chunks) + (chunk + rest) == Flatten(chunks) + chunk + rest;
  }

  /** Cutting written records at a cut point leaves whole records on both sides. */
  lemma CutRecords(rs: seq<Record>, n: nat) returns (i: nat)
    requires n == |EncodeAll(rs)| || CutPoint(RecordIO, EncodeAll(rs), n)
    ensures i <= |rs| && n <= |EncodeAll(rs)| && n % 4 == 0
    ensures EncodeAll(rs)[..n] == EncodeAll(rs[..i]) && EncodeAll(rs)[n..] == EncodeAll(rs[i..])
  {
    hide EncodeAll, AllWords, IsHead, CountBefore, RecordStart;
    EncodeAllLength(rs);
    if n == |EncodeAll(rs)| {
      i := |rs|;
      assert rs[..i] == rs;
    } else if n == 0 {
      i := 0;
      NoRecords(rs);
    } else {
      HeadIffRecordStart(rs, n / 4);
      StartIsCut(rs, n / 4);
      i := CountBefore(rs, n / 4);
    }
    CutBytes(rs, 0, i);
    NoRecords(rs);
    assert rs[0..i] == rs[..i];
  }

  /** The chunk holds the encoding of `here` and the range still has the encoding of `later`. */
  ghost predicate Holding(split: Split, chunk: Chunk, here: seq<Record>, later: seq<Record>)
    reads split, chunk, chunk.data
  {
    && split.Valid() && split.format == RecordIO && Buffer(chunk)
    && chunk.begin % 4 == 0 && chunk.end % 4 == 0
    && chunk.data[chunk.begin..chunk.end] == EncodeAll(here)
    && split.Remaining() == EncodeAll(later)
  }

  /** ExtractNextRecord on a chunk of whole records. */
  method TakeRecord(split: Split, chunk: Chunk, ghost here: seq<Record>, ghost later: seq<Record>)
    returns (got: bool, rec: seq<byte>)
    requires Holding(split, chunk, here, later)
    modifies chunk`begin, chunk.data
    ensures got <==> here != []
    ensures got ==> rec == here[0] && Holding(split, chunk, here[1..], later)
    ensures !got ==> Holding(split, chunk, here, later)
  {
    hide Flatten, Offset, Files, EncodeAll, ExtractNext, Encode;
    ghost var s := chunk.data[..];
    assert s[chunk.begin..chunk.end] == EncodeAll(here);
    ghost var next := ExtractsFirst(s, chunk.begin, chunk.end, here);
    var r := chunk.ExtractNextRecord();
    if r.Blob? {
      TailSlice(chunk.data[..], s, next, chunk.end);
      assert chunk.data[chunk.begin..chunk.end] == chunk.data[..][next..chunk.end];
      return true, chunk.data[r.dptr..r.dptr + r.size];
    }
    return false, [];
  }

  lemma TailSlice(a: seq<byte>, b: seq<byte>, from: nat, to: nat)
    requires |a| == |b| && from <= to <= |a| && a[from..] == b[from..]
    ensures a[from..to] == b[from..to]
  {
    assert a[from..][..to - from] == b[from..][..to - from];
  }

  /** Load on a range of whole records. */
  method LoadRecords(split: Split, chunk: Chunk, bufferSize: nat, ghost here: seq<Record>, ghost later: seq<Record>)
    returns (ok: bool, ghost here': seq<Record>, ghost later': seq<Record>)
    requires Holding(split, chunk, here, later) && here == []
    modifies split`filePtr, split`fsPos, split`offsetCurr, split`overflow, chunk, chunk.data
    ensures chunk.data == old(chunk.data) || fresh(chunk.data)
    ensures ok <==> later != []
    ensures ok ==> Holding(split, chunk, here', later') && here' + later' == later && here' != []
  {
    hide Flatten, Offset, Files, EncodeAll, CutPoint;
    ghost var all := split.Remaining();
    ok := Load(split, chunk, bufferSize);
    EmptyRecords(later);
    if ok {
      ghost var part, rest := chunk.data[..chunk.end], split.Remaining();
      assert |all| == |part| + |rest|;
      assert part == all[..chunk.end] && rest == all[chunk.end..];
      ghost var i := CutRecords(later, chunk.end);
      here', later' := later[..i], later[i..];
      EmptyRecords(here');
    } else {
      here', later' := [], [];
    }
  }

  /** InputSplitBase::NextRecord: the next record of the rank, from the chunk or from freshly loaded ones. */
  method NextRecord(split: Split, chunk: Chunk, bufferSize: nat, ghost here: seq<Record>, ghost later: seq<Record>)
    returns (got: bool, rec: seq<byte>, ghost here': seq<Record>, ghost later': seq<Record>)
    requires Holding(split, chunk, here, later)
    modifies split`filePtr, split`fsPos, split`offsetCurr, split`overflow, chunk, chunk.data
    ensures chunk.data == old(chunk.data) || fresh(chunk.data)
    ensures got <==> here + later != []
    ensures got ==> Holding(split, chunk, here', later') && [rec] + here' + later' == here + later
  {
    hide Holding;
    here', later' := here, later;
    while true
      invariant Holding(split, chunk, here', later') && here' + later' == here + later
      invariant chunk.data == old(chunk.data) || fresh(chunk.data)
      decreases |later'|
    {
      got, rec := TakeRecord(split, chunk, here', later');
      if got {
        here' := here'[1..];
        return;
      }
      var ok;
      ghost var was := later';
      ok, here', later' := LoadRecords(split, chunk, bufferSize, here', later');
      if !ok {
        return;
      }
      assert here' + later' == was;
    }
  }

  /** NextRecord until it returns false, on files of written records: each rank gets exactly its records, in order,
      whatever the number of ranks and the buffer size. */
  method ReadRecords(files: seq<seq<byte>>, rank: nat, nsplit: nat, bufferSize: nat, ghost recs: seq<seq<Record>>)
    returns (ok: bool, out: seq<seq<byte>>)
    requires Files(RecordIO, files) && Written(files, recs) && rank < nsplit
    ensures ok && out == RankRecords(Flatten(recs), nsplit, rank)
  {
    hide Point, Files, Offset, Flatten, RankRecords, EncodeAll, RankBytes, Written, Tiles;
    ghost var mine := RankRecords(Flatten(recs), nsplit, rank);
    var split := new Split(RecordIO, files);
    ok := split.Init(rank, nsplit);
    RankRange(files, recs, nsplit, rank);
    out := [];
    ghost var here: seq<Record>, later := [], mine;
    var chunk := new Chunk(bufferSize);
    EmptyEncoding();
    assert Holding(split, chunk, here, later);
    while true
      invariant Holding(split, chunk, here, later)
      invariant fresh(chunk) && fresh(chunk.data) && fresh(split)
      invariant ok && out + (here + later) == mine
      decreases |here| + |later|
    {
      hide Holding;
      var got, rec;
      ghost var was := here + later;
      got, rec, here, later := NextRecord(split, chunk, bufferSize, here, later);
      if !got {
        return;
      }
      OneMore(out, rec, here, later);
      out := out + [rec];
    }
  }

  lemma RankRange(files: seq<seq<byte>>, recs: seq<seq<Record>>, nsplit: nat, rank: nat)
    requires Files(RecordIO, files) && Written(files, recs) && rank < nsplit
    ensures var p, q := Point(RecordIO, files, nsplit, rank), Point(RecordIO, files, nsplit, rank + 1);
      && p.Some? && q.Some? && p.value <= q.value <= |Flatten(files)|
      && Flatten(files)[p.value..q.value] == EncodeAll(RankRecords(Flatten(recs), nsplit, rank))
  {
    hide Point, RankRecords, EncodeAll;
    RankBytesAreRecords(files, recs, nsplit, rank);
    assert RangeInOrder(RecordIO, files, nsplit, rank);
    PointInside(RecordIO, files, nsplit, rank + 1);
    FlattenLength(files);
  }

  lemma OneMore(out: seq<seq<byte>>, rec: seq<byte>, here: seq<Record>, later: seq<Record>)
    ensures out + ([rec] + here + later) == (out + [rec]) + (here + later)
  {
  }

  lemma EmptyEncoding()
    ensures EncodeAll([]) == []
  {
  }

  lemma FirstRecord(rs: seq<Record>)
    requires rs != []
    ensures EncodeAll(rs) == Encode(rs[0]) + EncodeAll(rs[1..])
    ensures |Encode(rs[0])| % 4 == 0 && |Encode(rs[0])| > 0
  {
    hide Encode;
  }

  lemma EmptyRecords(rs: seq<Record>)
    ensures EncodeAll(rs) == [] <==> rs == []
  {
  }

  /** Taking a record out of a window that holds whole written records. */
  lemma ExtractsFirst(s: seq<byte>, pos: nat, limit: nat, rs: seq<Record>) returns (next: nat)
    requires pos <= limit <= |s| && pos % 4 == 0 && limit % 4 == 0 && s[pos..limit] == EncodeAll(rs)
    ensures rs == [] ==> ExtractNext(s, pos, limit) == NoRecord
    ensures rs != [] ==>
              && pos < next <= limit && next % 4 == 0
              && ExtractNext(s, pos, limit) == Rec(rs[0], next) && s[next..limit] == EncodeAll(rs[1..])
  {
    hide ExtractNext, Encode, EncodeAll, EscapeWords;
    next := pos;
    EmptyRecords(rs);
    if rs == [] {
      assert |s[pos..limit]| == 0;
      ExtractsNothing(s, pos);
    } else {
      var e, rest := Encode(rs[0]), EncodeAll(rs[1..]);
      FirstRecord(rs);
      DecodersUndoEncode(s, pos, limit, rs[0], rest);
      next := pos + |e|;
      AfterFirst(s, pos, limit, e, rest);
      SumOfFours(pos, |e|);
    }
  }

  lemma AfterFirst(s: seq<byte>, pos: nat, limit: nat, e: seq<byte>, rest: seq<byte>)
    requires pos <= limit <= |s| && s[pos..limit] == e + rest
    ensures pos + |e| <= limit && s[pos + |e|..limit] == rest
  {
    assert |s[pos..limit]| == |e| + |rest|;
    assert s[pos + |e|..limit] == s[pos..limit][|e|..];
  }

  lemma SumOfFours(a: nat, b: nat)
    requires a % 4 == 0 && b % 4 == 0
    ensures (a + b) % 4 == 0
  {
  }

  lemma ExtractsNothing(s: seq<byte>, pos: nat)
    requires pos <= |s|
    ensures ExtractNext(s, pos, pos) == NoRecord
  {
  }
}
