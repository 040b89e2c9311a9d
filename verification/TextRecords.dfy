/** The records of a text input, one line at a time out of the chunks, with the string ends that are written into them. */
module TextRecords {
  import opened Sequences
  import opened Options
  import opened Bytes
  import opened SplitRanges
  import opened ChunkExtract
  import opened InputSplit
  import opened SplitRun
  import opened TextLines

  /** How many line ends the text begins with. */
  function EndsInFront(s: seq<byte>): (n: nat)
    ensures n <= |s| && (n < |s| ==> !LineEnds(s[n]))
    ensures forall i :: 0 <= i < n ==> LineEnds(s[i])
  {
    if s == [] || !LineEnds(s[0]) then 0 else 1 + EndsInFront(s[1..])
  }

  /** A record is a line with all the line ends behind it. */
  function RecordLength(s: seq<byte>): (n: nat)
    requires s != []
    ensures 0 < n <= |s| && LineLength(s) <= n && (n < |s| ==> LineLength(s) < n && !LineEnds(s[n]))
    ensures forall i :: LineLength(s) <= i < n ==> LineEnds(s[i])
  {
    var k := LineLength(s);
    var rest := s[k..];
    assert forall i :: 0 <= i < |rest| ==> rest[i] == s[k + i];
    assert forall i :: k <= i < |s| ==> s[i] == rest[i - k];
    k + EndsInFront(rest)
  }

  /** A record that something follows ends in a zero byte instead of its last line end. */
  function Closed(rec: seq<byte>, more: bool): (r: seq<byte>)
    requires rec != []
    ensures |r| == |rec|
  {
    if more then rec[..|rec| - 1] + [0] else rec
  }

  /** Where the two searches stop. */
  lemma RecordLengthIs(s: seq<byte>, k: nat, n: nat)
    requires k <= n <= |s| && s != []
    requires (forall i :: 0 <= i < k ==> !LineEnds(s[i])) && (k < |s| ==> LineEnds(s[k]))
    requires (forall i :: k <= i < n ==> LineEnds(s[i])) && (n < |s| ==> !LineEnds(s[n]))
    ensures LineLength(s) == k && RecordLength(s) == n
  {
    assert LineLength(s) == k;
    var rest := s[k..];
    assert forall i :: 0 <= i < |rest| ==> rest[i] == s[k + i];
    assert EndsInFront(rest) == n - k;
  }

  /** The searches of the loops: the first line end, and then the first byte that is none. */
  method FindRecordEnd(data: array<byte>, begin: nat, end: nat) returns (p: nat)
    requires begin < end <= data.Length
    ensures begin < p <= end && p == begin + RecordLength(data[begin..end])
  {
    p := begin;
    while p != end
      invariant begin <= p <= end && forall i :: begin <= i < p ==> !LineEnds(data[i])
    {
      if LineEnds(data[p]) {
        break;
      }
      p := p + 1;
    }
    ghost var k := p;
    while p != end
      invariant k <= p <= end && forall i :: k <= i < p ==> LineEnds(data[i])
    {
      if !LineEnds(data[p]) {
        break;
      }
      p := p + 1;
    }
    RecordLengthIs(data[begin..end], k - begin, p - begin);
  }

  /** The zero byte that ends the record at p, or the text behind the window. */
  method PutStringEnd(data: array<byte>, begin: nat, end: nat, p: nat)
    requires begin < p <= end < data.Length
    modifies data
    ensures data[begin..p] == Closed(old(data[begin..end])[..p - begin], p < end)
    ensures data[p..end] == old(data[begin..end])[p - begin..]
  {
    ghost var s := data[..];
    if p == end {
      data[p] := 0;
    } else {
      data[p - 1] := 0;
    }
    StringEnd(s, data[..], begin, end, p);
    hide Closed;
    assert s[begin..end] == old(data[begin..end]);
    assert data[..][begin..p] == data[begin..p] && data[..][p..end] == data[p..end];
  }

  /** LineSplitter::ExtractNextRecord. The string end goes into the record, or behind the window into the tail of the
      buffer; what is still to be read is left alone. */
  method ExtractNextRecord(chunk: Chunk) returns (r: Extracted)
    requires chunk.Valid() && chunk.end < chunk.data.Length
    modifies chunk`begin, chunk.data
    ensures chunk.Valid()
    ensures r.Nothing? <==> old(chunk.begin == chunk.end)
    ensures r.Nothing? ==> chunk.begin == old(chunk.begin) && chunk.data[..] == old(chunk.data[..])
    ensures !r.Nothing? ==>
              var w := old(chunk.data[chunk.begin..chunk.end]);
              var n := RecordLength(w);
              && r == Blob(old(chunk.begin), n) && chunk.begin == r.dptr + n
              && chunk.data[r.dptr..chunk.begin] == Closed(w[..n], n < |w|)
              && chunk.data[chunk.begin..chunk.end] == w[n..]
  {
    if chunk.begin == chunk.end {
      return Nothing;
    }
    var p := FindRecordEnd(chunk.data, chunk.begin, chunk.end);
    hide RecordLength, Closed;
    PutStringEnd(chunk.data, chunk.begin, chunk.end, p);
    r := Blob(chunk.begin, p - chunk.begin);
    chunk.begin := p;
  }

  lemma StringEnd(s: seq<byte>, t: seq<byte>, begin: nat, end: nat, p: nat)
    requires begin < p <= end < |s| && t == s[(if p == end then p else p - 1) := 0]
    ensures t[begin..p] == Closed(s[begin..end][..p - begin], p < end) && t[p..end] == s[begin..end][p - begin..]
  {
    var at := if p == end then p else p - 1;
    InsideSlice(s, begin, p, end);
    SliceUpdated(s, at, begin, p);
    SliceUpdated(s, at, p, end);
    if p < end {
      ClosedIs(s[begin..p]);
    }
  }

  lemma InsideSlice(s: seq<byte>, begin: nat, p: nat, end: nat)
    requires begin <= p <= end <= |s|
    ensures s[begin..end][..p - begin] == s[begin..p] && s[begin..end][p - begin..] == s[p..end]
  {
  }

  lemma SliceUpdated(s: seq<byte>, at: nat, i: nat, j: nat)
    requires at < |s| && i <= j <= |s|
    ensures s[at := 0][i..j] == if i <= at < j then s[i..j][at - i := 0] else s[i..j]
  {
  }

  lemma ClosedIs(rec: seq<byte>)
    requires rec != []
    ensures Closed(rec, true) == rec[|rec| - 1 := 0]
  {
  }

  // ---- what a reader of the records sees ----

  predicate Stops(c: byte) {
    c == 0 || c == 10 || c == 13
  }

  function ShownLength(s: seq<byte>): (n: nat)
    ensures n <= |s| && (n < |s| ==> Stops(s[n]))
    ensures forall i :: 0 <= i < n ==> !Stops(s[i])
  {
    if s == [] || Stops(s[0]) then 0 else 1 + ShownLength(s[1..])
  }

  /** The text of a record up to its string end or line end, unless that is nothing. */
  function Shown(rec: seq<byte>): seq<seq<byte>> {
    if ShownLength(rec) == 0 then [] else [rec[..ShownLength(rec)]]
  }

  function AllShown(recs: seq<seq<byte>>): seq<seq<byte>> {
    if recs == [] then [] else AllShown(recs[..|recs| - 1]) + Shown(recs[|recs| - 1])
  }

  lemma AllShownAppend(recs: seq<seq<byte>>, rec: seq<byte>)
    ensures AllShown(recs + [rec]) == AllShown(recs) + Shown(rec)
  {
    assert (recs + [rec])[..|recs + [rec]| - 1] == recs;
  }

  /** What is shown is the lines; if there was a zero byte, some of it is lost. */
  ghost predicate Told(shown: seq<seq<byte>>, lines: seq<seq<byte>>, zero: bool) {
    if zero then |Flatten(shown)| < |Flatten(lines)| else shown == lines
  }

  lemma {:induction false} FlattenBoth(a: seq<seq<byte>>, b: seq<seq<byte>>)
    ensures Flatten(a + b) == Flatten(a) + Flatten(b)
  {
    if a == [] {
      assert a + b == b;
    } else {
      assert (a + b)[1..] == a[1..] + b;
      FlattenBoth(a[1..], b);
    }
  }

  lemma ToldBoth(a: seq<seq<byte>>, l: seq<seq<byte>>, z: bool, b: seq<seq<byte>>, m: seq<seq<byte>>, y: bool)
    requires Told(a, l, z) && Told(b, m, y)
    ensures Told(a + b, l + m, z || y)
  {
    FlattenBoth(a, b);
    FlattenBoth(l, m);
  }

  lemma {:induction false} NoLineInEnds(s: seq<byte>)
    requires forall i :: 0 <= i < |s| ==> LineEnds(s[i])
    ensures Lines(s) == []
  {
    if s != [] {
      NoLineInEnds(s[1..]);
    }
  }

  /** A line with the line ends behind it. */
  lemma LinesOfRecord(raw: seq<byte>, k: nat)
    requires k <= |raw| && (forall i :: 0 <= i < k ==> !LineEnds(raw[i])) && forall i :: k <= i < |raw| ==> LineEnds(raw[i])
    ensures Lines(raw) == if k == 0 then [] else [raw[..k]]
  {
    NoLineInEnds(raw[k..]);
    if k > 0 {
      assert LineLength(raw) == k;
    }
  }

  /** A text is its first record and the rest. */
  lemma FirstRecord(w: seq<byte>)
    requires w != []
    ensures var n := RecordLength(w); Lines(w) == Lines(w[..n]) + Lines(w[n..])
  {
    var n := RecordLength(w);
    LinesJoined(w[..n], w[n..]);
    hide RecordLength, Lines;
    assert w == w[..n] + w[n..];
  }

  lemma FirstShown(w: seq<byte>)
    requires w != []
    ensures var n := RecordLength(w);
            Told(Shown(Closed(w[..n], n < |w|)), Lines(w[..n]), 0 in w[..n]) && SameText(Closed(w[..n], n < |w|), w[..n])
  {
    var n, k := RecordLength(w), LineLength(w);
    hide RecordLength, LineLength, Lines, Told, Shown;
    var raw, rec := w[..n], Closed(w[..n], n < |w|);
    LinesOfRecord(raw, k);
    ClosedFrom(raw, k, n < |w|);
    ShowsRecord(raw, k, rec);
  }

  lemma ClosedFrom(raw: seq<byte>, k: nat, more: bool)
    requires raw != [] && k <= |raw| && (more ==> k < |raw|) && forall i :: k <= i < |raw| ==> LineEnds(raw[i])
    ensures var rec := Closed(raw, more);
            rec[..k] == raw[..k] && (forall i :: k <= i < |raw| ==> Stops(rec[i])) && SameText(rec, raw)
  {
  }

  lemma ShowsRecord(raw: seq<byte>, k: nat, rec: seq<byte>)
    requires k <= |raw| == |rec| && (forall i :: 0 <= i < k ==> !LineEnds(raw[i])) && forall i :: k <= i < |raw| ==> LineEnds(raw[i])
    requires rec[..k] == raw[..k] && forall i :: k <= i < |raw| ==> Stops(rec[i])
    ensures Told(Shown(rec), if k == 0 then [] else [raw[..k]], 0 in raw)
  {
    var j := ShownLength(rec);
    if k < |rec| {
      assert Stops(rec[k]);
    }
    assert rec[..j] == rec[..k][..j] == raw[..k][..j];
    OneText(rec[..j]);
    OneText(raw[..k]);
    if 0 in raw {
      var i :| 0 <= i < |raw| && raw[i] == 0;
      assert i < k && rec[i] == rec[..k][i] == raw[..k][i];
      assert j <= i;
    } else {
      NoZero(raw, k, rec, j);
    }
  }

  lemma NoZero(raw: seq<byte>, k: nat, rec: seq<byte>, j: nat)
    requires 0 !in raw && j <= k <= |raw| == |rec| && (forall i :: 0 <= i < k ==> !LineEnds(raw[i])) && rec[..k] == raw[..k]
    requires j < |rec| ==> Stops(rec[j])
    ensures j == k
  {
    assert forall i :: 0 <= i < k ==> rec[..k][i] == rec[i] && raw[..k][i] == raw[i];
  }

  lemma OneText(s: seq<byte>)
    ensures Flatten([s]) == s && Flatten<byte>([]) == []
  {
    assert [s][1..] == [];
  }

  // ---- a whole pass ----

  /** The bytes agree, except that some line ends have become zero. */
  ghost predicate SameText(a: seq<byte>, b: seq<byte>) {
    |a| == |b| && forall i :: 0 <= i < |a| ==> a[i] == b[i] || (a[i] == 0 && LineEnds(b[i]))
  }

  ghost predicate Ready(split: Split, chunk: Chunk)
    reads split, chunk
  {
    split.Valid() && split.format.Text? && Buffer(chunk) && chunk.end < chunk.data.Length
  }

  ghost function BytesAhead(split: Split, chunk: Chunk): seq<byte>
    requires Ready(split, chunk)
    reads split, chunk, chunk.data
  {
    chunk.data[chunk.begin..chunk.end] + split.Remaining()
  }

  ghost function LinesAhead(split: Split, chunk: Chunk): seq<seq<byte>>
    requires Ready(split, chunk)
    reads split, chunk, chunk.data
  {
    Lines(chunk.data[chunk.begin..chunk.end]) + Lines(split.Remaining())
  }

  /** What taking a record does to the bytes and the lines ahead. */
  ghost predicate Taken(rec: seq<byte>, raw: seq<byte>, before: seq<byte>, after: seq<byte>, lines: seq<seq<byte>>, lines': seq<seq<byte>>) {
    && raw != [] && raw + after == before && Lines(raw) + lines' == lines
    && SameText(rec, raw) && Told(Shown(rec), Lines(raw), 0 in raw)
  }

  lemma Associates<T>(a: seq<T>, b: seq<T>, c: seq<T>)
    ensures a + (b + c) == (a + b) + c
  {
  }

  lemma TakesRecord(w: seq<byte>, rest: seq<byte>, n: nat, rec: seq<byte>)
    requires w != [] && n == RecordLength(w) && rec == Closed(w[..n], n < |w|)
    ensures Taken(rec, w[..n], w + rest, w[n..] + rest, Lines(w) + Lines(rest), Lines(w[n..]) + Lines(rest))
  {
    hide *;
    FirstRecord(w);
    FirstShown(w);
    var raw, later := w[..n], w[n..];
    assert w == raw + later;
    TakenIs(rec, raw, later, rest, Lines(later), Lines(rest));
  }

  lemma TakenIs(rec: seq<byte>, raw: seq<byte>, later: seq<byte>, rest: seq<byte>, l: seq<seq<byte>>, m: seq<seq<byte>>)
    requires raw != [] && SameText(rec, raw) && Told(Shown(rec), Lines(raw), 0 in raw)
    ensures Taken(rec, raw, (raw + later) + rest, later + rest, (Lines(raw) + l) + m, l + m)
  {
    hide Lines, Told, SameText, Shown;
    Associates(raw, later, rest);
    Associates(Lines(raw), l, m);
  }

  /** InputSplitBase::NextRecord on text. */
  method NextRecord(split: Split, chunk: Chunk, bufferSize: nat) returns (got: bool, rec: seq<byte>, ghost raw: seq<byte>)
    requires Ready(split, chunk)
    modifies split`filePtr, split`fsPos, split`offsetCurr, split`overflow, chunk, chunk.data
    ensures chunk.data == old(chunk.data) || fresh(chunk.data)
    ensures !got ==> old(BytesAhead(split, chunk)) == [] && old(LinesAhead(split, chunk)) == []
    ensures got ==> Ready(split, chunk)
    ensures got ==> Taken(rec, raw, old(BytesAhead(split, chunk)), BytesAhead(split, chunk),
                          old(LinesAhead(split, chunk)), LinesAhead(split, chunk))
  {
    hide Lines, Taken, RecordLength, Closed, Flatten, Files, CutPoint, Loaded, BytesAhead, LinesAhead;
    ghost var before, lines := BytesAhead(split, chunk), LinesAhead(split, chunk);
    while true
      invariant Ready(split, chunk) && (chunk.data == old(chunk.data) || fresh(chunk.data))
      invariant BytesAhead(split, chunk) == before && LinesAhead(split, chunk) == lines
      decreases |split.Remaining()|
    {
      ghost var w, rest := chunk.data[chunk.begin..chunk.end], split.Remaining();
      AheadIs(split, chunk, w, rest);
      var r := ExtractNextRecord(chunk);
      if r.Blob? {
        rec, raw := chunk.data[r.dptr..r.dptr + r.size], w[..RecordLength(w)];
        TakesRecord(w, rest, RecordLength(w), rec);
        AheadIs(split, chunk, w[RecordLength(w)..], rest);
        return true, rec, raw;
      }
      Emptied(w, rest);
      var more := Load(split, chunk, bufferSize);
      if !more {
        NoLines();
        return false, [], [];
      }
      LoadedLines(split.format, rest, chunk.data[..chunk.end], split.Remaining());
      assert chunk.data[chunk.begin..chunk.end] == chunk.data[..chunk.end];
      AheadIs(split, chunk, chunk.data[..chunk.end], split.Remaining());
    }
  }

  lemma AheadIs(split: Split, chunk: Chunk, w: seq<byte>, rest: seq<byte>)
    requires Ready(split, chunk) && chunk.data[chunk.begin..chunk.end] == w && split.Remaining() == rest
    ensures BytesAhead(split, chunk) == w + rest && LinesAhead(split, chunk) == Lines(w) + Lines(rest)
  {
    hide Lines;
  }

  lemma Emptied(w: seq<byte>, rest: seq<byte>)
    requires w == []
    ensures w + rest == rest && Lines(w) + Lines(rest) == Lines(rest)
  {
    NoLines();
    hide Lines;
  }

  /** The records so far, the bytes that they come from and their lines. */
  ghost predicate ReadSoFar(recs: seq<seq<byte>>, done: seq<byte>, lines: seq<seq<byte>>) {
    SameText(Flatten(recs), done) && Told(AllShown(recs), lines, 0 in done)
  }

  lemma ReadNone()
    ensures ReadSoFar([], [], [])
  {
  }

  lemma ReadOneMore(recs: seq<seq<byte>>, done: seq<byte>, lines: seq<seq<byte>>, rec: seq<byte>, raw: seq<byte>)
    requires ReadSoFar(recs, done, lines) && SameText(rec, raw) && Told(Shown(rec), Lines(raw), 0 in raw)
    ensures ReadSoFar(recs + [rec], done + raw, lines + Lines(raw))
  {
    hide Lines, Shown, AllShown, Flatten;
    FlattenAppend(recs, rec);
    AllShownAppend(recs, rec);
    ToldBoth(AllShown(recs), lines, 0 in done, Shown(rec), Lines(raw), 0 in raw);
    hide Told;
  }

  lemma ReadOn(recs: seq<seq<byte>>, done: seq<byte>, lines: seq<seq<byte>>, rec: seq<byte>, raw: seq<byte>,
               before: seq<byte>, after: seq<byte>, l: seq<seq<byte>>, l': seq<seq<byte>>)
    requires ReadSoFar(recs, done, lines) && Taken(rec, raw, before, after, l, l')
    ensures ReadSoFar(recs + [rec], done + raw, lines + Lines(raw)) && |after| < |before|
    ensures done + before == (done + raw) + after && lines + l == (lines + Lines(raw)) + l'
  {
    hide ReadSoFar, SameText, Told, Lines, Shown;
    ReadOneMore(recs, done, lines, rec, raw);
    Associates(done, raw, after);
    Associates(lines, Lines(raw), l');
  }

  lemma ReadOver(recs: seq<seq<byte>>, done: seq<byte>, lines: seq<seq<byte>>, mine: seq<byte>)
    requires ReadSoFar(recs, done, lines) && done + [] == mine && lines + [] == Lines(mine)
    ensures SameText(Flatten(recs), mine) && (AllShown(recs) == Lines(mine) <==> 0 !in mine)
  {
    hide Lines, AllShown, Flatten, SameText;
    assert done + [] == done && lines + [] == lines;
  }

  /**
   * NextRecord until it returns false on text, for every number of ranks and every
   * buffer size: the records join to the range of the rank, with string ends in the
   * place of line ends; and a reader who stops at those sees exactly the lines of
   * the range, in order, if and only if the range has no zero byte of its own.
   */
  method ReadLines(files: seq<seq<byte>>, rank: nat, nsplit: nat, bufferSize: nat) returns (ok: bool, recs: seq<seq<byte>>)
    requires Files(Text, files) && rank < nsplit
    ensures ok && Tiles(Text, files, nsplit)
    ensures SameText(Flatten(recs), RankBytes(Text, files, nsplit, rank))
    ensures AllShown(recs) == Lines(RankBytes(Text, files, nsplit, rank)) <==> 0 !in RankBytes(Text, files, nsplit, rank)
  {
    TextTiles(files, nsplit);
    hide Point, Files, Flatten, Lines, ReadSoFar, BytesAhead, LinesAhead, Tiles, RankBytes;
    ghost var mine := RankBytes(Text, files, nsplit, rank);
    var split := new Split(Text, files);
    ok := split.Init(rank, nsplit);
    TextRange(files, nsplit, rank);
    var chunk := new Chunk(bufferSize);
    recs := [];
    ghost var done: seq<byte>, lines: seq<seq<byte>> := [], [];
    ReadNone();
    StartsWith(split, chunk, mine);
    while true
      invariant Ready(split, chunk) && fresh(chunk) && fresh(chunk.data) && fresh(split)
      invariant ok && done + BytesAhead(split, chunk) == mine && lines + LinesAhead(split, chunk) == Lines(mine)
      invariant ReadSoFar(recs, done, lines)
      decreases |BytesAhead(split, chunk)|
    {
      hide Ready;
      ghost var before, linesBefore, raw := BytesAhead(split, chunk), LinesAhead(split, chunk), [];
      var got, rec;
      got, rec, raw := NextRecord(split, chunk, bufferSize);
      if !got {
        ReadOver(recs, done, lines, mine);
        return;
      }
      ReadOn(recs, done, lines, rec, raw, before, BytesAhead(split, chunk), linesBefore, LinesAhead(split, chunk));
      recs := recs + [rec];
      done, lines := done + raw, lines + Lines(raw);
    }
  }

  lemma StartsWith(split: Split, chunk: Chunk, mine: seq<byte>)
    requires Ready(split, chunk) && chunk.begin == chunk.end && split.Remaining() == mine
    ensures [] + BytesAhead(split, chunk) == mine && [] + LinesAhead(split, chunk) == Lines(mine)
  {
    hide Lines;
    assert chunk.data[chunk.begin..chunk.end] == [];
    NoLines();
  }

  lemma TextRange(files: seq<seq<byte>>, nsplit: nat, rank: nat)
    requires Files(Text, files) && rank < nsplit && Tiles(Text, files, nsplit)
    ensures var p, q := Point(Text, files, nsplit, rank), Point(Text, files, nsplit, rank + 1);
            && p.Some? && q.Some? && p.value <= q.value <= |Flatten(files)|
            && RankBytes(Text, files, nsplit, rank) == Flatten(files)[p.value..q.value]
  {
    hide Point;
    assert RangeInOrder(Text, files, nsplit, rank);
    PointInside(Text, files, nsplit, rank + 1);
    FlattenLength(files);
  }
}
