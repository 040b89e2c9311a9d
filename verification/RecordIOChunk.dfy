/** Decoding records out of a chunk of memory: RecordIOChunkReader, which copies escaped records out,
    and RecordIOSplitter::ExtractNextRecord, which rejoins them in place. */
module RecordIOChunk {
  import opened Arithmetic
  import opened Bytes
  import opened RecordIO
  import opened RecordIOCuts
  import Stream = RecordIOStream

  /** Bad stands for a failed CHECK, or for a read outside the memory of the chunk. */
  datatype Decoded = NoRecord | Rec(data: seq<byte>, next: nat) | Bad

  /** The parts from pos on, up to and including one with flag 3; acc holds what came before. */
  function MoreParts(s: seq<byte>, pos: nat, limit: nat, acc: seq<byte>): (r: Decoded)
    requires limit <= |s|
    ensures !r.NoRecord? && (r.Rec? ==> pos < r.next)
    decreases limit - pos
  {
    if pos + 8 > limit || Word(s, pos) != MAGIC then Bad
    else
      var cflag, len := DecodeFlag(Word(s, pos + 4)), DecodeLength(Word(s, pos + 4));
      if pos + 8 + len > |s| then Bad
      else
        var data := acc + s[pos + 8..pos + 8 + len];
        var next := pos + 8 + UpperAlign(len);
        if cflag == 3 then Rec(data, next) else MoreParts(s, next, limit, data + WordBytes(MAGIC))
  }

  /** RecordIOChunkReader::NextRecord on the bytes [pos, limit) of s. */
  function ReadNext(s: seq<byte>, pos: nat, limit: nat): (r: Decoded)
    requires limit <= |s|
  {
    if pos >= limit then NoRecord
    else if pos + 8 > |s| || Word(s, pos) != MAGIC then Bad
    else
      var cflag, len := DecodeFlag(Word(s, pos + 4)), DecodeLength(Word(s, pos + 4));
      var next := pos + 8 + UpperAlign(len);
      if cflag == 0 then
        if next > limit then Bad else Rec(s[pos + 8..pos + 8 + len], next)
      else if cflag != 1 then Bad
      else MoreParts(s, pos, limit, [])
  }

  /** RecordIOSplitter::ExtractNextRecord on the bytes [pos, limit) of s. */
  function ExtractNext(s: seq<byte>, pos: nat, limit: nat): (r: Decoded)
    requires pos <= limit <= |s|
  {
    if pos == limit then NoRecord
    else if pos + 8 > limit || pos % 4 != 0 || limit % 4 != 0 then Bad
    else
      var cflag, len := DecodeFlag(Word(s, pos + 4)), DecodeLength(Word(s, pos + 4));
      var next := pos + 8 + UpperAlign(len);
      if next > limit then Bad
      else
        var data := s[pos + 8..pos + 8 + len];
        if cflag == 0 then Rec(data, next)
        else if cflag != 1 then Bad
        else MoreParts(s, next, limit, data + WordBytes(MAGIC))
  }

  // ---- both decoders undo the writer ----

  /** ReadPart of the stream reader, for a window [pos, limit) of s. */
  lemma WindowPart(s: seq<byte>, pos: nat, limit: nat, flag: nat, data: Record, rest: seq<byte>)
    requires pos <= limit <= |s| && flag <= 3 && s[pos..limit] == Part(flag, data) + rest
    ensures pos + 8 + UpperAlign(|data|) <= limit
    ensures Word(s, pos) == MAGIC && Word(s, pos + 4) == EncodeLRec(flag, |data|)
    ensures s[pos + 8..pos + 8 + |data|] == data
    ensures s[pos + 8 + UpperAlign(|data|)..limit] == rest
  {
    hide Part, UpperAlign;
    var t := s[..limit];
    assert t[pos..] == s[pos..limit];
    Stream.ReadPart(t, pos, flag, data, rest);
    var next := pos + 8 + UpperAlign(|data|);
    assert s[next..limit] == t[next..];
    assert s[pos + 8..pos + 8 + |data|] == t[pos + 8..pos + 8 + |data|];
  }

  lemma MoreStep(s: seq<byte>, pos: nat, limit: nat, acc: seq<byte>, flag: nat, data: Record, rest: seq<byte>)
    requires pos <= limit <= |s| && flag <= 3 && s[pos..limit] == Part(flag, data) + rest
    ensures var next := pos + 8 + UpperAlign(|data|);
      && next <= limit && s[next..limit] == rest
      && MoreParts(s, pos, limit, acc) ==
           if flag == 3 then Rec(acc + data, next) else MoreParts(s, next, limit, acc + data + WordBytes(MAGIC))
  {
    hide Part, Word, WordBytes, UpperAlign;
    WindowPart(s, pos, limit, flag, data, rest);
  }

  lemma {:induction false} MoreUndoesEscape(s: seq<byte>, pos: nat, limit: nat, acc: seq<byte>, d: Record, rest: seq<byte>)
    requires pos <= limit <= |s| && s[pos..limit] == Escape(d, false) + rest
    ensures MoreParts(s, pos, limit, acc) == Rec(acc + d, pos + |Escape(d, false)|)
    decreases |d|
  {
    hide Part, MoreParts, WordBytes, Escape;
    var m := NextMagic(d, 0);
    if 4 * m + 4 > |d| {
      Stream.UnfoldLast(d, false, m);
      MoreStep(s, pos, limit, acc, 3, d, rest);
    } else {
      var tail := d[4 * m + 4..];
      var part, more := Part(2, d[..4 * m]), Escape(tail, false);
      Stream.UnfoldInner(d, false, m);
      Stream.ConcatAssoc(part, more, rest);
      MoreStep(s, pos, limit, acc, 2, d[..4 * m], more + rest);
      var data := acc + d[..4 * m] + WordBytes(MAGIC);
      MoreUndoesEscape(s, pos + |part|, limit, data, tail, rest);
      Stream.MagicBetween(d, m);
      Stream.ConcatAssoc3(acc, d[..4 * m], WordBytes(MAGIC), tail);
    }
  }

  /** A whole written record at the front of the window is decoded, by either decoder, to its payload. */
  lemma DecodersUndoEncode(s: seq<byte>, pos: nat, limit: nat, r: Record, rest: seq<byte>)
    requires pos <= limit <= |s| && s[pos..limit] == Encode(r) + rest
    ensures ReadNext(s, pos, limit) == Rec(r, pos + |Encode(r)|)
    ensures pos % 4 == 0 && limit % 4 == 0 ==> ExtractNext(s, pos, limit) == Rec(r, pos + |Encode(r)|)
  {
    hide Part, MoreParts, WordBytes, Escape, Word, Encode, UpperAlign;
    Stream.EncodeIsEscape(r);
    var m := NextMagic(r, 0);
    if 4 * m + 4 > |r| {
      Stream.UnfoldLast(r, true, m);
      WindowPart(s, pos, limit, 0, r, rest);
    } else {
      var tail := r[4 * m + 4..];
      var part, more := Part(1, r[..4 * m]), Escape(tail, false);
      Stream.UnfoldInner(r, true, m);
      Stream.ConcatAssoc(part, more, rest);
      WindowPart(s, pos, limit, 1, r[..4 * m], more + rest);
      MoreStep(s, pos, limit, [], 1, r[..4 * m], more + rest);
      var data := r[..4 * m] + WordBytes(MAGIC);
      assert [] + r[..4 * m] + WordBytes(MAGIC) == data;
      MoreUndoesEscape(s, pos + |part|, limit, data, tail, rest);
      Stream.MagicBetween(r, m);
    }
  }

  // ---- RecordIOChunkReader ----

  /** The first head at or after begin; the chunk must be a whole number of words. */
  method FindNextRecordIOHead(s: seq<byte>, begin: nat) returns (p: nat)
    requires |s| % 4 == 0 && begin % 4 == 0 && begin <= |s|
    ensures p == 4 * NextHead(s, |s| / 4, begin / 4)
  {
    hide Word, DecodeFlag;
    p := begin;
    while p + 4 < |s|
      invariant p % 4 == 0 && p <= |s|
      invariant NextHead(s, |s| / 4, p / 4) == NextHead(s, |s| / 4, begin / 4)
      decreases |s| - p
    {
      if Word(s, p) == MAGIC {
        var cflag := DecodeFlag(Word(s, p + 4));
        if cflag == 0 || cflag == 1 {
          assert IsHead(s, p / 4);
          return;
        }
      }
      p := p + 4;
    }
    p := |s|;
  }

  /** Where part i of n of a chunk of the given size begins, before looking for a head. */
  function PartBegin(size: nat, n: nat, i: nat): (b: nat)
    requires n > 0 && size % 4 == 0
    ensures b <= size && b % 4 == 0
  {
    AlignedTimes((size + n - 1) / n, i);
    Min(size, UpperAlign((size + n - 1) / n) * i)
  }

  lemma AlignedTimes(q: nat, i: nat)
    ensures UpperAlign(q) * i == 4 * (WordsFor(q) * i)
  {
  }

  class RecordIOChunkReader {
    const chunk: seq<byte>
    var pbegin: nat
    var pend: nat

    ghost predicate Valid()
      reads this
    {
      pend <= |chunk|
    }

    constructor (chunk: seq<byte>, partIndex: nat, numParts: nat)
      requires |chunk| % 4 == 0 && partIndex < numParts
      ensures Valid() && this.chunk == chunk
      ensures pbegin == 4 * NextHead(chunk, |chunk| / 4, PartBegin(|chunk|, numParts, partIndex) / 4)
      ensures pend == 4 * NextHead(chunk, |chunk| / 4, PartBegin(|chunk|, numParts, partIndex + 1) / 4)
    {
      this.chunk := chunk;
      var begin := PartBegin(|chunk|, numParts, partIndex);
      var end := PartBegin(|chunk|, numParts, partIndex + 1);
      var p := FindNextRecordIOHead(chunk, begin);
      var q := FindNextRecordIOHead(chunk, end);
      pbegin, pend := p, q;
    }

    method NextRecord() returns (r: Decoded)
      requires Valid()
      modifies this`pbegin
      ensures r == ReadNext(chunk, old(pbegin), pend)
      ensures r.Rec? ==> pbegin == r.next
      ensures r.NoRecord? ==> pbegin == old(pbegin)
    {
      hide Word, DecodeFlag, DecodeLength, UpperAlign, WordBytes;
      if pbegin >= pend {
        return NoRecord;
      }
      if pbegin + 8 > |chunk| || Word(chunk, pbegin) != MAGIC {
        return Bad;
      }
      var cflag, clen := DecodeFlag(Word(chunk, pbegin + 4)), DecodeLength(Word(chunk, pbegin + 4));
      if cflag == 0 {
        var dptr := pbegin + 8;
        pbegin := pbegin + 8 + UpperAlign(clen);
        if pbegin > pend {
          return Bad;
        }
        return Rec(chunk[dptr..dptr + clen], pbegin);
      }
      if cflag != 1 {
        return Bad;
      }
      var temp: seq<byte> := [];
      while true
        invariant MoreParts(chunk, pbegin, pend, temp) == ReadNext(chunk, old(pbegin), pend)
        decreases pend - pbegin
      {
        if pbegin + 8 > pend || Word(chunk, pbegin) != MAGIC {
          return Bad;
        }
        cflag, clen := DecodeFlag(Word(chunk, pbegin + 4)), DecodeLength(Word(chunk, pbegin + 4));
        if pbegin + 8 + clen > |chunk| {
          return Bad;
        }
        temp := temp + chunk[pbegin + 8..pbegin + 8 + clen];
        pbegin := pbegin + 8 + UpperAlign(clen);
        if cflag == 3 {
          break;
        }
        temp := temp + WordBytes(MAGIC);
      }
      return Rec(temp, pbegin);
    }
  }

  /** The number of records that start before part i of n. */
  ghost function PartStart(rs: seq<Record>, n: nat, i: nat): (c: nat)
    requires n > 0
    ensures c <= |rs|
  {
    CountBefore(rs, PartBegin(4 * AllWords(rs), n, i) / 4)
  }

  lemma PartStartMonotone(rs: seq<Record>, n: nat, i: nat)
    requires n > 0
    ensures PartStart(rs, n, i) <= PartStart(rs, n, i + 1)
  {
    hide PartBegin, CountBefore, AllWords;
    var size := 4 * AllWords(rs);
    PartBeginMonotone(size, n, i);
    CountMonotone(rs, PartBegin(size, n, i) / 4, PartBegin(size, n, i + 1) / 4);
  }

  /** The records that part i of n is responsible for: those starting in its slice of the chunk. */
  ghost function PartRecords(rs: seq<Record>, n: nat, i: nat): seq<Record>
    requires n > 0
  {
    PartStartMonotone(rs, n, i);
    rs[PartStart(rs, n, i)..PartStart(rs, n, i + 1)]
  }

  lemma PartBeginMonotone(size: nat, n: nat, i: nat)
    requires n > 0 && size % 4 == 0
    ensures PartBegin(size, n, i) <= PartBegin(size, n, i + 1)
  {
    var step := UpperAlign((size + n - 1) / n);
    assert step * (i + 1) == step * i + step;
  }

  /** The parts of a chunk are even, up to the alignment. */
  lemma PartShare(size: nat, n: nat, i: nat)
    requires n > 0 && size % 4 == 0
    ensures PartBegin(size, n, i + 1) <= PartBegin(size, n, i) + size / n + 4
    ensures PartBegin(size, n, i + 1) < size ==> PartBegin(size, n, i + 1) >= PartBegin(size, n, i) + size / n
  {
    var q := (size + n - 1) / n;
    CeilingIs(size, n);
    var step := UpperAlign(q);
    assert q <= step <= q + 3;
    assert step * (i + 1) == step * i + step;
  }

  lemma PartBeginEnds(size: nat, n: nat)
    requires n > 0 && size % 4 == 0
    ensures PartBegin(size, n, 0) == 0 && PartBegin(size, n, n) == size
  {
    var q := (size + n - 1) / n;
    var step := UpperAlign(q);
    assert q * n >= size;
    assert step * n >= q * n;
  }

  /** Reading one part to its end yields exactly its records, for every part count. */
  method ReadChunkPart(chunk: seq<byte>, i: nat, n: nat, ghost rs: seq<Record>) returns (out: seq<seq<byte>>, ok: bool)
    requires i < n && chunk == EncodeAll(rs)
    ensures ok && out == PartRecords(rs, n, i)
  {
    hide Encode, EncodeAll, AllWords, ReadNext, CountBefore;
    EncodeAllLength(rs);
    var reader := new RecordIOChunkReader(chunk, i, n);
    ghost var size := |chunk|;
    ghost var lo := CountBefore(rs, PartBegin(size, n, i) / 4);
    ghost var hi := CountBefore(rs, PartBegin(size, n, i + 1) / 4);
    PartBeginMonotone(size, n, i);
    CountMonotone(rs, PartBegin(size, n, i) / 4, PartBegin(size, n, i + 1) / 4);
    NextHeadIsCut(rs, PartBegin(size, n, i) / 4);
    NextHeadIsCut(rs, PartBegin(size, n, i + 1) / 4);
    out := [];
    ghost var j := lo;
    while true
      invariant reader.Valid() && reader.chunk == chunk
      invariant lo <= j <= hi
      invariant reader.pbegin == 4 * AllWords(rs[..j]) && reader.pend == 4 * AllWords(rs[..hi])
      invariant out == rs[lo..j]
      decreases hi - j
    {
      NextInPart(rs, j, hi);
      var r := reader.NextRecord();
      match r {
        case NoRecord => return out, true;
        case Bad => return out, false;
        case Rec(data, _) =>
          out := out + [data];
          j := j + 1;
      }
    }
  }

  lemma NextInPart(rs: seq<Record>, j: nat, hi: nat)
    requires j <= hi <= |rs|
    ensures AllWords(rs[..hi]) <= AllWords(rs) && |EncodeAll(rs)| == 4 * AllWords(rs)
    ensures ReadNext(EncodeAll(rs), 4 * AllWords(rs[..j]), 4 * AllWords(rs[..hi])) ==
              if j == hi then NoRecord else Rec(rs[j], 4 * AllWords(rs[..j + 1]))
  {
    hide Encode, AllWords, ReadNext;
    CutBytes(rs, j, hi);
    var s := EncodeAll(rs);
    if j < hi {
      WordsStep(rs, j);
      assert rs[j..hi][1..] == rs[j + 1..hi];
      DecodersUndoEncode(s, 4 * AllWords(rs[..j]), 4 * AllWords(rs[..hi]), rs[j], EncodeAll(rs[j + 1..hi]));
    } else {
      assert ReadNext(s, 4 * AllWords(rs[..j]), 4 * AllWords(rs[..hi])) == NoRecord by { ReadNothing(s, 4 * AllWords(rs[..j])); }
    }
  }

  lemma ReadNothing(s: seq<byte>, pos: nat)
    requires pos <= |s|
    ensures ReadNext(s, pos, pos) == NoRecord
  {
  }

  lemma WordsStep(rs: seq<Record>, j: nat)
    requires j < |rs|
    ensures 4 * AllWords(rs[..j + 1]) == 4 * AllWords(rs[..j]) + |Encode(rs[j])|
  {
    EncodeAllConcat(rs[..j], [rs[j]]);
    assert rs[..j + 1] == rs[..j] + [rs[j]];
    assert [rs[j]][1..] == [];
    assert AllWords([rs[j]]) == EscapeWords(rs[j]);
  }

  /** The records of the first k parts, in part order. */
  ghost function FirstParts(rs: seq<Record>, n: nat, k: nat): seq<Record>
    requires n > 0
  {
    if k == 0 then [] else FirstParts(rs, n, k - 1) + PartRecords(rs, n, k - 1)
  }

  lemma {:induction false} FirstPartsPrefix(rs: seq<Record>, n: nat, k: nat)
    requires 0 < n
    ensures FirstParts(rs, n, k) == rs[..PartStart(rs, n, k)]
  {
    hide PartStart;
    if k == 0 {
      PartStartEnds(rs, n);
    } else {
      FirstPartsPrefix(rs, n, k - 1);
      PartStartMonotone(rs, n, k - 1);
      assert FirstParts(rs, n, k) == FirstParts(rs, n, k - 1) + PartRecords(rs, n, k - 1);
    }
  }

  lemma PartStartEnds(rs: seq<Record>, n: nat)
    requires n > 0
    ensures PartStart(rs, n, 0) == 0 && PartStart(rs, n, n) == |rs|
  {
    hide PartBegin, CountBefore, AllWords;
    PartBeginEnds(4 * AllWords(rs), n);
    CountZero(rs);
    CountAll(rs, AllWords(rs));
  }

  /** Parts 0 .. n-1 of a chunk yield every record once and in order. */
  lemma PartsCoverChunk(rs: seq<Record>, n: nat)
    requires n > 0
    ensures FirstParts(rs, n, n) == rs
  {
    hide PartStart, FirstParts;
    FirstPartsPrefix(rs, n, n);
    PartStartEnds(rs, n);
  }
}
