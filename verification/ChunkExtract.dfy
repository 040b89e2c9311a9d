/** RecordIOSplitter::ExtractNextRecord: decoding escaped records in place. */
module ChunkExtract {
  import opened Bytes
  import opened RecordIO
  import opened RecordIOChunk

  datatype Extracted = Nothing | Blob(dptr: nat, size: nat) | Failed

  /** InputSplitBase::Chunk: a buffer of 8-byte words, seen as bytes, and the window [begin, end) not yet consumed. */
  class Chunk {
    var words: nat
    var data: array<byte>
    var begin: nat
    var end: nat

    ghost predicate Valid()
      reads this
    {
      begin <= end <= data.Length
    }

    constructor (bufferSize: nat)
      ensures Valid() && fresh(data) && begin == 0 && end == 0
      ensures words == bufferSize + 1 && data.Length == 8 * words
    {
      words := bufferSize + 1;
      data := new byte[8 * (bufferSize + 1)];
      begin, end := 0, 0;
    }

    /** memmove or memcpy of b into the buffer at dst. */
    method Put(dst: nat, b: seq<byte>)
      requires dst + |b| <= data.Length
      modifies data
      ensures data[..] == Spliced(old(data[..]), dst, b)
    {
      forall i | 0 <= i < |b| {
        data[dst + i] := b[i];
      }
    }

    /** Takes the next record out of the window. The result is what the pure decoder finds in the original bytes, although
        escaped records are rejoined inside the buffer: what is written never reaches a byte that is still to be read,
        and nothing outside the record is touched. */
    method ExtractNextRecord() returns (r: Extracted)
      requires Valid()
      modifies this`begin, data
      ensures match ExtractNext(old(data[..]), old(begin), end)
              case NoRecord => r == Nothing && begin == old(begin) && data[..] == old(data[..])
              case Bad => r == Failed
              case Rec(rec, next) =>
                && r.Blob? && r.dptr == old(begin) + 8 && r.dptr + r.size <= data.Length
                && data[r.dptr..r.dptr + r.size] == rec
                && begin == next
                && data[..r.dptr] == old(data[..])[..r.dptr]
                && (next <= data.Length ==> data[next..] == old(data[..])[next..])
    {
      hide Word, DecodeFlag, DecodeLength, WordBytes, MoreParts, UpperAlign;
      if begin == end {
        return Nothing;
      }
      if begin + 8 > end || begin % 4 != 0 || end % 4 != 0 {
        return Failed;
      }
      ghost var s := data[..];
      var lrec := Word(data[..], begin + 4);
      var cflag, clen := DecodeFlag(lrec), DecodeLength(lrec);
      var dptr := begin + 8;
      begin := begin + 8 + UpperAlign(clen);
      if begin > end {
        return Failed;
      }
      var size := clen;
      if cflag == 0 {
        return Blob(dptr, size);
      }
      if cflag != 1 {
        return Failed;
      }
      r := Rejoin(dptr, size);
      if r.Blob? {
        JoinedMeans(data[..], s, dptr, Min(begin, |s|), data[dptr..dptr + r.size]);
      }
    }

    /** The loop that moves the remaining parts of a record up behind its first part. */
    method Rejoin(dptr: nat, first: nat) returns (r: Extracted)
      requires dptr + first <= begin && Valid()
      modifies this`begin, data
      ensures match MoreParts(old(data[..]), old(begin), end, old(data[dptr..dptr + first]) + WordBytes(MAGIC))
              case NoRecord => false
              case Bad => r == Failed
              case Rec(rec, next) =>
                && r == Blob(dptr, |rec|) && begin == next
                && JoinedAt(data[..], old(data[..]), dptr, Min(next, data.Length), rec)
    {
      hide Word, DecodeFlag, DecodeLength, WordBytes, UpperAlign, JoinedAt, MoreParts;
      ghost var s := data[..];
      ghost var acc := data[dptr..dptr + first];
      ghost var goal := MoreParts(s, begin, end, acc + WordBytes(MAGIC));
      JoinedFirst(s, dptr, begin, first);
      var size := first;
      while true
        invariant end <= data.Length && size == |acc|
        invariant JoinedAt(data[..], s, dptr, Min(begin, |s|), acc)
        invariant MoreParts(s, begin, end, acc + WordBytes(MAGIC)) == goal
        decreases end - begin
      {
        MoreUnfold(s, begin, end, acc + WordBytes(MAGIC));
        if begin + 8 > end {
          return Failed;
        }
        JoinedWords(data[..], s, dptr, begin, acc);
        if Word(data[..], begin) != MAGIC {
          return Failed;
        }
        var lrec := Word(data[..], begin + 4);
        var cflag, clen := DecodeFlag(lrec), DecodeLength(lrec);
        if begin + 8 + clen > data.Length {
          return Failed;
        }
        size := AppendPart(dptr, size, clen, acc, s);
        acc := acc + WordBytes(MAGIC) + s[begin + 8..begin + 8 + clen];
        JoinedWiden(data[..], s, dptr, begin + 8 + clen, Min(begin + 8 + UpperAlign(clen), |s|), acc);
        begin := begin + 8 + UpperAlign(clen);
        if cflag == 3 {
          return Blob(dptr, size);
        }
      }
    }

    /** One round of the loop: the magic word and then the payload at begin + 8 are put behind the bytes joined so far. */
    method AppendPart(dptr: nat, size: nat, clen: nat, ghost acc: seq<byte>, ghost s: seq<byte>) returns (size': nat)
      requires begin + 8 + clen <= data.Length == |s| && size == |acc|
      requires JoinedAt(data[..], s, dptr, begin, acc)
      modifies data
      ensures size' == size + 4 + clen
      ensures JoinedAt(data[..], s, dptr, begin + 8 + clen, acc + WordBytes(MAGIC) + s[begin + 8..begin + 8 + clen])
    {
      hide WordBytes, Spliced, JoinedAt;
      SplicedMagic(data[..], s, dptr, begin, acc);
      Put(dptr + size, WordBytes(MAGIC));
      SplicedPayload(data[..], s, dptr, begin, acc + WordBytes(MAGIC), clen);
      if clen != 0 {
        Put(dptr + size + 4, data[begin + 8..begin + 8 + clen]);
      }
      size' := size + 4 + clen;
    }
  }

  /** s with b written over it at offset at. */
  function Spliced(s: seq<byte>, at: nat, b: seq<byte>): (r: seq<byte>)
    requires at + |b| <= |s|
    ensures |r| == |s|
    ensures forall i :: 0 <= i < |s| ==> r[i] == if at <= i < at + |b| then b[i - at] else s[i]
  {
    s[..at] + b + s[at + |b|..]
  }

  /** d agrees with s outside the joined bytes acc at dptr and from byte `from` on. */
  ghost predicate JoinedAt(d: seq<byte>, s: seq<byte>, dptr: nat, from: nat, acc: seq<byte>) {
    && |d| == |s| && dptr + |acc| <= from <= |s|
    && (forall i :: 0 <= i < dptr ==> d[i] == s[i])
    && (forall i :: 0 <= i < |acc| ==> d[dptr + i] == acc[i])
    && (forall i :: from <= i < |s| ==> d[i] == s[i])
  }

  /** One step of the pure decoder. */
  lemma MoreUnfold(s: seq<byte>, pos: nat, limit: nat, acc: seq<byte>)
    requires limit <= |s|
    ensures pos + 8 > limit || Word(s, pos) != MAGIC ==> MoreParts(s, pos, limit, acc) == Bad
    ensures pos + 8 <= limit && Word(s, pos) == MAGIC ==>
              var flag, len := DecodeFlag(Word(s, pos + 4)), DecodeLength(Word(s, pos + 4));
              && (pos + 8 + len > |s| ==> MoreParts(s, pos, limit, acc) == Bad)
              && (pos + 8 + len <= |s| ==>
                    var data, next := acc + s[pos + 8..pos + 8 + len], pos + 8 + UpperAlign(len);
                    MoreParts(s, pos, limit, acc) ==
                      if flag == 3 then Rec(data, next) else MoreParts(s, next, limit, data + WordBytes(MAGIC)))
  {
    hide Word, DecodeFlag, DecodeLength, WordBytes, UpperAlign;
  }

  lemma JoinedFirst(s: seq<byte>, dptr: nat, begin: nat, first: nat)
    requires dptr + first <= begin <= |s|
    ensures JoinedAt(s, s, dptr, begin, s[dptr..dptr + first])
  {
  }

  lemma JoinedWiden(d: seq<byte>, s: seq<byte>, dptr: nat, from: nat, from': nat, acc: seq<byte>)
    requires JoinedAt(d, s, dptr, from, acc) && from <= from' <= |s|
    ensures JoinedAt(d, s, dptr, from', acc)
  {
  }

  lemma JoinedWords(d: seq<byte>, s: seq<byte>, dptr: nat, begin: nat, acc: seq<byte>)
    requires JoinedAt(d, s, dptr, begin, acc) && begin + 8 <= |s|
    ensures |d| == |s| && Word(d, begin) == Word(s, begin) && Word(d, begin + 4) == Word(s, begin + 4)
  {
  }

  lemma JoinedMeans(d: seq<byte>, s: seq<byte>, dptr: nat, from: nat, acc: seq<byte>)
    requires JoinedAt(d, s, dptr, from, acc)
    ensures |d| == |s| && dptr + |acc| <= from <= |s|
    ensures d[dptr..dptr + |acc|] == acc && d[..dptr] == s[..dptr] && d[from..] == s[from..]
  {
  }

  lemma SplicedMagic(d: seq<byte>, s: seq<byte>, dptr: nat, begin: nat, acc: seq<byte>)
    requires begin + 8 <= |s| && JoinedAt(d, s, dptr, begin, acc)
    ensures |d| == |s| && dptr + |acc| + 4 <= |s|
    ensures JoinedAt(Spliced(d, dptr + |acc|, WordBytes(MAGIC)), s, dptr, begin + 8, acc + WordBytes(MAGIC))
  {
    hide WordBytes;
  }

  lemma SplicedPayload(d: seq<byte>, s: seq<byte>, dptr: nat, begin: nat, acc: seq<byte>, clen: nat)
    requires begin + 8 + clen <= |s| && JoinedAt(d, s, dptr, begin + 8, acc)
    ensures |d| == |s| && dptr + |acc| + clen <= |s|
    ensures var payload := d[begin + 8..begin + 8 + clen];
      JoinedAt(if clen == 0 then d else Spliced(d, dptr + |acc|, payload), s, dptr, begin + 8 + clen,
               acc + s[begin + 8..begin + 8 + clen])
  {
  }
}
