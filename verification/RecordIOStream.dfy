/** RecordIOWriter and RecordIOReader: writing records to a stream and reading them back. */
module RecordIOStream {
  import opened Bytes
  import opened RecordIO

  // ---- writing ----

  /** The number of aligned magic words that the writer escapes in d. */
  ghost function Escaped(d: Record): nat
    decreases |d|
  {
    var m := NextMagic(d, 0);
    if 4 * m + 4 > |d| then 0 else 1 + Escaped(d[4 * m + 4..])
  }

  /** If the first magic word at or after v is at w, the record splits there. */
  lemma EscapeStep(d: Record, v: nat, w: nat)
    requires v <= w && 4 * w + 4 <= |d| && MagicAt(d, w)
    requires forall k: nat :: v <= k < w ==> !MagicAt(d, k)
    ensures var first := v == 0; var r := d[4 * v..];
      && Escape(r, first) == Part(if first then 1 else 2, d[4 * v..4 * w]) + Escape(d[4 * w + 4..], false)
      && Escaped(r) == 1 + Escaped(d[4 * w + 4..])
  {
    hide Part, MagicAt, NextMagic;
    var r, m := d[4 * v..], w - v;
    FirstMagic(d, v, w);
    assert r[..4 * m] == d[4 * v..4 * w];
    assert r[4 * m + 4..] == d[4 * w + 4..];
  }

  lemma FirstMagic(d: Record, v: nat, w: nat)
    requires v <= w && 4 * w + 4 <= |d| && MagicAt(d, w)
    requires forall k: nat :: v <= k < w ==> !MagicAt(d, k)
    ensures NextMagic(d[4 * v..], 0) == w - v
  {
    var r := d[4 * v..];
    var m := NextMagic(r, 0);
    hide NextMagic;
    forall k: nat
      ensures MagicAt(r, k) <==> MagicAt(d, v + k)
    {
    }
    hide MagicAt;
    assert MagicAt(r, w - v);
    assert MagicAt(d, v + m);
  }

  lemma EscapeEnd(d: Record, v: nat, w: nat)
    requires v <= w && 4 * w <= |d| < 4 * w + 4
    requires forall k: nat :: v <= k < w ==> !MagicAt(d, k)
    ensures var first := v == 0; var r := d[4 * v..];
      Escape(r, first) == Part(if first then 0 else 3, r) && Escaped(r) == 0
  {
    hide Part;
    var r := d[4 * v..];
    forall k: nat
      ensures MagicAt(r, k) <==> MagicAt(d, v + k)
    {
    }
    assert forall k: nat :: !MagicAt(r, k) by {
      forall k: nat
        ensures !MagicAt(r, k)
      {
        assert MagicAt(r, k) <==> MagicAt(d, v + k);
      }
    }
  }

  /** The stream once the payload from word v on has been written to it. */
  ghost function Completed(stream: seq<byte>, d: Record, v: nat): seq<byte>
    requires 4 * v <= |d|
  {
    stream + Escape(d[4 * v..], v == 0)
  }

  lemma CompletedStep(stream: seq<byte>, d: Record, v: nat, w: nat)
    requires v <= w && 4 * w + 4 <= |d| && MagicAt(d, w)
    requires forall k: nat :: v <= k < w ==> !MagicAt(d, k)
    ensures var flag := if v == 0 then 1 else 2;
      Completed(stream + Part(flag, d[4 * v..4 * w]), d, w + 1) == Completed(stream, d, v)
    ensures Escaped(d[4 * v..]) == 1 + Escaped(d[4 * (w + 1)..])
  {
    hide Part, Escape, Escaped;
    EscapeStep(d, v, w);
    ConcatAssoc(stream, Part(if v == 0 then 1 else 2, d[4 * v..4 * w]), Escape(d[4 * w + 4..], false));
  }

  lemma CompletedWhole(stream: seq<byte>, d: Record)
    ensures Completed(stream, d, 0) == stream + Encode(d)
    ensures d[4 * 0..] == d
  {
    assert d[0..] == d;
  }

  lemma CompletedLast(stream: seq<byte>, d: Record, v: nat, w: nat)
    requires v <= w && 4 * w <= |d| < 4 * w + 4
    requires forall k: nat :: v <= k < w ==> !MagicAt(d, k)
    ensures Completed(stream, d, v) == stream + Part(if v == 0 then 0 else 3, d[4 * v..])
    ensures Escaped(d[4 * v..]) == 0
  {
    hide Part, Escape, Escaped;
    EscapeEnd(d, v, w);
  }

  /** Magic word, length word and payload, before padding. */
  ghost function Unpadded(flag: nat, data: Record): seq<byte>
    requires flag <= 3
  {
    WordBytes(MAGIC) + WordBytes(EncodeLRec(flag, |data|)) + data
  }

  lemma AlignedPart(flag: nat, data: Record)
    requires flag <= 3 && |data| % 4 == 0
    ensures Part(flag, data) == Unpadded(flag, data)
  {
    hide WordBytes, WordsFor, EncodeLRec;
    WholeWords(|data| / 4);
  }

  lemma PaddedPart(flag: nat, data: Record)
    requires flag <= 3
    ensures var pad := UpperAlign(|data|) - |data|;
      Part(flag, data) == if pad == 0 then Unpadded(flag, data) else Unpadded(flag, data) + Zeros(pad)
  {
  }

  class RecordIOWriter {
    var stream: seq<byte>
    var exceptCounter: nat

    constructor ()
      ensures stream == [] && exceptCounter == 0
    {
      stream, exceptCounter := [], 0;
    }

    /** Header and payload, as WriteRecord sends them to the stream. */
    method PutPart(flag: nat, data: Record)
      requires flag <= 3
      modifies this`stream
      ensures stream == old(stream) + Unpadded(flag, data)
    {
      stream := stream + WordBytes(MAGIC);
      stream := stream + WordBytes(EncodeLRec(flag, |data|));
      if |data| != 0 {
        stream := stream + data;
      }
    }

    /** A part cut at a magic word: its length n words, so no padding. */
    method PutInnerPart(flag: nat, data: Record, ghost n: nat)
      requires flag <= 3 && |data| == 4 * n
      modifies this`stream
      ensures stream == old(stream) + Part(flag, data)
    {
      hide Part, Unpadded;
      PutPart(flag, data);
      AlignedPart(flag, data);
    }

    /** The last part, padded to a multiple of 4. */
    method PutLastPart(flag: nat, data: Record)
      requires flag <= 3
      modifies this`stream
      ensures stream == old(stream) + Part(flag, data)
    {
      hide Part, Unpadded;
      PutPart(flag, data);
      var upperAlign := UpperAlign(|data|);
      if upperAlign != |data| {
        stream := stream + Zeros(upperAlign - |data|);
      }
      PaddedPart(flag, data);
      ConcatAssoc(old(stream), Unpadded(flag, data), Zeros(upperAlign - |data|));
    }

    /** Appends the encoding of one record; a record of 2^29 bytes or more is refused. */
    method WriteRecord(buf: seq<byte>) returns (ok: bool)
      modifies this
      ensures ok <==> |buf| < LENGTH_LIMIT
      ensures ok ==> stream == old(stream) + Encode(buf)
      ensures ok ==> exceptCounter == old(exceptCounter) + Escaped(buf)
      ensures !ok ==> stream == old(stream) && exceptCounter == old(exceptCounter)
    {
      hide Part, Escape, Escaped, Word, Encode, Completed, LowerAlign, NextMagic, EscapeWords;
      if |buf| >= LENGTH_LIMIT {
        return false;
      }
      CompletedWhole(stream, buf);
      var lowerAlign := LowerAlign(|buf|);
      var dptr, i := 0, 0;
      ghost var v, w := 0, 0;
      while i < lowerAlign
        invariant i == 4 * w && dptr == 4 * v && v <= w && 4 * w <= lowerAlign
        invariant forall k: nat :: v <= k < w ==> !MagicAt(buf, k)
        invariant Completed(stream, buf, v) == old(stream) + Encode(buf)
        invariant exceptCounter + Escaped(buf[4 * v..]) == old(exceptCounter) + Escaped(buf)
      {
        if Word(buf, i) == MAGIC {
          CompletedStep(stream, buf, v, w);
          PutInnerPart(if dptr == 0 then 1 else 2, buf[dptr..i], w - v);
          dptr := i + 4;
          exceptCounter := exceptCounter + 1;
          v := w + 1;
        }
        i := i + 4;
        w := w + 1;
      }
      CompletedLast(stream, buf, v, w);
      PutLastPart(if dptr != 0 then 3 else 0, buf[dptr..]);
      return true;
    }
  }

  // ---- reading ----

  datatype ReadResult = EndOfStream | Got(rec: seq<byte>, next: nat) | Invalid

  /** What RecordIOReader::NextRecord does with the bytes from pos on; acc holds the parts read so far. */
  function ReadRecord(s: seq<byte>, pos: nat, acc: seq<byte>): (r: ReadResult)
    requires pos <= |s|
    ensures r.Got? ==> pos < r.next <= |s|
    decreases |s| - pos
  {
    if pos == |s| then EndOfStream
    else if pos + 8 > |s| || Word(s, pos) != MAGIC then Invalid
    else
      var cflag, len := DecodeFlag(Word(s, pos + 4)), DecodeLength(Word(s, pos + 4));
      var next := pos + 8 + UpperAlign(len);
      if next > |s| then Invalid
      else
        var data := acc + s[pos + 8..pos + 8 + len];
        if cflag == 0 || cflag == 3 then Got(data, next) else ReadRecord(s, next, data + WordBytes(MAGIC))
  }

  /** One written part is read as its payload. */
  lemma ReadPart(s: seq<byte>, pos: nat, flag: nat, data: Record, rest: seq<byte>)
    requires pos <= |s| && flag <= 3 && s[pos..] == Part(flag, data) + rest
    ensures pos + 8 + UpperAlign(|data|) <= |s|
    ensures Word(s, pos) == MAGIC && Word(s, pos + 4) == EncodeLRec(flag, |data|)
    ensures s[pos + 8..pos + 8 + |data|] == data
    ensures s[pos + 8 + UpperAlign(|data|)..] == rest
  {
    var p := Part(flag, data);
    PartWords(flag, data);
    var t := s[pos..];
    assert t[..|p|] == p && t[|p|..] == rest;
    assert s[pos..pos + 4] == p[..4] && s[pos + 4..pos + 8] == p[4..8];
    assert s[pos + 8..pos + 8 + |data|] == p[8..8 + |data|];
    assert s[pos + |p|..] == t[|p|..];
  }

  lemma ReadStep(s: seq<byte>, pos: nat, acc: seq<byte>, flag: nat, data: Record, rest: seq<byte>)
    requires pos <= |s| && flag <= 3 && s[pos..] == Part(flag, data) + rest
    ensures var next := pos + 8 + UpperAlign(|data|);
      && next <= |s| && s[next..] == rest
      && ReadRecord(s, pos, acc) ==
           if flag == 0 || flag == 3 then Got(acc + data, next)
           else ReadRecord(s, next, acc + data + WordBytes(MAGIC))
  {
    hide Part, Word, WordBytes, UpperAlign;
    ReadPart(s, pos, flag, data, rest);
  }

  /** The reader undoes the escaping, whatever was accumulated before and whatever follows. */
  lemma {:induction false} ReadUndoesEscape(s: seq<byte>, pos: nat, acc: seq<byte>, d: Record, first: bool, rest: seq<byte>)
    requires pos <= |s| && s[pos..] == Escape(d, first) + rest
    ensures ReadRecord(s, pos, acc) == Got(acc + d, pos + |Escape(d, first)|)
    decreases |d|
  {
    hide Part, ReadRecord, WordBytes, Escape;
    var m := NextMagic(d, 0);
    if 4 * m + 4 > |d| {
      UnfoldLast(d, first, m);
      ReadStep(s, pos, acc, if first then 0 else 3, d, rest);
    } else {
      var tail := d[4 * m + 4..];
      var flag := if first then 1 else 2;
      var part, more := Part(flag, d[..4 * m]), Escape(tail, false);
      UnfoldInner(d, first, m);
      ConcatAssoc(part, more, rest);
      ReadStep(s, pos, acc, flag, d[..4 * m], more + rest);
      var data := acc + d[..4 * m] + WordBytes(MAGIC);
      ReadUndoesEscape(s, pos + |part|, data, tail, false, rest);
      MagicBetween(d, m);
      ConcatAssoc3(acc, d[..4 * m], WordBytes(MAGIC), tail);
    }
  }

  lemma UnfoldLast(d: Record, first: bool, m: nat)
    requires m == NextMagic(d, 0) && 4 * m + 4 > |d|
    ensures Escape(d, first) == Part(if first then 0 else 3, d)
  {
    hide Part;
  }

  lemma UnfoldInner(d: Record, first: bool, m: nat)
    requires m == NextMagic(d, 0) && 4 * m + 4 <= |d|
    ensures Escape(d, first) == Part(if first then 1 else 2, d[..4 * m]) + Escape(d[4 * m + 4..], false)
  {
    hide Part;
  }

  lemma ConcatAssoc<T>(a: seq<T>, b: seq<T>, c: seq<T>)
    ensures a + b + c == a + (b + c)
  {
  }

  lemma ConcatAssoc3<T>(a: seq<T>, b: seq<T>, c: seq<T>, d: seq<T>)
    ensures a + b + c + d == a + (b + c + d)
  {
  }

  lemma MagicBetween(d: seq<byte>, m: nat)
    requires MagicAt(d, m)
    ensures d == d[..4 * m] + WordBytes(MAGIC) + d[4 * m + 4..]
  {
    BytesOfWord(d, 4 * m);
  }

  class RecordIOReader {
    const stream: seq<byte>
    var pos: nat
    var endOfStream: bool

    ghost predicate Valid()
      reads this
    {
      pos <= |stream|
    }

    constructor (stream: seq<byte>)
      ensures Valid() && this.stream == stream && pos == 0 && !endOfStream
    {
      this.stream, pos, endOfStream := stream, 0, false;
    }

    /** Reads the next record. Invalid stands for a failed CHECK, which ends the program. */
    method NextRecord() returns (r: ReadResult)
      requires Valid()
      modifies this
      ensures Valid()
      ensures old(endOfStream) ==> r == EndOfStream && pos == old(pos) && endOfStream
      ensures !old(endOfStream) ==> r == ReadRecord(stream, old(pos), []) && endOfStream == r.EndOfStream?
      ensures r.Got? ==> pos == r.next
    {
      hide Word, DecodeFlag, DecodeLength, UpperAlign, WordBytes;
      if endOfStream {
        return EndOfStream;
      }
      var outRec: seq<byte> := [];
      while true
        invariant Valid() && !endOfStream
        invariant ReadRecord(stream, pos, outRec) == ReadRecord(stream, old(pos), [])
        decreases |stream| - pos
      {
        var nread := Min(8, |stream| - pos);
        if nread == 0 {
          endOfStream := true;
          return EndOfStream;
        }
        if nread != 8 || Word(stream, pos) != MAGIC {
          return Invalid;
        }
        var lrec := Word(stream, pos + 4);
        var cflag, len := DecodeFlag(lrec), DecodeLength(lrec);
        var upperAlign := UpperAlign(len);
        if pos + 8 + upperAlign > |stream| {
          return Invalid;
        }
        outRec := outRec + stream[pos + 8..pos + 8 + len];
        pos := pos + 8 + upperAlign;
        if cflag == 0 || cflag == 3 {
          break;
        }
        outRec := outRec + WordBytes(MAGIC);
      }
      return Got(outRec, pos);
    }
  }

  /** Reading a stream to its end, record after record. */
  function ReadAll(s: seq<byte>, pos: nat): (r: (seq<seq<byte>>, bool))
    requires pos <= |s|
    decreases |s| - pos
  {
    match ReadRecord(s, pos, [])
    case EndOfStream => ([], true)
    case Invalid => ([], false)
    case Got(rec, next) => var (rs, ok) := ReadAll(s, next); ([rec] + rs, ok)
  }

  lemma {:induction false} ReadAllFrom(s: seq<byte>, pos: nat, rs: seq<Record>)
    requires pos <= |s| && s[pos..] == EncodeAll(rs)
    ensures ReadAll(s, pos) == (rs, true)
    decreases |rs|
  {
    hide Encode, ReadRecord;
    if rs == [] {
      assert |s[pos..]| == 0;
      ReadsNothing(s, pos);
    } else {
      ReadsFirst(s, pos, rs[0], EncodeAll(rs[1..]));
      ReadAllFrom(s, pos + |Encode(rs[0])|, rs[1..]);
      assert [rs[0]] + rs[1..] == rs;
    }
  }

  lemma ReadsNothing(s: seq<byte>, pos: nat)
    requires pos == |s|
    ensures ReadRecord(s, pos, []) == EndOfStream
  {
  }

  lemma ReadsFirst(s: seq<byte>, pos: nat, r: Record, rest: seq<byte>)
    requires pos <= |s| && s[pos..] == Encode(r) + rest
    ensures pos + |Encode(r)| <= |s| && s[pos + |Encode(r)|..] == rest
    ensures ReadRecord(s, pos, []) == Got(r, pos + |Encode(r)|)
  {
    EncodeIsEscape(r);
    hide Encode, ReadRecord, Escape;
    ReadUndoesEscape(s, pos, [], r, true, rest);
    assert [] + r == r;
    assert |s[pos..]| == |Encode(r)| + |rest|;
    assert s[pos + |Encode(r)|..] == s[pos..][|Encode(r)|..];
  }

  lemma EncodeIsEscape(r: Record)
    ensures Encode(r) == Escape(r, true)
  {
  }

  /** Round trip: any sequence of records, magic words included, reads back unchanged. */
  lemma RoundTrip(rs: seq<Record>)
    ensures ReadAll(EncodeAll(rs), 0) == (rs, true)
  {
    var s := EncodeAll(rs);
    assert s[0..] == s;
    ReadAllFrom(s, 0, rs);
  }
}
