/** The RecordIO framing: what WriteRecord emits, where record heads can be recognised
    in it, and why every record sequence reads back unchanged.

    Everything in a RecordIO file is 4-aligned, so offsets are counted in words: word w of s
    is the four bytes s[4 * w .. 4 * w + 4]. */
module RecordIO {
  import opened Bytes

  const MAGIC: nat := 0xced7230a
  const LENGTH_LIMIT: nat := 0x2000_0000

  /** What WriteRecord accepts: less than 2^29 bytes. */
  type Record = r: seq<byte> | |r| < LENGTH_LIMIT

  // ---- the length word ----

  /** (cflag << 29) | length; the two fields do not overlap when length < 2^29. */
  function EncodeLRec(cflag: nat, length: nat): (w: nat)
    requires cflag < 8 && length < LENGTH_LIMIT
    ensures w < TWO_TO_THE_32
    ensures DecodeFlag(w) == cflag && DecodeLength(w) == length
    ensures cflag <= 3 ==> w != MAGIC
  {
    cflag * LENGTH_LIMIT + length
  }

  function DecodeFlag(lrec: nat): nat {
    lrec / LENGTH_LIMIT % 8
  }

  function DecodeLength(lrec: nat): (n: nat)
    ensures n < LENGTH_LIMIT
  {
    lrec % LENGTH_LIMIT
  }

  // ---- the encoding, as a specification ----

  predicate MagicAt(s: seq<byte>, w: nat) {
    4 * w + 4 <= |s| && Word(s, 4 * w) == MAGIC
  }

  /** The index of the first magic word at or after word w, or the number of whole words when there is none. */
  ghost function NextMagic(d: seq<byte>, w: nat): (m: nat)
    requires 4 * w <= |d|
    ensures w <= m && 4 * m <= |d|
    ensures 4 * m + 4 <= |d| ==> MagicAt(d, m)
    ensures forall k: nat :: w <= k < m ==> !MagicAt(d, k)
    decreases |d| - w
  {
    if 4 * w + 4 > |d| || MagicAt(d, w) then w else NextMagic(d, w + 1)
  }

  function WordsFor(n: nat): (w: nat)
    ensures n <= 4 * w < n + 4
  {
    (n + 3) / 4
  }

  /** One part: magic word, length word, payload, zero padding to a multiple of 4. */
  ghost function Part(cflag: nat, data: Record): (s: seq<byte>)
    requires cflag <= 3
    ensures |s| == 8 + 4 * WordsFor(|data|)
  {
    WordBytes(MAGIC) + WordBytes(EncodeLRec(cflag, |data|)) + data + Zeros(4 * WordsFor(|data|) - |data|)
  }

  /** The parts of a record (first) or of the rest of one: the payload is cut at every magic word,
      and the magic words themselves are left out. */
  ghost function Escape(d: Record, first: bool): (s: seq<byte>)
    decreases |d|
  {
    var m := NextMagic(d, 0);
    if 4 * m + 4 > |d| then
      Part(if first then 0 else 3, d)
    else
      Part(if first then 1 else 2, d[..4 * m]) + Escape(d[4 * m + 4..], false)
  }

  /** The length of Escape(d, first) in words. */
  ghost function EscapeWords(d: Record): (w: nat)
    ensures w >= 2
    decreases |d|
  {
    var m := NextMagic(d, 0);
    if 4 * m + 4 > |d| then 2 + WordsFor(|d|) else 2 + m + EscapeWords(d[4 * m + 4..])
  }

  lemma WholeWords(m: nat)
    ensures WordsFor(4 * m) == m
  {
  }

  lemma {:induction false} EscapeLength(d: Record, first: bool)
    ensures |Escape(d, first)| == 4 * EscapeWords(d)
    decreases |d|
  {
    hide Part, NextMagic, WordsFor;
    var m := NextMagic(d, 0);
    if 4 * m + 4 <= |d| {
      EscapeLength(d[4 * m + 4..], false);
      WholeWords(m);
      assert |Part(if first then 1 else 2, d[..4 * m])| == 8 + 4 * m;
    }
  }

  ghost function Encode(r: Record): (s: seq<byte>)
    ensures |s| == 4 * EscapeWords(r)
  {
    EscapeLength(r, true);
    Escape(r, true)
  }

  ghost function EncodeAll(rs: seq<Record>): (s: seq<byte>)
  {
    if rs == [] then [] else Encode(rs[0]) + EncodeAll(rs[1..])
  }

  ghost function AllWords(rs: seq<Record>): nat {
    if rs == [] then 0 else EscapeWords(rs[0]) + AllWords(rs[1..])
  }

  lemma {:induction false} EncodeAllLength(rs: seq<Record>)
    ensures |EncodeAll(rs)| == 4 * AllWords(rs)
  {
    if rs != [] {
      EncodeAllLength(rs[1..]);
    }
  }

  lemma {:induction false} EncodeAllConcat(a: seq<Record>, b: seq<Record>)
    ensures EncodeAll(a + b) == EncodeAll(a) + EncodeAll(b)
    ensures AllWords(a + b) == AllWords(a) + AllWords(b)
  {
    if a == [] {
      assert a + b == b;
    } else {
      assert (a + b)[1..] == a[1..] + b;
      EncodeAllConcat(a[1..], b);
    }
  }

  // ---- where the magic word can occur ----

  lemma PartWords(cflag: nat, data: Record)
    requires cflag <= 3
    ensures var p := Part(cflag, data);
      && Word(p, 0) == MAGIC && Word(p, 4) == EncodeLRec(cflag, |data|)
      && p[8..8 + |data|] == data
  {
    var p := Part(cflag, data);
    WordOfBytes(MAGIC, []);
    WordOfBytes(EncodeLRec(cflag, |data|), []);
    assert WordBytes(MAGIC) + [] == p[..4];
    assert WordBytes(EncodeLRec(cflag, |data|)) + [] == p[4..8];
  }

  /** In a part whose payload holds no magic word, only the first word is magic. */
  lemma PartMagic(cflag: nat, data: Record, k: nat)
    requires cflag <= 3
    requires forall i: nat :: !MagicAt(data, i)
    requires k < 2 + WordsFor(|data|)
    ensures MagicAt(Part(cflag, data), k) <==> k == 0
  {
    var p := Part(cflag, data);
    PartWords(cflag, data);
    if k >= 2 {
      var j := k - 2;
      if 4 * j + 4 <= |data| {
        assert p[4 * k..4 * k + 4] == data[4 * j..4 * j + 4];
        assert !MagicAt(data, j);
      } else {
        assert p[4 * k + 3] == 0;
      }
    }
  }

  lemma WordConcat(a: seq<byte>, b: seq<byte>, n: nat, k: nat)
    requires |a| == 4 * n && 4 * k + 4 <= |a| + |b|
    ensures Word(a + b, 4 * k) == if k < n then Word(a, 4 * k) else Word(b, 4 * (k - n))
  {
  }

  lemma PrefixNoMagic(d: seq<byte>, m: nat, k: nat)
    requires m == NextMagic(d, 0)
    ensures !MagicAt(d[..4 * m], k)
  {
    if k < m {
      assert !MagicAt(d, k);
    }
  }

  /** Word k of Escape(d, first) starts a part. */
  ghost predicate PartStart(d: Record, k: int)
    decreases |d|
  {
    var m := NextMagic(d, 0);
    k == 0 || (4 * m + 4 <= |d| && k >= 2 + m && PartStart(d[4 * m + 4..], k - 2 - m))
  }

  /** What an aligned word of a written record can be: magic exactly at the part starts, each of which
      is followed by its length word, and only the first part of a whole record has flag 0 or 1. */
  ghost predicate MagicOnlyAtParts(d: Record, first: bool, s: seq<byte>, k: nat)
    requires 4 * k + 4 <= |s|
  {
    && (MagicAt(s, k) <==> PartStart(d, k))
    && (MagicAt(s, k) ==>
          && 4 * k + 8 <= |s|
          && (DecodeFlag(Word(s, 4 * (k + 1))) <= 1 <==> k == 0 && first))
  }

  lemma LastPart(d: Record, first: bool, k: nat)
    requires var m := NextMagic(d, 0); 4 * m + 4 > |d|
    requires k < EscapeWords(d)
    ensures |Escape(d, first)| == 4 * EscapeWords(d)
    ensures MagicOnlyAtParts(d, first, Escape(d, first), k)
  {
    var m := NextMagic(d, 0);
    forall i: nat
      ensures !MagicAt(d, i)
    {
      if 4 * i + 4 <= |d| {
        assert i < m;
      }
    }
    PartWords(if first then 0 else 3, d);
    PartMagic(if first then 0 else 3, d, k);
  }

  lemma InnerPart(d: Record, first: bool, m: nat, tail: seq<byte>, k: nat)
    requires m == NextMagic(d, 0) && 4 * m + 4 <= |d|
    requires k < 2 + m && |tail| >= 4
    ensures var s := Part(if first then 1 else 2, d[..4 * m]) + tail;
      && |s| >= 4 * k + 8
      && (MagicAt(s, k) <==> k == 0)
      && (k == 0 ==> (DecodeFlag(Word(s, 4)) <= 1 <==> first))
  {
    var flag := if first then 1 else 2;
    var head := Part(flag, d[..4 * m]);
    InnerHead(d, flag, m, k);
    hide Part, Word, NextMagic, DecodeFlag;
    WordConcat(head, tail, 2 + m, k);
    WordConcat(head, tail, 2 + m, 1);
  }

  lemma InnerHead(d: Record, flag: nat, m: nat, k: nat)
    requires m == NextMagic(d, 0) && 4 * m + 4 <= |d| && k < 2 + m && 1 <= flag <= 2
    ensures var head := Part(flag, d[..4 * m]);
      |head| == 4 * (2 + m) && (MagicAt(head, k) <==> k == 0) && DecodeFlag(Word(head, 4)) == flag
  {
    forall i: nat
      ensures !MagicAt(d[..4 * m], i)
    {
      PrefixNoMagic(d, m, i);
    }
    WholeWords(m);
    PartWords(flag, d[..4 * m]);
    PartMagic(flag, d[..4 * m], k);
    hide Word, DecodeFlag, EncodeLRec;
  }

  lemma {:induction false} EscapeMagic(d: Record, first: bool, k: nat)
    requires k < EscapeWords(d)
    ensures |Escape(d, first)| == 4 * EscapeWords(d)
    ensures MagicOnlyAtParts(d, first, Escape(d, first), k)
    decreases |d|
  {
    hide Part;
    hide Word;
    hide DecodeFlag;
    EscapeLength(d, first);
    var m := NextMagic(d, 0);
    if 4 * m + 4 > |d| {
      LastPart(d, first, k);
    } else {
      var rest := d[4 * m + 4..];
      var head := Part(if first then 1 else 2, d[..4 * m]);
      var tail := Escape(rest, false);
      EscapeLength(rest, false);
      if k < 2 + m {
        InnerPart(d, first, m, tail, k);
      } else {
        EscapeMagic(rest, false, k - 2 - m);
        PartBehind(d, first, m, head, tail, k);
      }
    }
  }

  /** A word behind the first part is the word of the rest of the record. */
  lemma PartBehind(d: Record, first: bool, m: nat, head: seq<byte>, tail: seq<byte>, k: nat)
    requires m == NextMagic(d, 0) && 4 * m + 4 <= |d| && |head| == 4 * (2 + m) && 4 * k + 4 <= |head| + |tail|
    requires k >= 2 + m && MagicOnlyAtParts(d[4 * m + 4..], false, tail, k - 2 - m)
    ensures MagicOnlyAtParts(d, first, head + tail, k)
  {
    hide Word, DecodeFlag, NextMagic;
    WordConcat(head, tail, 2 + m, k);
    if 4 * k + 8 <= |head + tail| {
      WordConcat(head, tail, 2 + m, k + 1);
    }
  }

  /** A record head as the readers recognise it: magic followed by a length word with flag 0 or 1. */
  predicate IsHead(s: seq<byte>, w: nat) {
    4 * w + 8 <= |s| && Word(s, 4 * w) == MAGIC && DecodeFlag(Word(s, 4 * (w + 1))) <= 1
  }

  /** Word k of EncodeAll(rs) is the first word of a record. */
  ghost predicate RecordStart(rs: seq<Record>, k: int) {
    rs != [] && (k == 0 || (k >= EscapeWords(rs[0]) && RecordStart(rs[1..], k - EscapeWords(rs[0]))))
  }

  lemma {:induction false} StartInside(rs: seq<Record>, k: int)
    requires RecordStart(rs, k)
    ensures 0 <= k && k + 2 <= AllWords(rs)
  {
    if k != 0 {
      StartInside(rs[1..], k - EscapeWords(rs[0]));
    }
  }

  lemma {:induction false} HeadIffRecordStart(rs: seq<Record>, k: nat)
    ensures IsHead(EncodeAll(rs), k) <==> RecordStart(rs, k)
    ensures MagicAt(EncodeAll(rs), k) ==> 4 * k + 8 <= |EncodeAll(rs)|
  {
    hide Word;
    hide DecodeFlag;
    hide Part;
    EncodeAllLength(rs);
    if k >= AllWords(rs) {
      if RecordStart(rs, k) {
        StartInside(rs, k);
      }
    } else {
      var n := EscapeWords(rs[0]);
      var a, b := Encode(rs[0]), EncodeAll(rs[1..]);
      WordConcat(a, b, n, k);
      if 4 * k + 8 <= |a + b| {
        WordConcat(a, b, n, k + 1);
      }
      if k < n {
        EscapeMagic(rs[0], true, k);
        assert PartStart(rs[0], 0);
      } else {
        HeadIffRecordStart(rs[1..], k - n);
      }
    }
  }
}
