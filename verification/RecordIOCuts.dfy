/** Cutting a written RecordIO file at record heads: the head found from word k is the start of the
    first record that does not begin before k. */
module RecordIOCuts {
  import opened Bytes
  import opened RecordIO

  /** The number of records of EncodeAll(rs) that start before word k. */
  ghost function CountBefore(rs: seq<Record>, k: int): (n: nat)
    ensures n <= |rs|
  {
    if rs == [] || k <= 0 then 0 else 1 + CountBefore(rs[1..], k - EscapeWords(rs[0]))
  }

  /** The word at which the first record not starting before k starts, or the end. */
  ghost function Cut(rs: seq<Record>, k: int): nat {
    AllWords(rs[..CountBefore(rs, k)])
  }

  lemma CountZero(rs: seq<Record>)
    ensures CountBefore(rs, 0) == 0
  {
  }

  lemma {:induction false} CountMonotone(rs: seq<Record>, j: int, k: int)
    requires j <= k
    ensures CountBefore(rs, j) <= CountBefore(rs, k)
  {
    if rs != [] && j > 0 {
      CountMonotone(rs[1..], j - EscapeWords(rs[0]), k - EscapeWords(rs[0]));
    }
  }

  lemma {:induction false} CountAll(rs: seq<Record>, k: int)
    requires k >= AllWords(rs)
    ensures CountBefore(rs, k) == |rs|
  {
    if rs != [] {
      CountAll(rs[1..], k - EscapeWords(rs[0]));
    }
  }

  /** The words of the first n records, one record at a time. */
  lemma TakeWords(rs: seq<Record>, n: nat)
    requires 0 < n <= |rs|
    ensures AllWords(rs[..n]) == EscapeWords(rs[0]) + AllWords(rs[1..][..n - 1])
  {
    assert rs[..n][1..] == rs[1..][..n - 1];
  }

  /** Cut(rs, k) lies at or after k, is a record start or the end, and no record starts in between. */
  lemma {:induction false} CutIsNext(rs: seq<Record>, k: int, j: int)
    requires 0 <= k <= AllWords(rs)
    ensures k <= Cut(rs, k) <= AllWords(rs)
    ensures Cut(rs, k) == AllWords(rs) || RecordStart(rs, Cut(rs, k))
    ensures k <= j < Cut(rs, k) ==> !RecordStart(rs, j)
  {
    if rs == [] {
    } else if k == 0 {
    } else {
      var e := EscapeWords(rs[0]);
      TakeWords(rs, CountBefore(rs, k));
      if k >= e {
        CutIsNext(rs[1..], k - e, j - e);
      } else {
        assert CountBefore(rs, k) == 1;
        assert rs[1..] != [] ==> RecordStart(rs[1..], 0);
        assert RecordStart(rs, j) && j < e ==> j == 0;
      }
    }
  }

  /** The first record head at or after word k of a file of n words, or n. */
  function NextHead(s: seq<byte>, n: nat, k: nat): (h: nat)
    requires |s| == 4 * n && k <= n
    ensures k <= h <= n
    decreases n - k
  {
    if k + 2 > n then n else if IsHead(s, k) then k else NextHead(s, n, k + 1)
  }

  lemma {:induction false} NextHeadIs(s: seq<byte>, n: nat, k: nat, c: nat)
    requires |s| == 4 * n && k <= c <= n
    requires c == n || IsHead(s, c)
    requires forall j: nat :: k <= j < c ==> !IsHead(s, j)
    ensures NextHead(s, n, k) == c
    decreases n - k
  {
    hide IsHead;
    if k + 2 > n {
      if c < n {
        assert IsHead(s, c);
        HeadFits(s, c);
      }
    } else if k < c {
      NextHeadIs(s, n, k + 1, c);
    }
  }

  lemma HeadFits(s: seq<byte>, k: nat)
    requires IsHead(s, k)
    ensures 4 * k + 8 <= |s|
  {
  }

  /** Resynchronisation: searching for a head from any word of a written file finds the next record. */
  lemma NextHeadIsCut(rs: seq<Record>, k: nat)
    requires k <= AllWords(rs)
    ensures |EncodeAll(rs)| == 4 * AllWords(rs)
    ensures NextHead(EncodeAll(rs), AllWords(rs), k) == Cut(rs, k)
  {
    hide IsHead, Cut, RecordStart;
    EncodeAllLength(rs);
    var s := EncodeAll(rs);
    CutIsNext(rs, k, k);
    HeadIffRecordStart(rs, Cut(rs, k));
    forall j: nat | k <= j < Cut(rs, k)
      ensures !IsHead(s, j)
    {
      CutIsNext(rs, k, j);
      HeadIffRecordStart(rs, j);
    }
    NextHeadIs(s, AllWords(rs), k, Cut(rs, k));
  }

  /** The bytes between two cuts are exactly the records between them. */
  lemma CutBytes(rs: seq<Record>, i: nat, j: nat)
    requires i <= j <= |rs|
    ensures AllWords(rs[..i]) <= AllWords(rs[..j]) <= AllWords(rs)
    ensures |EncodeAll(rs)| == 4 * AllWords(rs)
    ensures EncodeAll(rs)[4 * AllWords(rs[..i])..4 * AllWords(rs[..j])] == EncodeAll(rs[i..j])
    ensures EncodeAll(rs)[4 * AllWords(rs[..j])..] == EncodeAll(rs[j..])
  {
    hide AllWords, EncodeAll;
    EncodeAllLength(rs);
    EncodeAllLength(rs[..i]);
    EncodeAllLength(rs[..j]);
    EncodeAllConcat(rs[..j], rs[j..]);
    assert rs == rs[..j] + rs[j..];
    EncodeAllConcat(rs[..i], rs[i..j]);
    assert rs[..j] == rs[..i] + rs[i..j];
  }
}
