/** The lines of a text input, and when the ranks and the files give all of them. */
module TextLines {
  import opened Sequences
  import opened Options
  import opened Bytes
  import opened SplitRanges
  import opened SplitRecords
  import opened SplitText

  predicate LineEnds(c: byte) {
    c == 10 || c == 13
  }

  /** How many bytes come before the first line end. */
  function LineLength(s: seq<byte>): (n: nat)
    ensures n <= |s| && (n < |s| ==> LineEnds(s[n]))
    ensures forall i :: 0 <= i < n ==> !LineEnds(s[i])
  {
    if s == [] || LineEnds(s[0]) then 0 else 1 + LineLength(s[1..])
  }

  /** The lines: the longest stretches without a line end, so empty lines are none. */
  ghost function Lines(s: seq<byte>): seq<seq<byte>>
    decreases |s|
  {
    if s == [] then []
    else if LineEnds(s[0]) then Lines(s[1..])
    else [s[..LineLength(s)]] + Lines(s[LineLength(s)..])
  }

  // ---- what the lines are, place by place ----

  ghost predicate Begins(s: seq<byte>, i: nat) {
    i < |s| && !LineEnds(s[i]) && (i > 0 ==> LineEnds(s[i - 1]))
  }

  /** How many lines begin before n. */
  ghost function Begun(s: seq<byte>, n: nat): nat {
    if n == 0 then 0 else Begun(s, n - 1) + if Begins(s, n - 1) then 1 else 0
  }

  /** Without its first k bytes, which end with a line end or hold one whole line, the text has that many lines fewer. */
  lemma {:induction false} BegunBehind(s: seq<byte>, k: nat, n: nat)
    requires 0 < k <= n <= |s| && (LineEnds(s[k - 1]) || k == |s| || LineEnds(s[k]))
    ensures Begun(s, n) == Begun(s, k) + Begun(s[k..], n - k)
  {
    if n > k {
      BegunBehind(s, k, n - 1);
      assert Begins(s[k..], n - 1 - k) <==> Begins(s, n - 1);
    }
  }

  lemma {:induction false} BegunInLine(s: seq<byte>, n: nat)
    requires s != [] && n <= LineLength(s)
    ensures Begun(s, n) == if n == 0 then 0 else 1
  {
    if n > 1 {
      BegunInLine(s, n - 1);
    }
  }

  /** What the first line end or the first line adds. */
  lemma FirstPiece(s: seq<byte>, n: nat) returns (k: nat, first: seq<seq<byte>>)
    requires s != [] && n <= |s|
    ensures k == if LineEnds(s[0]) then 1 else LineLength(s)
    ensures first == if LineEnds(s[0]) then [] else [s[..k]]
    ensures 0 < k <= |s| && Lines(s) == first + Lines(s[k..])
    ensures k <= n ==> Begun(s, n) == |first| + Begun(s[k..], n - k)
    ensures Begun(s, 0) == 0
  {
    k := if LineEnds(s[0]) then 1 else LineLength(s);
    first := if LineEnds(s[0]) then [] else [s[..k]];
    if LineEnds(s[0]) {
      assert Begun(s, 1) == 0;
    } else {
      BegunInLine(s, k);
    }
    if k <= n {
      BegunBehind(s, k, n);
    }
  }

  /** The line that begins at i reaches up to e. */
  ghost predicate Spans(s: seq<byte>, i: nat, e: nat) {
    Begins(s, i) && i < e <= |s| && (e < |s| ==> LineEnds(s[e])) && forall j :: i <= j < e ==> !LineEnds(s[j])
  }

  lemma SpansBehind(s: seq<byte>, i: nat, e: nat, k: nat)
    requires Spans(s, i, e) && s != [] && k == (if LineEnds(s[0]) then 1 else LineLength(s))
    ensures i == 0 ==> e == k && !LineEnds(s[0])
    ensures i > 0 ==> 0 < k <= i && Spans(s[k..], i - k, e - k)
  {
    if i == 0 {
      assert e == k;
    } else if LineEnds(s[0]) {
      assert s[k..] == s[1..];
    }
  }

  lemma Behind(s: seq<byte>, first: seq<seq<byte>>, rest: seq<seq<byte>>, b: nat, k: nat, i: nat, e: nat)
    requires k <= i <= e <= |s| && b < |rest| && rest[b] == s[k..][i - k..e - k]
    ensures (first + rest)[|first| + b] == s[i..e]
  {
  }

  /** Where a line begins, it is the line of that number, and it reaches to the next line end. */
  lemma {:induction false} LineAt(s: seq<byte>, i: nat, e: nat)
    requires Spans(s, i, e)
    ensures Begun(s, i) < |Lines(s)| && Lines(s)[Begun(s, i)] == s[i..e]
    decreases |s|
  {
    var k, first := FirstPiece(s, i);
    assert i < e <= |s|;
    SpansBehind(s, i, e, k);
    hide *;
    if i > 0 {
      LineAt(s[k..], i - k, e - k);
      Behind(s, first, Lines(s[k..]), Begun(s[k..], i - k), k, i, e);
    } else {
      assert s[i..e] == s[..k];
    }
  }

  /** There are as many lines as places where one begins. */
  lemma {:induction false} LinesCounted(s: seq<byte>)
    ensures |Lines(s)| == Begun(s, |s|)
    decreases |s|
  {
    if s != [] {
      var k, first := FirstPiece(s, |s|);
      LinesCounted(s[k..]);
    }
  }

  // ---- joining texts ----

  /** No line runs over the joint. */
  ghost predicate Apart(a: seq<byte>, b: seq<byte>) {
    a == [] || b == [] || LineEnds(a[|a| - 1]) || LineEnds(b[0])
  }

  lemma {:induction false} LengthJoined(a: seq<byte>, b: seq<byte>)
    ensures LineLength(a + b) == if LineLength(a) < |a| then LineLength(a) else |a| + LineLength(b)
  {
    if a == [] {
      assert a + b == b;
    } else {
      assert (a + b)[1..] == a[1..] + b;
      if !LineEnds(a[0]) {
        LengthJoined(a[1..], b);
      }
    }
  }

  /** The lines of two texts are those of the joined text, unless one line runs over the joint. */
  lemma {:induction false} LinesJoined(a: seq<byte>, b: seq<byte>)
    ensures Apart(a, b) ==> Lines(a + b) == Lines(a) + Lines(b)
    ensures !Apart(a, b) ==> |Lines(a + b)| == |Lines(a)| + |Lines(b)| - 1
    decreases |a|
  {
    if a == [] {
      assert a + b == b;
    } else if LineEnds(a[0]) {
      assert (a + b)[1..] == a[1..] + b;
      LinesJoined(a[1..], b);
    } else {
      LengthJoined(a, b);
      var k := LineLength(a);
      if k < |a| {
        assert (a + b)[..k] == a[..k] && (a + b)[k..] == a[k..] + b;
        LinesJoined(a[k..], b);
        assert [a[..k]] + (Lines(a[k..]) + Lines(b)) == [a[..k]] + Lines(a[k..]) + Lines(b);
      } else {
        LineAlone(a);
        LineInFront(a, b);
      }
    }
  }

  lemma LineAlone(a: seq<byte>)
    requires a != [] && LineLength(a) == |a|
    ensures Lines(a) == [a]
  {
    assert a[..|a|] == a && a[|a|..] == [];
  }

  lemma LineInFront(a: seq<byte>, b: seq<byte>)
    requires a != [] && LineLength(a) == |a|
    ensures Apart(a, b) ==> Lines(a + b) == [a] + Lines(b)
    ensures !Apart(a, b) ==> |Lines(a + b)| == |Lines(b)|
  {
    LengthJoined(a, b);
    var j := LineLength(b);
    assert (a + b)[|a| + j..] == b[j..];
    assert (a + b)[..|a| + j] == a + b[..j];
    if Apart(a, b) {
      assert b[..0] == [] && b[0..] == b;
    }
  }

  /** The lines of several texts, one after the other. */
  ghost function AllLines(ss: seq<seq<byte>>): seq<seq<byte>> {
    if ss == [] then [] else AllLines(ss[..|ss| - 1]) + Lines(ss[|ss| - 1])
  }

  lemma AllLinesAppend(ss: seq<seq<byte>>, s: seq<byte>)
    ensures AllLines(ss + [s]) == AllLines(ss) + Lines(s)
  {
    assert (ss + [s])[..|ss + [s]| - 1] == ss;
  }

  // ---- several files ----

  /** No line runs on from one file into the next. */
  ghost predicate Separate(files: seq<seq<byte>>) {
    forall i :: 0 < i < |files| ==> Apart(files[i - 1], files[i])
  }

  /** Reading on from file to file gives the lines of the files if and only if none runs over a joint. */
  lemma {:induction false} FilesJoined(files: seq<seq<byte>>)
    requires forall i :: 0 <= i < |files| ==> files[i] != []
    ensures |Lines(Flatten(files))| <= |AllLines(files)|
    ensures Lines(Flatten(files)) == AllLines(files) <==> Separate(files)
    ensures !Separate(files) ==> |Lines(Flatten(files))| < |AllLines(files)|
  {
    hide Lines, LineEnds;
    if files != [] {
      var n := |files| - 1;
      var front, f := files[..n], files[n];
      assert files == front + [f];
      FilesJoined(front);
      FlattenAppend(front, f);
      AllLinesAppend(front, f);
      LinesJoined(Flatten(front), f);
      LastByte(front);
      SeparateMore(files);
    } else {
      NoLines();
    }
  }

  lemma NoLines()
    ensures Lines([]) == []
  {
  }

  lemma SeparateMore(files: seq<seq<byte>>)
    requires files != []
    ensures var n := |files| - 1; Separate(files) <==> Separate(files[..n]) && (n > 0 ==> Apart(files[n - 1], files[n]))
  {
    hide Apart;
    var n := |files| - 1;
    forall i | 0 < i < n
      ensures Apart(files[i - 1], files[i]) == Apart(files[..n][i - 1], files[..n][i])
    {
    }
  }

  lemma LastByte(files: seq<seq<byte>>)
    requires forall i :: 0 <= i < |files| ==> files[i] != []
    ensures var all := Flatten(files);
            if files == [] then all == [] else all != [] && all[|all| - 1] == files[|files| - 1][|files[|files| - 1]| - 1]
  {
    if files != [] {
      var n := |files| - 1;
      assert files == files[..n] + [files[n]];
      FlattenAppend(files[..n], files[n]);
    }
  }

  // ---- all ranks ----

  /** The lines that the first k ranks are given. */
  ghost function RankLines(files: seq<seq<byte>>, nsplit: nat, k: nat): seq<seq<byte>>
    requires Files(Text, files) && k <= nsplit && nsplit > 0 && Tiles(Text, files, nsplit)
  {
    if k == 0 then [] else RankLines(files, nsplit, k - 1) + Lines(RankBytes(Text, files, nsplit, k - 1))
  }

  /** The input is parted at p without cutting a line. */
  ghost predicate Parted(all: seq<byte>, p: nat) {
    p <= |all| && Apart(all[..p], all[p..])
  }

  /** Every file boundary parts the lines, if no line runs over one. */
  lemma BoundaryParts(files: seq<seq<byte>>, i: nat)
    requires (forall k :: 0 <= k < |files| ==> files[k] != []) && Separate(files) && i <= |files|
    ensures Parted(Flatten(files), Offset(files, i))
  {
    FlattenAt(files, i);
    if 0 < i < |files| {
      LastByte(files[..i]);
      assert Apart(files[i - 1], files[i]);
      assert Flatten(files[i..])[0] == files[i][0];
    }
  }

  lemma {:induction false} FlattenAt(files: seq<seq<byte>>, i: nat)
    requires i <= |files|
    ensures Offset(files, i) <= |Flatten(files)|
    ensures Flatten(files)[..Offset(files, i)] == Flatten(files[..i]) && Flatten(files)[Offset(files, i)..] == Flatten(files[i..])
  {
    if i > 0 {
      FlattenAt(files[1..], i - 1);
      assert files[1..][i - 1..] == files[i..];
      assert files[..i][1..] == files[1..][..i - 1];
    } else {
      assert files[0..] == files;
    }
  }

  /** So does the beginning of a line inside a file. */
  lemma LineParts(files: seq<seq<byte>>, i: nat, p: nat)
    requires i < |files| && LineBegins(files[i], p)
    ensures Parted(Flatten(files), Offset(files, i) + p)
  {
    FlattenAt(files, i);
    var all, o := Flatten(files), Offset(files, i);
    assert files[i..][0] == files[i];
    assert all[o..][p - 1] == files[i][p - 1];
    assert all[o + p - 1] == files[i][p - 1];
  }

  lemma PointParts(files: seq<seq<byte>>, nsplit: nat, rank: nat)
    requires nsplit > 0 && Files(Text, files) && Separate(files)
    ensures var q := Point(Text, files, nsplit, rank); q.Some? && Parted(Flatten(files), q.value)
  {
    hide Point, Nominal, Separate, Parted, LineBegins;
    TextPoint(files, nsplit, rank);
    PointInside(Text, files, nsplit, rank);
    var q := Point(Text, files, nsplit, rank).value;
    var i := Located(files, q);
    if Offset(files, i) == q {
      BoundaryParts(files, i);
    } else {
      NoLineIsCut(files, nsplit, rank, i);
      LineParts(files, i, q - Offset(files, i));
    }
  }

  lemma {:induction false} RanksSoFar(files: seq<seq<byte>>, nsplit: nat, k: nat)
    requires Files(Text, files) && k <= nsplit && nsplit > 0 && Tiles(Text, files, nsplit) && Separate(files)
    ensures RankLines(files, nsplit, k) == Lines(Joined(Text, files, nsplit, k))
  {
    hide Lines, Point, Separate, Tiles, Files, RankBytes;
    NoLines();
    if k > 0 {
      RanksSoFar(files, nsplit, k - 1);
      var a, b := Joined(Text, files, nsplit, k - 1), RankBytes(Text, files, nsplit, k - 1);
      RankApart(files, nsplit, k - 1);
      LinesJoined(a, b);
    }
  }

  lemma RankApart(files: seq<seq<byte>>, nsplit: nat, rank: nat)
    requires Files(Text, files) && rank < nsplit && Tiles(Text, files, nsplit) && Separate(files)
    ensures Apart(Joined(Text, files, nsplit, rank), RankBytes(Text, files, nsplit, rank))
  {
    JoinedPrefix(Text, files, nsplit, rank);
    PointParts(files, nsplit, rank);
    assert RangeInOrder(Text, files, nsplit, rank);
    PointInside(Text, files, nsplit, rank + 1);
    FlattenLength(files);
    hide Point, Separate, Joined, Flatten;
    var all, p, q := Flatten(files), Point(Text, files, nsplit, rank).value, Point(Text, files, nsplit, rank + 1).value;
    if p < q {
      assert all[p..q][0] == all[p..][0];
    }
  }

  /** The lines of the ranks, however many they are, are the lines of the files. */
  ghost predicate RanksGiveLines(files: seq<seq<byte>>, nsplit: nat)
    requires Files(Text, files) && nsplit > 0
  {
    Tiles(Text, files, nsplit) && RankLines(files, nsplit, nsplit) == AllLines(files)
  }

  /**
   * Whatever the number of ranks, they are given the lines of the files, each once
   * and in order, if and only if no file without a line end at its end is followed
   * by one that begins with text.
   */
  lemma RanksCoverLinesIff(files: seq<seq<byte>>)
    requires Files(Text, files)
    ensures (forall nsplit: nat :: nsplit > 0 ==> RanksGiveLines(files, nsplit)) <==> Separate(files)
  {
    hide Lines, Point, Separate, RankBytes;
    FilesJoined(files);
    if Separate(files) {
      forall nsplit: nat | nsplit > 0
        ensures RanksGiveLines(files, nsplit)
      {
        TextTiles(files, nsplit);
        RanksSoFar(files, nsplit, nsplit);
        TilesJoin(Text, files, nsplit);
      }
    } else {
      TextTiles(files, 1);
      TilesJoin(Text, files, 1);
      OneRank(files);
      assert !RanksGiveLines(files, 1);
    }
  }

  lemma OneRank(files: seq<seq<byte>>)
    requires Files(Text, files) && Tiles(Text, files, 1) && Joined(Text, files, 1, 1) == Flatten(files)
    ensures RankLines(files, 1, 1) == Lines(Flatten(files))
  {
    hide Lines, Point, RankBytes;
    var b := RankBytes(Text, files, 1, 0);
    assert Joined(Text, files, 1, 0) == [] && [] + b == b;
    assert RankLines(files, 1, 0) == [];
  }
}
