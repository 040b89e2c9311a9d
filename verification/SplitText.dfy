/** Text input: where the ranges of the ranks begin, said of the bytes alone. */
module SplitText {
  import opened Sequences
  import opened Arithmetic
  import opened Options
  import opened Bytes
  import opened SplitRanges
  import opened SplitRecords

  /** A line begins at i: the byte before is a line feed or a carriage return, and the byte itself is neither. */
  ghost predicate LineBegins(f: seq<byte>, i: int) {
    0 < i < |f| && (f[i - 1] == 10 || f[i - 1] == 13) && f[i] != 10 && f[i] != 13
  }

  /** q is the first place behind p where a line begins, or the end of the file. */
  ghost predicate NextLine(f: seq<byte>, p: int, q: int) {
    p < q <= |f| && (q < |f| ==> LineBegins(f, q)) && forall i :: p < i < q ==> !LineBegins(f, i)
  }

  lemma {:induction false} PastEolIs(f: seq<byte>, p: nat)
    requires p < |f|
    ensures var q := PastEol(f, p);
            && p < q && (forall i :: p <= i < q - 1 ==> f[i] != 10 && f[i] != 13)
            && (q < |f| ==> f[q - 1] == 10 || f[q - 1] == 13)
    decreases |f| - p
  {
    if !Eol(f[p]) && p + 1 < |f| {
      PastEolIs(f, p + 1);
    }
  }

  lemma {:induction false} SkipEolsIs(f: seq<byte>, p: nat)
    requires p <= |f|
    ensures var q := SkipEols(f, p);
            && (forall i :: p <= i < q ==> f[i] == 10 || f[i] == 13)
            && (q < |f| ==> f[q] != 10 && f[q] != 13)
    decreases |f| - p
  {
    if p < |f| && Eol(f[p]) {
      SkipEolsIs(f, p + 1);
    }
  }

  /** From any place inside a text file seeking goes to the beginning of the next line. */
  lemma SeekTextIsNextLine(f: seq<byte>, p: nat)
    requires p < |f|
    ensures NextLine(f, p, SeekText(f, p))
  {
    PastEolIs(f, p);
    SkipEolsIs(f, PastEol(f, p));
  }

  /** There is only one such place. */
  lemma NextLineUnique(f: seq<byte>, p: int, q: int, q': int)
    requires NextLine(f, p, q) && NextLine(f, p, q')
    ensures q == q'
  {
  }

  // ---- several files ----

  /** The byte b of the input lies inside file i, behind its first byte. */
  ghost predicate Inside(files: seq<seq<byte>>, i: nat, b: int)
    requires i < |files|
  {
    Offset(files, i) < b < Offset(files, i) + |files[i]|
  }

  ghost predicate Boundary(files: seq<seq<byte>>, b: int) {
    exists i: nat :: i <= |files| && Offset(files, i) == b
  }

  /** Every offset is a file boundary or inside one file. */
  lemma {:induction false} Located(files: seq<seq<byte>>, b: nat) returns (i: nat)
    requires b <= TotalSize(files)
    ensures i <= |files| && Offset(files, i) <= b
    ensures Offset(files, i) == b || (i < |files| && Inside(files, i, b))
  {
    i := 0;
    if b > 0 && b >= |files[0]| {
      i := Located(files[1..], b - |files[0]|);
      i := i + 1;
      assert Offset(files, i) == |files[0]| + Offset(files[1..], i - 1);
    }
  }

  /** Where a nominal cut of a text input goes: nowhere from a file boundary, otherwise to the next line of its file. */
  ghost predicate CutAtLine(files: seq<seq<byte>>, b: nat, q: nat) {
    || (Boundary(files, b) && q == b)
    || exists i: nat :: i < |files| && Inside(files, i, b) && NextLine(files[i], b - Offset(files, i), q - Offset(files, i))
  }

  /** The begin of every rank is its nominal begin moved to the next line. */
  lemma TextPoint(files: seq<seq<byte>>, nsplit: nat, rank: nat)
    requires nsplit > 0 && Files(Text, files)
    ensures var q := Point(Text, files, nsplit, rank);
            q.Some? && CutAtLine(files, Nominal(Text, TotalSize(files), nsplit, rank), q.value)
  {
    hide Nominal, Adjust, SeekText, NextLine;
    TotalAligned(Text, files);
    var b := Nominal(Text, TotalSize(files), nsplit, rank);
    var i := Located(files, b);
    if Offset(files, i) == b {
      AdjustBoundary(Text, files, i);
    } else {
      var p := b - Offset(files, i);
      AdjustInFile(Text, files, i, p);
      SeekTextIsNextLine(files[i], p);
    }
  }

  /** No rank begins or ends within a line: inside a file it does so at the first byte of a line. */
  lemma NoLineIsCut(files: seq<seq<byte>>, nsplit: nat, rank: nat, i: nat)
    requires nsplit > 0 && Files(Text, files) && i < |files| && Point(Text, files, nsplit, rank).Some?
    requires Inside(files, i, Point(Text, files, nsplit, rank).value)
    ensures LineBegins(files[i], Point(Text, files, nsplit, rank).value - Offset(files, i))
  {
    hide Point, Nominal;
    TextPoint(files, nsplit, rank);
    var q := Point(Text, files, nsplit, rank).value;
    var b := Nominal(Text, TotalSize(files), nsplit, rank);
    if Boundary(files, b) && q == b {
      var j: nat :| j <= |files| && Offset(files, j) == b;
      NotInside(files, i, j, q);
    } else {
      var j: nat :| j < |files| && Inside(files, j, b) && NextLine(files[j], b - Offset(files, j), q - Offset(files, j));
      SameFile(files, i, j, q);
    }
  }

  lemma {:induction false} OffsetGrows(files: seq<seq<byte>>, i: nat, j: nat)
    requires i < j <= |files|
    ensures Offset(files, i) + |files[i]| <= Offset(files, j)
  {
    OffsetStep(files, j - 1);
    if i < j - 1 {
      OffsetGrows(files, i, j - 1);
    }
  }

  /** No file boundary lies inside a file. */
  lemma NotInside(files: seq<seq<byte>>, i: nat, j: nat, q: int)
    requires i < |files| && j <= |files| && Offset(files, j) == q
    ensures !Inside(files, i, q)
  {
    if j < i {
      OffsetGrows(files, j, i);
    } else if i < j {
      OffsetGrows(files, i, j);
    }
  }

  lemma SameFile(files: seq<seq<byte>>, i: nat, j: nat, q: int)
    requires i < |files| && j < |files| && Inside(files, i, q) && Offset(files, j) < q <= Offset(files, j) + |files[j]|
    ensures i == j
  {
    if j < i {
      OffsetGrows(files, j, i);
    } else if i < j {
      OffsetGrows(files, i, j);
    }
  }

  // ---- the nominal cuts are even ----

  /** A nominal range is never longer than its share by more than the alignment. */
  lemma NominalShare(format: Format, total: nat, nsplit: nat, rank: nat)
    requires nsplit > 0 && Aligned(format, total)
    ensures Nominal(format, total, nsplit, rank + 1) <= Nominal(format, total, nsplit, rank) + total / nsplit + 4
    ensures Nominal(format, total, nsplit, rank + 1) < total ==>
              Nominal(format, total, nsplit, rank + 1) >= Nominal(format, total, nsplit, rank) + total / nsplit
  {
    StepShare(format, total, nsplit);
    hide Step;
    var step := Step(format, total, nsplit);
    assert step * (rank + 1) == step * rank + step;
  }

  lemma StepShare(format: Format, total: nat, nsplit: nat)
    requires nsplit > 0
    ensures total / nsplit <= Step(format, total, nsplit) <= total / nsplit + 4
  {
    CeilingIs(total, nsplit);
    var q := (total + nsplit - 1) / nsplit;
    assert q <= total / nsplit + 1;
  }
}
