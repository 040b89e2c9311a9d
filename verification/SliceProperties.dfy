/** What slicing promises: every key goes, with its own values, to the one server that owns it, and the pieces
    rejoin to the message. */
module SliceProperties {
  import opened Bytes
  import opened Sequences
  import opened Arithmetic
  import opened OrderedMatch
  import opened SliceMessage

  /** All keys lie in the message's key range and in some server range. */
  ghost predicate InServers(msg: Message, krs: seq<Range>)
    requires krs != []
  {
    forall i :: 0 <= i < |msg.key| ==> msg.range.Has(msg.key[i]) && krs[0].begin <= msg.key[i] < krs[|krs| - 1].end
  }

  /** A key position lies in piece i exactly when server i owns the key. */
  lemma OwnerOfKey(msg: Message, krs: seq<Range>, i: nat, p: nat)
    requires Sorted(msg.key) && krs != [] && Contiguous(krs) && InServers(msg, krs)
    requires i < |krs| && p < |msg.key|
    ensures Pos(msg, krs, i) <= p < Pos(msg, krs, i + 1) <==> krs[i].Has(msg.key[p])
  {
    assert Boundary(krs, i) == krs[i].begin;
    assert msg.range.Has(msg.key[p]);
  }

  lemma AllPositions(msg: Message, krs: seq<Range>)
    requires Sorted(msg.key) && krs != [] && Contiguous(krs) && InServers(msg, krs)
    ensures Pos(msg, krs, 0) == 0 && Pos(msg, krs, |krs|) == |msg.key|
  {
    var n := |msg.key|;
    if n > 0 {
      assert msg.range.Has(msg.key[0]) && msg.range.Has(msg.key[n - 1]);
    }
    BelowUnique(msg.key, msg.range.Project(Boundary(krs, 0)), 0);
    BelowUnique(msg.key, msg.range.Project(Boundary(krs, |krs|)), n);
  }

  /** A piece is sent exactly when its server owns some key. */
  lemma SentIffOwnsKey(msg: Message, krs: seq<Range>, i: nat)
    requires Sliceable(msg, krs) && InServers(msg, krs) && i < |krs| && msg.key != []
    ensures PieceOf(msg, krs, i, |msg.value|).valid <==> exists p :: 0 <= p < |msg.key| && krs[i].Has(msg.key[p])
  {
    hide Pos;
    PosMonotone(msg, krs, i);
    if Pos(msg, krs, i) < Pos(msg, krs, i + 1) {
      var p := Pos(msg, krs, i);
      OwnerOfKey(msg, krs, i, p);
      assert krs[i].Has(msg.key[p]) && msg.range.Has(msg.key[p]);
    } else {
      forall p | 0 <= p < |msg.key|
        ensures !krs[i].Has(msg.key[p])
      {
        OwnerOfKey(msg, krs, i, p);
      }
    }
  }

  // ---- rejoining ----

  /** The keys of the sent pieces among the first i. */
  ghost function JoinedKeys(msg: Message, krs: seq<Range>, i: nat): seq<Key>
    requires Sliceable(msg, krs) && i <= |krs|
  {
    if i == 0 then [] else JoinedKeys(msg, krs, i - 1) + PieceOf(msg, krs, i - 1, |msg.value|).key
  }

  /** The data of column c in the sent pieces among the first i. */
  ghost function JoinedData(msg: Message, krs: seq<Range>, c: nat, i: nat): seq<byte>
    requires Sliceable(msg, krs) && i <= |krs| && c < |msg.value| && msg.key != []
  {
    if i == 0 then []
    else
      var piece := PieceOf(msg, krs, i - 1, |msg.value|);
      JoinedData(msg, krs, c, i - 1) + (if piece.valid then piece.value[c].data else [])
  }

  ghost function JoinedLens(msg: Message, krs: seq<Range>, c: nat, i: nat): seq<nat>
    requires Sliceable(msg, krs) && i <= |krs| && c < |msg.value| && msg.key != [] && msg.value[c].Dynamic?
  {
    if i == 0 then []
    else
      var piece := PieceOf(msg, krs, i - 1, |msg.value|);
      JoinedLens(msg, krs, c, i - 1) + (if piece.valid then piece.value[c].lens else [])
  }

  /** What a piece holds, whether or not it is sent. */
  lemma PieceHolds(msg: Message, krs: seq<Range>, i: nat, c: nat)
    requires Sliceable(msg, krs) && InServers(msg, krs) && i < |krs| && msg.key != [] && c < |msg.value|
    ensures var piece, p, q := PieceOf(msg, krs, i, |msg.value|), Pos(msg, krs, i), Pos(msg, krs, i + 1);
      && p <= q && piece.valid == (p < q) && piece.key == msg.key[p..q]
      && (piece.valid ==> piece.value[c] == ColumnOf(msg, krs, i, c))
  {
    hide Segment;
    PosMonotone(msg, krs, i);
    SentIffOwnsKey(msg, krs, i);
    if Pos(msg, krs, i) < Pos(msg, krs, i + 1) {
      OwnerOfKey(msg, krs, i, Pos(msg, krs, i));
    }
  }

  lemma {:induction false} KeysPrefix(msg: Message, krs: seq<Range>, i: nat)
    requires Sliceable(msg, krs) && InServers(msg, krs) && i <= |krs| && msg.key != []
    ensures JoinedKeys(msg, krs, i) == msg.key[..Pos(msg, krs, i)]
  {
    hide Pos, PieceOf;
    AllPositions(msg, krs);
    if i > 0 {
      KeysPrefix(msg, krs, i - 1);
      KeysOfPiece(msg, krs, i - 1);
    }
  }

  lemma KeysOfPiece(msg: Message, krs: seq<Range>, i: nat)
    requires Sliceable(msg, krs) && InServers(msg, krs) && i < |krs| && msg.key != []
    ensures Pos(msg, krs, i) <= Pos(msg, krs, i + 1)
    ensures PieceOf(msg, krs, i, |msg.value|).key == msg.key[Pos(msg, krs, i)..Pos(msg, krs, i + 1)]
  {
    hide Pos, Segment;
    PosMonotone(msg, krs, i);
    if Pos(msg, krs, i) < Pos(msg, krs, i + 1) {
      OwnerOfKey(msg, krs, i, Pos(msg, krs, i));
      assert msg.range.Has(msg.key[Pos(msg, krs, i)]);
    }
  }

  lemma {:induction false} DataPrefix(msg: Message, krs: seq<Range>, c: nat, i: nat)
    requires Sliceable(msg, krs) && InServers(msg, krs) && i <= |krs| && msg.key != [] && c < |msg.value|
    ensures var col, n := msg.value[c], |msg.key|;
      && Pos(msg, krs, 0) == 0 && Pos(msg, krs, |krs|) == n
      && Start(col, n, 0, n, Pos(msg, krs, i)) <= |col.data|
      && JoinedData(msg, krs, c, i) == col.data[..Start(col, n, 0, n, Pos(msg, krs, i))]
    ensures msg.value[c].Dynamic? ==> JoinedLens(msg, krs, c, i) == msg.value[c].lens[..Pos(msg, krs, i)]
  {
    hide Pos, PieceOf, WellSized, ColumnOf, Start;
    var col, n := msg.value[c], |msg.key|;
    AllPositions(msg, krs);
    DynamicLength(col, n, 0, n);
    StartOfAll(col, n);
    if i > 0 {
      DataPrefix(msg, krs, c, i - 1);
      PieceHolds(msg, krs, i - 1, c);
      PosOrdered(msg, krs, i, |krs|);
      StartMonotone(col, n, 0, n, Pos(msg, krs, i - 1), Pos(msg, krs, i));
      ColumnIs(msg, krs, i - 1, c);
    }
  }

  lemma ColumnIs(msg: Message, krs: seq<Range>, i: nat, c: nat)
    requires Sliceable(msg, krs) && InServers(msg, krs) && i < |krs| && c < |msg.value| && msg.key != []
    ensures var col, n, p, q := msg.value[c], |msg.key|, Pos(msg, krs, i), Pos(msg, krs, i + 1);
      && p <= q <= n && WellSized(col, n, 0, n)
      && ColumnOf(msg, krs, i, c) == Segment(col, n, 0, n, p, q)
  {
    hide Segment, WellSized;
    AllPositions(msg, krs);
    PosMonotone(msg, krs, i);
  }

  lemma StartOfAll(col: Column, n: nat)
    requires n > 0 && WellSized(col, n, 0, n)
    ensures Start(col, n, 0, n, 0) == 0 && Start(col, n, 0, n, n) == |col.data|
  {
  }

  /** The sent pieces rejoin to the original message: keys, data and lengths. */
  lemma PiecesRejoin(msg: Message, krs: seq<Range>, c: nat)
    requires Sliceable(msg, krs) && InServers(msg, krs) && msg.key != [] && c < |msg.value|
    ensures JoinedKeys(msg, krs, |krs|) == msg.key
    ensures JoinedData(msg, krs, c, |krs|) == msg.value[c].data
    ensures msg.value[c].Dynamic? ==>
              |msg.key| <= |msg.value[c].lens| && JoinedLens(msg, krs, c, |krs|) == msg.value[c].lens[..|msg.key|]
  {
    hide Pos, WellSized, Start, JoinedKeys, JoinedData, JoinedLens;
    AllPositions(msg, krs);
    KeysPrefix(msg, krs, |krs|);
    DataPrefix(msg, krs, c, |krs|);
    StartOfAll(msg.value[c], |msg.key|);
    DynamicLength(msg.value[c], |msg.key|, 0, |msg.key|);
  }

  // ---- each key with its own values ----

  /** The bytes of the key at position p, read from a column of n keys. */
  ghost function ValuesAt(col: Column, n: nat, p: nat): seq<byte>
    requires WellSized(col, n, 0, n) && p < n
  {
    StartMonotone(col, n, 0, n, p, p + 1);
    col.data[Start(col, n, 0, n, p)..Start(col, n, 0, n, p + 1)]
  }

  /** A segment is itself a column in which each key finds the bytes it had. */
  lemma SegmentValues(col: Column, n: nat, p: nat, q: nat, r: nat)
    requires WellSized(col, n, 0, n) && p <= r < q <= n
    ensures var seg := Segment(col, n, 0, n, p, q);
      Segmented(seg, q - p) && ValuesIn(seg, q - p, r - p) == ValuesAt(col, n, r)
  {
    match col {
      case Fixed(data) => FixedValues(col, n, p, q, r);
      case Dynamic(data, lens) => DynamicValues(col, n, p, q, r);
    }
  }

  /** Well sized, or dynamic and without any value. */
  ghost predicate Segmented(col: Column, n: nat) {
    WellSized(col, n, 0, n) || (col.Dynamic? && |col.lens| == n && Sum(col.lens[0..n]) == 0 && col.data == [])
  }

  ghost function ValuesIn(col: Column, n: nat, p: nat): seq<byte>
    requires Segmented(col, n) && p < n
  {
    if WellSized(col, n, 0, n) then ValuesAt(col, n, p) else []
  }

  lemma FixedValues(col: Column, n: nat, p: nat, q: nat, r: nat)
    requires WellSized(col, n, 0, n) && p <= r < q <= n && col.Fixed?
    ensures var seg := Segment(col, n, 0, n, p, q);
      WellSized(seg, q - p, 0, q - p) && ValuesAt(seg, q - p, r - p) == ValuesAt(col, n, r)
  {
    var k := |col.data| / n;
    var seg := Segment(col, n, 0, n, p, q);
    StartMonotone(col, n, 0, n, p, q);
    StartMonotone(col, n, 0, n, p, r);
    StartMonotone(col, n, 0, n, r + 1, q);
    Difference(p, q, k);
    assert |seg.data| == (q - p) * k;
    Quotient(q - p, k);
    assert Width(seg, q - p, 0) == k;
    Difference(p, r, k);
    Difference(p, r + 1, k);
  }

  lemma Difference(a: nat, b: nat, k: nat)
    requires a <= b
    ensures b * k - a * k == (b - a) * k
  {
  }

  lemma DynamicValues(col: Column, n: nat, p: nat, q: nat, r: nat)
    requires WellSized(col, n, 0, n) && p <= r < q <= n && col.Dynamic?
    ensures var seg := Segment(col, n, 0, n, p, q);
      Segmented(seg, q - p) && ValuesIn(seg, q - p, r - p) == ValuesAt(col, n, r)
  {
    hide Sum;
    var lens, total := col.lens, Sum(col.lens[0..n]);
    var k := |col.data| / total;
    var seg := Segment(col, n, 0, n, p, q);
    var units := Sum(lens[p..q]);
    DynamicStarts(col, n, p, q, k);
    DynamicStarts(col, n, p, r, k);
    DynamicStarts(col, n, p, r + 1, k);
    StartMonotone(col, n, 0, n, r, r + 1);
    StartMonotone(col, n, 0, n, r + 1, q);
    assert |seg.data| == units * k;
    assert seg.lens == lens[p..q];
    assert seg.lens[0..q - p] == lens[p..q];
    if units == 0 {
      UnitsInside(lens, p, r, q);
    } else {
      Quotient(units, k);
      assert seg.lens[0..r - p] == lens[p..r] && seg.lens[0..r - p + 1] == lens[p..r + 1];
      assert Start(seg, q - p, 0, q - p, r - p) == Sum(lens[p..r]) * k;
      assert Start(seg, q - p, 0, q - p, r - p + 1) == Sum(lens[p..r + 1]) * k;
      SliceOfSlice(col.data, Start(col, n, 0, n, p), Start(col, n, 0, n, q), Sum(lens[p..r]) * k, Sum(lens[p..r + 1]) * k);
    }
  }

  lemma SliceOfSlice(s: seq<byte>, a: nat, b: nat, x: nat, y: nat)
    requires a <= b <= |s| && x <= y <= b - a
    ensures s[a..b][x..y] == s[a + x..a + y]
  {
    forall i | 0 <= i < y - x
      ensures s[a..b][x..y][i] == s[a + x..a + y][i]
    {
      assert s[a..b][x + i] == s[a + x + i];
    }
  }

  /** The distance between two cuts of a dynamic column. */
  lemma DynamicStarts(col: Column, n: nat, p: nat, q: nat, k: nat)
    requires WellSized(col, n, 0, n) && p <= q <= n && col.Dynamic? && k == |col.data| / Sum(col.lens[0..n])
    ensures Start(col, n, 0, n, q) == Start(col, n, 0, n, p) + Sum(col.lens[p..q]) * k
    ensures Start(col, n, 0, n, p) <= Start(col, n, 0, n, q) <= |col.data|
  {
    hide Sum;
    StartMonotone(col, n, 0, n, p, q);
    SumBetween(col.lens, p, q);
    Difference(Sum(col.lens[0..p]), Sum(col.lens[0..q]), k);
  }

  lemma SumBetween(lens: seq<nat>, p: nat, q: nat)
    requires p <= q <= |lens|
    ensures Sum(lens[0..q]) == Sum(lens[0..p]) + Sum(lens[p..q])
  {
    assert lens[0..q] == lens[0..p] + lens[p..q];
    SumConcat(lens[0..p], lens[p..q]);
  }

  lemma UnitsInside(lens: seq<nat>, p: nat, r: nat, q: nat)
    requires p <= r < q <= |lens| && Sum(lens[p..q]) == 0
    ensures Sum(lens[p..r]) == 0 && Sum(lens[p..r + 1]) == 0
  {
    hide Sum;
    assert lens[p..q] == lens[p..r] + lens[r..q];
    SumConcat(lens[p..r], lens[r..q]);
    assert lens[p..q] == lens[p..r + 1] + lens[r + 1..q];
    SumConcat(lens[p..r + 1], lens[r + 1..q]);
  }

  /** In the piece of its server, each key finds exactly the bytes it had in the message. */
  lemma KeyKeepsItsValues(msg: Message, krs: seq<Range>, i: nat, c: nat, p: nat)
    requires Sliceable(msg, krs) && InServers(msg, krs) && i < |krs| && c < |msg.value|
    requires p < |msg.key| && krs[i].Has(msg.key[p])
    ensures var piece := PieceOf(msg, krs, i, |msg.value|);
      var r := p - Pos(msg, krs, i);
      && WellSized(msg.value[c], |msg.key|, 0, |msg.key|)
      && piece.valid && 0 <= r < |piece.key| && piece.key[r] == msg.key[p]
      && |piece.value| == |msg.value| && Segmented(piece.value[c], |piece.key|)
      && ValuesIn(piece.value[c], |piece.key|, r) == ValuesAt(msg.value[c], |msg.key|, p)
  {
    hide Pos, Segment, WellSized, Segmented, ValuesIn, ValuesAt, ColumnOf;
    OwnerOfKey(msg, krs, i, p);
    PieceHolds(msg, krs, i, c);
    ColumnIs(msg, krs, i, c);
    SegmentValues(msg.value[c], |msg.key|, Pos(msg, krs, i), Pos(msg, krs, i + 1), p);
  }

  // ---- when slicing fails ----

  /**
   * With all keys at some server, a dynamic column makes the slicer divide by zero
   * exactly when it has a length for every key and all of them are zero.
   */
  lemma DividesIffAllZero(msg: Message, krs: seq<Range>, c: nat)
    requires Sorted(msg.key) && krs != [] && Contiguous(krs) && InServers(msg, krs) && msg.key != []
    requires c < |msg.value| && msg.value[c].Dynamic?
    ensures var lens := msg.value[c].lens;
            ColumnFitOf(msg, krs, c) == DividesByZero <==>
              |msg.key| <= |lens| && forall x :: 0 <= x < |msg.key| ==> lens[x] == 0
  {
    AllPositions(msg, krs);
    var lens := msg.value[c].lens;
    if |msg.key| <= |lens| {
      ZeroSum(lens[0..|msg.key|]);
      assert forall x :: 0 <= x < |msg.key| ==> lens[0..|msg.key|][x] == lens[x];
    }
    hide Pos, Sum;
  }

  lemma {:induction false} ZeroSum(lens: seq<nat>)
    ensures Sum(lens) == 0 <==> forall x :: 0 <= x < |lens| ==> lens[x] == 0
  {
    if lens != [] {
      ZeroSum(lens[..|lens| - 1]);
    }
  }

  /** Slicing divides by zero exactly when a column does before which all columns fit. */
  lemma MessageDivides(msg: Message, krs: seq<Range>)
    requires Sorted(msg.key) && Contiguous(krs) && msg.key != [] && !msg.odd
    ensures MessageFit(msg, krs) == DividesByZero <==>
              exists c :: 0 <= c < |msg.value| && ColumnFitOf(msg, krs, c) == DividesByZero
                && forall b :: 0 <= b < c ==> ColumnFitOf(msg, krs, b) == Fits
  {
    MisfitIs(msg, krs, 0);
    hide ColumnFitOf;
  }

  lemma {:induction false} MisfitIs(msg: Message, krs: seq<Range>, j: nat)
    requires Sorted(msg.key) && Contiguous(krs) && msg.key != [] && j <= |msg.value|
    ensures FirstMisfit(msg, krs, j) == Fits <==> forall c :: j <= c < |msg.value| ==> ColumnFitOf(msg, krs, c) == Fits
    ensures FirstMisfit(msg, krs, j) == DividesByZero <==>
              exists c :: j <= c < |msg.value| && ColumnFitOf(msg, krs, c) == DividesByZero
                && forall b :: j <= b < c ==> ColumnFitOf(msg, krs, b) == Fits
    decreases |msg.value| - j
  {
    hide ColumnFitOf, Sorted, Contiguous;
    if j < |msg.value| {
      MisfitIs(msg, krs, j + 1);
    }
  }
}
