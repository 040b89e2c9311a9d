/** SliceMessage: cutting a message with sorted keys into one piece per server range. */
module SliceMessage {
  import opened Bytes
  import opened Sequences
  import opened Arithmetic
  import opened OrderedMatch

  /** [begin, end) */
  datatype Range = Range(begin: Key, end: Key) {
    /** Project v into this range. */
    function Project(v: Key): Key {
      var m := if end < v then end else v;
      if begin < m then m else begin
    }

    predicate Meets(other: Range) {
      (if begin < other.begin then other.begin else begin) < (if end < other.end then end else other.end)
    }

    predicate Has(k: Key) {
      begin <= k < end
    }
  }

  /** A value array: the same number of bytes for every key, or lens[i] units for key i. */
  datatype Column = Fixed(data: seq<byte>) | Dynamic(data: seq<byte>, lens: seq<nat>)

  /** odd: a dynamic message whose last value array comes without lengths. */
  datatype Message = Message(range: Range, key: seq<Key>, value: seq<Column>, odd: bool)

  datatype Piece = Piece(valid: bool, key: seq<Key>, value: seq<Column>)

  // ---- positions ----

  /** The boundary before server i: ranges are contiguous, so there are n + 1 of them. */
  function Boundary(krs: seq<Range>, i: nat): Key
    requires i <= |krs| && krs != []
  {
    if i == 0 then krs[0].begin else krs[i - 1].end
  }

  /** Every server range is a range. */
  ghost predicate Ranges(krs: seq<Range>) {
    forall i :: 0 <= i < |krs| ==> krs[i].begin <= krs[i].end
  }

  /** The check between neighbouring server ranges. */
  ghost predicate Adjacent(krs: seq<Range>) {
    forall i :: 0 < i < |krs| ==> krs[i - 1].end == krs[i].begin
  }

  ghost predicate Contiguous(krs: seq<Range>) {
    Ranges(krs) && Adjacent(krs)
  }

  /** How many keys are below x: where lower_bound points. */
  ghost function Below(keys: seq<Key>, x: Key): (n: nat)
    requires Sorted(keys)
    ensures n <= |keys|
    ensures forall i :: 0 <= i < n ==> keys[i] < x
    ensures forall i :: n <= i < |keys| ==> x <= keys[i]
  {
    if keys == [] || x <= keys[|keys| - 1] then
      if keys == [] then 0 else Below(keys[..|keys| - 1], x)
    else |keys|
  }

  lemma BelowUnique(keys: seq<Key>, x: Key, n: nat)
    requires Sorted(keys) && n <= |keys|
    requires forall i :: 0 <= i < n ==> keys[i] < x
    requires forall i :: n <= i < |keys| ==> x <= keys[i]
    ensures n == Below(keys, x)
  {
  }

  ghost function Pos(msg: Message, krs: seq<Range>, i: nat): (p: nat)
    requires Sorted(msg.key) && i <= |krs| && krs != []
    ensures p <= |msg.key|
  {
    Below(msg.key, msg.range.Project(Boundary(krs, i)))
  }

  lemma PosMonotone(msg: Message, krs: seq<Range>, i: nat)
    requires Sorted(msg.key) && i < |krs| && Contiguous(krs)
    ensures Pos(msg, krs, i) <= Pos(msg, krs, i + 1)
  {
    var x, y := msg.range.Project(Boundary(krs, i)), msg.range.Project(Boundary(krs, i + 1));
    assert Boundary(krs, i) == krs[i].begin;
    assert x <= y;
    var p, q := Below(msg.key, x), Below(msg.key, y);
    if p > 0 {
      assert msg.key[p - 1] < x;
    }
  }

  // ---- values ----

  ghost function Sum(lens: seq<nat>): nat {
    if lens == [] then 0 else Sum(lens[..|lens| - 1]) + lens[|lens| - 1]
  }

  lemma {:induction false} SumConcat(a: seq<nat>, b: seq<nat>)
    ensures Sum(a + b) == Sum(a) + Sum(b)
  {
    if b == [] {
      assert a + b == a;
    } else {
      assert (a + b)[..|a + b| - 1] == a + b[..|b| - 1];
      SumConcat(a, b[..|b| - 1]);
    }
  }

  /** Bytes per key of a fixed column, bytes per unit of a dynamic one whose units add up to total. */
  function Width(col: Column, nkeys: nat, total: nat): nat {
    match col
    case Fixed(data) => if nkeys == 0 then 0 else |data| / nkeys
    case Dynamic(data, lens) => if total == 0 then 0 else |data| / total
  }

  /** What becomes of a column whose keys from lo up to hi are sent. */
  datatype Fit = Fits | FailsCheck | DividesByZero

  ghost function FitOf(col: Column, nkeys: nat, lo: nat, hi: nat): Fit
    requires nkeys > 0 && lo <= hi
  {
    match col
    case Fixed(data) => if nkeys * (|data| / nkeys) == |data| then Fits else FailsCheck
    case Dynamic(data, lens) =>
      if |lens| < hi then FailsCheck
      else
        var total := Sum(lens[lo..hi]);
        if total == 0 then DividesByZero else if total * (|data| / total) == |data| then Fits else FailsCheck
  }

  ghost predicate WellSized(col: Column, nkeys: nat, lo: nat, hi: nat) {
    nkeys > 0 && lo <= hi <= nkeys && FitOf(col, nkeys, lo, hi) == Fits
  }

  /** The bytes before key position p, counting from position lo. */
  ghost function Start(col: Column, nkeys: nat, lo: nat, hi: nat, p: nat): nat
    requires lo <= p <= hi <= nkeys && (col.Dynamic? ==> hi <= |col.lens|)
  {
    match col
    case Fixed(data) => p * Width(col, nkeys, 0)
    case Dynamic(data, lens) => Sum(lens[lo..p]) * Width(col, nkeys, Sum(lens[lo..hi]))
  }

  lemma StartMonotone(col: Column, nkeys: nat, lo: nat, hi: nat, p: nat, q: nat)
    requires WellSized(col, nkeys, lo, hi) && lo <= p <= q <= hi <= nkeys
    ensures Start(col, nkeys, lo, hi, p) <= Start(col, nkeys, lo, hi, q) <= |col.data|
  {
    match col {
      case Fixed(data) =>
        Times(p, q, Width(col, nkeys, 0));
        Times(q, nkeys, Width(col, nkeys, 0));
      case Dynamic(data, lens) =>
        var total := Sum(lens[lo..hi]);
        assert lens[lo..q] == lens[lo..p] + lens[p..q];
        assert lens[lo..hi] == lens[lo..q] + lens[q..hi];
        SumConcat(lens[lo..p], lens[p..q]);
        SumConcat(lens[lo..q], lens[q..hi]);
        Times(Sum(lens[lo..p]), Sum(lens[lo..q]), Width(col, nkeys, total));
        Times(Sum(lens[lo..q]), total, Width(col, nkeys, total));
    }
  }

  /** The part of a column that belongs to key positions p .. q-1. */
  ghost function Segment(col: Column, nkeys: nat, lo: nat, hi: nat, p: nat, q: nat): Column
    requires WellSized(col, nkeys, lo, hi) && lo <= p <= q <= hi <= nkeys
  {
    StartMonotone(col, nkeys, lo, hi, p, q);
    var data := col.data[Start(col, nkeys, lo, hi, p)..Start(col, nkeys, lo, hi, q)];
    match col
    case Fixed(_) => Fixed(data)
    case Dynamic(_, lens) => Dynamic(data, lens[p..q])
  }

  // ---- the slices, as a specification ----

  ghost predicate Sliceable(msg: Message, krs: seq<Range>) {
    && Sorted(msg.key) && krs != [] && Contiguous(krs)
    && (msg.key != [] ==> !msg.odd && forall j :: 0 <= j < |msg.value| ==>
          WellSized(msg.value[j], |msg.key|, Pos(msg, krs, 0), Pos(msg, krs, |krs|)))
  }

  lemma {:induction false} PosOrdered(msg: Message, krs: seq<Range>, i: nat, j: nat)
    requires Sorted(msg.key) && Contiguous(krs) && krs != [] && i <= j <= |krs|
    ensures Pos(msg, krs, i) <= Pos(msg, krs, j)
    decreases j - i
  {
    hide Pos;
    if i < j {
      PosOrdered(msg, krs, i, j - 1);
      PosMonotone(msg, krs, j - 1);
    }
  }

  ghost predicate PieceValid(msg: Message, krs: seq<Range>, i: nat)
    requires Sliceable(msg, krs) && i < |krs|
  {
    krs[i].Meets(msg.range) && (msg.key != [] ==> Pos(msg, krs, i) < Pos(msg, krs, i + 1))
  }

  /** Piece i with the first j columns. */
  ghost function PieceOf(msg: Message, krs: seq<Range>, i: nat, j: nat): Piece
    requires Sliceable(msg, krs) && i < |krs| && j <= |msg.value|
  {
    PosOrdered(msg, krs, 0, i);
    PosMonotone(msg, krs, i);
    PosOrdered(msg, krs, i + 1, |krs|);
    var lo, hi, p, q := Pos(msg, krs, 0), Pos(msg, krs, |krs|), Pos(msg, krs, i), Pos(msg, krs, i + 1);
    if PieceValid(msg, krs, i) && msg.key != [] then
      Piece(true, msg.key[p..q],
            seq(j, c requires 0 <= c < j => Segment(msg.value[c], |msg.key|, lo, hi, p, q)))
    else
      Piece(PieceValid(msg, krs, i), [], [])
  }

  // ---- the loops ----

  ghost predicate ArePositions(msg: Message, krs: seq<Range>, pos: seq<nat>)
    requires Sorted(msg.key) && krs != []
  {
    |pos| == |krs| + 1 && forall i: nat {:trigger pos[i]} :: i <= |krs| ==> pos[i] == Pos(msg, krs, i) <= |msg.key|
  }

  lemma PositionsOrdered(msg: Message, krs: seq<Range>, pos: seq<nat>)
    requires Sorted(msg.key) && krs != [] && Contiguous(krs) && ArePositions(msg, krs, pos)
    ensures forall i: nat {:trigger pos[i]} :: i <= |krs| ==> pos[0] <= pos[i] <= pos[|krs|]
    ensures forall i: nat, j: nat :: i <= j <= |krs| ==> pos[i] <= pos[j]
  {
    hide Pos;
    forall i: nat, j: nat | i <= j <= |krs|
      ensures pos[i] <= pos[j]
    {
      PosOrdered(msg, krs, i, j);
    }
  }

  /** Where the keys reach boundary i. */
  method Position(msg: Message, krs: seq<Range>, i: nat) returns (p: nat)
    requires Sorted(msg.key) && i <= |krs| && krs != []
    ensures p == Pos(msg, krs, i)
  {
    var k := msg.range.Project(Boundary(krs, i));
    p := LowerBound(msg.key, 0, |msg.key|, k);
    BelowUnique(msg.key, k, p);
  }

  method Positions(msg: Message, krs: seq<Range>) returns (pos: seq<nat>)
    requires Sorted(msg.key) && krs != [] && Contiguous(krs)
    ensures ArePositions(msg, krs, pos)
  {
    hide Pos;
    var first := Position(msg, krs, 0);
    pos := [first];
    for i := 0 to |krs|
      invariant |pos| == i + 1
      invariant forall j: nat {:trigger pos[j]} :: j <= i ==> pos[j] == Pos(msg, krs, j) <= |msg.key|
    {
      var p := Position(msg, krs, i + 1);
      pos := pos + [p];
    }
  }

  /** The sums of dynamic lengths before each cut. */
  method RunningSums(lens: seq<nat>, pos: seq<nat>) returns (valPos: seq<nat>)
    requires pos != []
    requires forall i: nat, j: nat :: i <= j < |pos| ==> pos[i] <= pos[j]
    requires forall i: nat {:trigger pos[i]} :: i < |pos| ==> pos[0] <= pos[i] <= |lens|
    ensures |valPos| == |pos|
    ensures forall i: nat {:trigger valPos[i]} :: i < |pos| ==> valPos[i] == Sum(lens[pos[0]..pos[i]])
  {
    valPos := [0];
    assert lens[pos[0]..pos[0]] == [];
    for i := 0 to |pos| - 1
      invariant |valPos| == i + 1
      invariant forall j: nat {:trigger valPos[j]} :: j <= i ==> valPos[j] == Sum(lens[pos[0]..pos[j]])
    {
      var v := valPos[i];
      for p := pos[i] to pos[i + 1]
        invariant v == Sum(lens[pos[0]..p])
      {
        assert lens[pos[0]..p + 1][..p - pos[0]] == lens[pos[0]..p];
        v := v + lens[p];
      }
      valPos := valPos + [v];
    }
  }

  /** The byte offsets of the cuts: pos * k, or the running sums times k of a dynamic column. */
  method Starts(col: Column, nkeys: nat, pos: seq<nat>) returns (starts: seq<nat>)
    requires pos != [] && nkeys > 0
    requires forall i: nat, j: nat :: i <= j < |pos| ==> pos[i] <= pos[j]
    requires forall i: nat {:trigger pos[i]} :: i < |pos| ==> pos[0] <= pos[i] <= pos[|pos| - 1] <= nkeys
    requires WellSized(col, nkeys, pos[0], pos[|pos| - 1])
    ensures |starts| == |pos|
    ensures forall i: nat {:trigger starts[i]} :: i < |pos| ==>
              starts[i] == Start(col, nkeys, pos[0], pos[|pos| - 1], pos[i])
  {
    match col {
      case Fixed(data) =>
        var k := |data| / nkeys;
        starts := Multiply(pos, k);
      case Dynamic(data, lens) =>
        assert |lens| >= pos[|pos| - 1];
        var valPos := RunningSums(lens, pos);
        hide Sum;
        var k := |data| / valPos[|pos| - 1];
        starts := Multiply(valPos, k);
    }
  }

  method Multiply(s: seq<nat>, k: nat) returns (products: seq<nat>)
    ensures |products| == |s|
    ensures forall i: nat {:trigger products[i]} :: i < |s| ==> products[i] == s[i] * k
  {
    products := seq(|s|, i requires 0 <= i < |s| => s[i] * k);
  }

  /** The checks and the division on one column. */
  method ColumnFit(col: Column, nkeys: nat, pos: seq<nat>) returns (fit: Fit)
    requires pos != [] && nkeys > 0
    requires forall i: nat, j: nat :: i <= j < |pos| ==> pos[i] <= pos[j]
    requires forall i: nat {:trigger pos[i]} :: i < |pos| ==> pos[0] <= pos[i] <= pos[|pos| - 1] <= nkeys
    ensures fit == FitOf(col, nkeys, pos[0], pos[|pos| - 1])
  {
    hide Sum;
    match col {
      case Fixed(data) =>
        var k := |data| / nkeys;
        fit := if nkeys * k == |data| then Fits else FailsCheck;
      case Dynamic(data, lens) =>
        if |lens| < pos[|pos| - 1] {
          return FailsCheck;
        }
        var valPos := RunningSums(lens, pos);
        var total := valPos[|pos| - 1];
        if total == 0 {
          return DividesByZero;
        }
        var k := |data| / total;
        fit := if total * k == |data| then Fits else FailsCheck;
    }
  }

  /** The segment of column c for piece i. */
  ghost function ColumnOf(msg: Message, krs: seq<Range>, i: nat, c: nat): Column
    requires Sliceable(msg, krs) && i < |krs| && c < |msg.value| && msg.key != []
  {
    PosOrdered(msg, krs, 0, i);
    PosMonotone(msg, krs, i);
    PosOrdered(msg, krs, i + 1, |krs|);
    Segment(msg.value[c], |msg.key|, Pos(msg, krs, 0), Pos(msg, krs, |krs|), Pos(msg, krs, i), Pos(msg, krs, i + 1))
  }

  /** Cuts column c at the positions. */
  method SliceColumn(msg: Message, krs: seq<Range>, pos: seq<nat>, c: nat) returns (cols: seq<Column>)
    requires Sliceable(msg, krs) && c < |msg.value| && msg.key != [] && ArePositions(msg, krs, pos)
    ensures |cols| == |krs|
    ensures forall i: nat {:trigger cols[i]} :: i < |krs| ==> cols[i] == ColumnOf(msg, krs, i, c)
  {
    hide Pos, Segment, WellSized;
    PositionsOrdered(msg, krs, pos);
    var col, nkeys := msg.value[c], |msg.key|;
    var starts := Starts(col, nkeys, pos);
    cols := [];
    for i := 0 to |krs|
      invariant |cols| == i
      invariant forall j: nat {:trigger cols[j]} :: j < i ==> cols[j] == ColumnOf(msg, krs, j, c)
    {
      SegmentIs(col, nkeys, pos[0], pos[|krs|], pos[i], pos[i + 1]);
      DynamicLength(col, nkeys, pos[0], pos[|krs|]);
      var data := col.data[starts[i]..starts[i + 1]];
      var piece := match col case Fixed(_) => Fixed(data) case Dynamic(_, lens) => Dynamic(data, lens[pos[i]..pos[i + 1]]);
      cols := cols + [piece];
    }
  }

  lemma DynamicLength(col: Column, nkeys: nat, lo: nat, hi: nat)
    requires WellSized(col, nkeys, lo, hi)
    ensures lo <= hi <= nkeys && (col.Dynamic? ==> hi <= |col.lens|)
  {
  }

  lemma SegmentIs(col: Column, nkeys: nat, lo: nat, hi: nat, p: nat, q: nat)
    requires WellSized(col, nkeys, lo, hi) && lo <= p <= q <= hi <= nkeys
    ensures Start(col, nkeys, lo, hi, p) <= Start(col, nkeys, lo, hi, q) <= |col.data|
    ensures var data := col.data[Start(col, nkeys, lo, hi, p)..Start(col, nkeys, lo, hi, q)];
      Segment(col, nkeys, lo, hi, p, q) == match col
                                           case Fixed(_) => Fixed(data)
                                           case Dynamic(_, lens) => Dynamic(data, lens[p..q])
  {
    StartMonotone(col, nkeys, lo, hi, p, q);
  }

  datatype Outcome = Sliced(pieces: seq<Piece>) | CheckFailed | DividedByZero

  /** How the columns fare from number j on: the first that does not fit decides. */
  ghost function FirstMisfit(msg: Message, krs: seq<Range>, j: nat): Fit
    requires Sorted(msg.key) && Contiguous(krs) && msg.key != [] && j <= |msg.value|
    decreases |msg.value| - j
  {
    if j == |msg.value| then Fits
    else
      var fit := ColumnFitOf(msg, krs, j);
      if fit == Fits then FirstMisfit(msg, krs, j + 1) else fit
  }

  /** The fit of column j between the first and the last cut; without servers nothing is cut. */
  ghost function ColumnFitOf(msg: Message, krs: seq<Range>, j: nat): Fit
    requires Sorted(msg.key) && Contiguous(krs) && msg.key != [] && j < |msg.value|
  {
    if krs == [] then FitOf(msg.value[j], |msg.key|, 0, 0)
    else
      PosOrdered(msg, krs, 0, |krs|);
      FitOf(msg.value[j], |msg.key|, Pos(msg, krs, 0), Pos(msg, krs, |krs|))
  }

  /** The outcome of slicing, from what the caller can see. */
  ghost function MessageFit(msg: Message, krs: seq<Range>): Fit
    requires Sorted(msg.key) && Ranges(krs)
  {
    if msg.key == [] then Fits
    else if !Adjacent(krs) || msg.odd then FailsCheck
    else FirstMisfit(msg, krs, 0)
  }

  /**
   * SliceMessage. A message without keys passes whatever its columns; otherwise the
   * server ranges must touch, and the first column that does not fit decides.
   */
  method Slice(msg: Message, krs: seq<Range>) returns (o: Outcome)
    requires Sorted(msg.key) && Ranges(krs)
    ensures o.CheckFailed? <==> MessageFit(msg, krs) == FailsCheck
    ensures o.DividedByZero? <==> MessageFit(msg, krs) == DividesByZero
    ensures o.Sliced? <==> MessageFit(msg, krs) == Fits
    ensures o.Sliced? ==> |o.pieces| == |krs|
    ensures o.Sliced? && msg.key == [] ==>
              forall i: nat {:trigger o.pieces[i]} :: i < |krs| ==> o.pieces[i] == Piece(krs[i].Meets(msg.range), [], [])
    ensures o.Sliced? && msg.key != [] && krs != [] ==> Sliceable(msg, krs)
    ensures o.Sliced? && msg.key != [] && krs != [] ==>
              forall i: nat {:trigger o.pieces[i]} :: i < |krs| ==> o.pieces[i] == PieceOf(msg, krs, i, |msg.value|)
  {
    if msg.key == [] {
      return Sliced(seq(|krs|, i requires 0 <= i < |krs| => Piece(krs[i].Meets(msg.range), [], [])));
    }
    var touching := Touching(krs);
    if !touching || msg.odd {
      return CheckFailed;
    }
    if krs == [] {
      o := SliceForNobody(msg);
    } else {
      o := SliceColumns(msg, krs);
    }
  }

  method Touching(krs: seq<Range>) returns (ok: bool)
    ensures ok <==> Adjacent(krs)
  {
    for i := 0 to |krs|
      invariant forall j :: 0 < j < i ==> krs[j - 1].end == krs[j].begin
    {
      if i > 0 && krs[i - 1].end != krs[i].begin {
        return false;
      }
    }
    return true;
  }

  /** Without servers there is nothing to cut, but the columns are looked at. */
  method SliceForNobody(msg: Message) returns (o: Outcome)
    requires Sorted(msg.key) && msg.key != [] && Contiguous([])
    ensures o == match FirstMisfit(msg, [], 0) case Fits => Sliced([]) case FailsCheck => CheckFailed case DividesByZero => DividedByZero
  {
    for j := 0 to |msg.value|
      invariant FirstMisfit(msg, [], 0) == FirstMisfit(msg, [], j)
    {
      var fit := ColumnFit(msg.value[j], |msg.key|, [0]);
      if fit != Fits {
        return if fit == FailsCheck then CheckFailed else DividedByZero;
      }
    }
    return Sliced([]);
  }

  /** The message with its first j columns. */
  function Front(msg: Message, j: nat): Message
    requires j <= |msg.value|
  {
    msg.(value := msg.value[..j])
  }

  method SliceColumns(msg: Message, krs: seq<Range>) returns (o: Outcome)
    requires Sorted(msg.key) && Contiguous(krs) && msg.key != [] && krs != [] && !msg.odd
    ensures o.CheckFailed? <==> FirstMisfit(msg, krs, 0) == FailsCheck
    ensures o.DividedByZero? <==> FirstMisfit(msg, krs, 0) == DividesByZero
    ensures o.Sliced? ==> Sliceable(msg, krs) && |o.pieces| == |krs|
    ensures o.Sliced? ==>
              forall i: nat {:trigger o.pieces[i]} :: i < |krs| ==> o.pieces[i] == PieceOf(msg, krs, i, |msg.value|)
  {
    hide PieceOf, Sliceable, FitOf, FirstMisfit, Contiguous, Sorted;
    var pos := Positions(msg, krs);
    PositionsOrdered(msg, krs, pos);
    FrontSliceable(msg, krs, 0);
    FrontPositions(msg, krs, pos, 0);
    var rets := KeyPieces(Front(msg, 0), krs, pos);
    for j := 0 to |msg.value|
      invariant Sliceable(Front(msg, j), krs) && |rets| == |krs|
      invariant FirstMisfit(msg, krs, 0) == FirstMisfit(msg, krs, j)
      invariant forall i: nat {:trigger rets[i]} :: i < |krs| ==> rets[i] == PieceOf(Front(msg, j), krs, i, j)
    {
      var fit := ColumnFit(msg.value[j], |msg.key|, pos);
      MisfitStep(msg, krs, pos, j);
      if fit != Fits {
        return if fit == FailsCheck then CheckFailed else DividedByZero;
      }
      FrontGrows(msg, krs, j);
      FrontPositions(msg, krs, pos, j + 1);
      var cols := SliceColumn(Front(msg, j + 1), krs, pos, j);
      rets := AddColumn(Front(msg, j + 1), krs, rets, cols, j);
    }
    MisfitEnd(msg, krs);
    return Sliced(rets);
  }

  lemma FrontPositions(msg: Message, krs: seq<Range>, pos: seq<nat>, j: nat)
    requires Sorted(msg.key) && krs != [] && j <= |msg.value| && ArePositions(msg, krs, pos)
    ensures ArePositions(Front(msg, j), krs, pos)
  {
  }

  lemma MisfitEnd(msg: Message, krs: seq<Range>)
    requires Sorted(msg.key) && Contiguous(krs) && msg.key != []
    ensures FirstMisfit(msg, krs, |msg.value|) == Fits && Front(msg, |msg.value|) == msg
  {
    assert msg.value[..|msg.value|] == msg.value;
  }

  lemma MisfitStep(msg: Message, krs: seq<Range>, pos: seq<nat>, j: nat)
    requires Sorted(msg.key) && Contiguous(krs) && msg.key != [] && krs != [] && j < |msg.value| && ArePositions(msg, krs, pos)
    ensures pos[0] <= pos[|pos| - 1]
    ensures var fit := FitOf(msg.value[j], |msg.key|, pos[0], pos[|pos| - 1]);
            FirstMisfit(msg, krs, j) == if fit == Fits then FirstMisfit(msg, krs, j + 1) else fit
  {
    PositionsOrdered(msg, krs, pos);
    hide FitOf;
  }

  lemma FrontSliceable(msg: Message, krs: seq<Range>, j: nat)
    requires Sorted(msg.key) && Contiguous(krs) && msg.key != [] && krs != [] && !msg.odd && j <= |msg.value|
    requires forall c :: 0 <= c < j ==> WellSized(msg.value[c], |msg.key|, Pos(msg, krs, 0), Pos(msg, krs, |krs|))
    ensures Sliceable(Front(msg, j), krs)
  {
    hide WellSized, Contiguous, Sorted;
    SamePos(msg, krs, j, 0);
    SamePos(msg, krs, j, |krs|);
  }

  lemma SamePos(msg: Message, krs: seq<Range>, j: nat, i: nat)
    requires Sorted(msg.key) && krs != [] && j <= |msg.value| && i <= |krs|
    ensures Pos(Front(msg, j), krs, i) == Pos(msg, krs, i)
  {
  }

  /** One more column that fits: the pieces so far are those of the longer message. */
  lemma FrontGrows(msg: Message, krs: seq<Range>, j: nat)
    requires Sorted(msg.key) && Contiguous(krs) && msg.key != [] && krs != [] && !msg.odd && j < |msg.value|
    requires Sliceable(Front(msg, j), krs) && ColumnFitOf(msg, krs, j) == Fits
    ensures Sliceable(Front(msg, j + 1), krs)
    ensures forall i: nat :: i < |krs| ==> PieceOf(Front(msg, j + 1), krs, i, j) == PieceOf(Front(msg, j), krs, i, j)
  {
    hide Contiguous, Sorted, FitOf, PieceOf;
    SamePos(msg, krs, j, 0);
    SamePos(msg, krs, j, |krs|);
    PosOrdered(msg, krs, 0, |krs|);
    forall c | 0 <= c < j + 1
      ensures WellSized(msg.value[c], |msg.key|, Pos(msg, krs, 0), Pos(msg, krs, |krs|))
    {
      if c < j {
        assert Front(msg, j).value[c] == msg.value[c];
      }
    }
    hide WellSized, Sliceable;
    FrontSliceable(msg, krs, j + 1);
    forall i: nat | i < |krs|
      ensures PieceOf(Front(msg, j + 1), krs, i, j) == PieceOf(Front(msg, j), krs, i, j)
    {
      SamePiece(msg, krs, j, i);
    }
  }

  lemma SamePiece(msg: Message, krs: seq<Range>, j: nat, i: nat)
    requires j < |msg.value| && i < |krs| && Sliceable(Front(msg, j), krs) && Sliceable(Front(msg, j + 1), krs)
    ensures PieceOf(Front(msg, j + 1), krs, i, j) == PieceOf(Front(msg, j), krs, i, j)
  {
    var a, b := Front(msg, j), Front(msg, j + 1);
    assert a.key == b.key && a.range == b.range && forall c :: 0 <= c < j ==> a.value[c] == b.value[c];
    SamePos(msg, krs, j, 0);
    SamePos(msg, krs, j, i);
    SamePos(msg, krs, j, i + 1);
    SamePos(msg, krs, j, |krs|);
    SamePos(msg, krs, j + 1, 0);
    SamePos(msg, krs, j + 1, i);
    SamePos(msg, krs, j + 1, i + 1);
    SamePos(msg, krs, j + 1, |krs|);
    hide Pos, Segment, WellSized;
    var x, y := PieceOf(b, krs, i, j), PieceOf(a, krs, i, j);
    assert x.value == y.value;
  }

  /** The keys of the pieces; a piece without keys is invalid. */
  method KeyPieces(msg: Message, krs: seq<Range>, pos: seq<nat>) returns (rets: seq<Piece>)
    requires Sliceable(msg, krs) && msg.key != [] && ArePositions(msg, krs, pos)
    ensures |rets| == |krs|
    ensures forall i: nat {:trigger rets[i]} :: i < |krs| ==> rets[i] == PieceOf(msg, krs, i, 0)
  {
    hide Pos;
    PositionsOrdered(msg, krs, pos);
    rets := [];
    for i := 0 to |krs|
      invariant |rets| == i
      invariant forall j: nat {:trigger rets[j]} :: j < i ==> rets[j] == PieceOf(msg, krs, j, 0)
    {
      var valid := krs[i].Meets(msg.range) && pos[i] != pos[i + 1];
      rets := rets + [Piece(valid, if valid then msg.key[pos[i]..pos[i + 1]] else [], [])];
    }
  }

  method AddColumn(msg: Message, krs: seq<Range>, rets: seq<Piece>, cols: seq<Column>, j: nat) returns (rets': seq<Piece>)
    requires Sliceable(msg, krs) && msg.key != [] && j < |msg.value| && |rets| == |cols| == |krs|
    requires forall i: nat {:trigger rets[i]} :: i < |krs| ==> rets[i] == PieceOf(msg, krs, i, j)
    requires forall i: nat {:trigger cols[i]} :: i < |krs| ==> cols[i] == ColumnOf(msg, krs, i, j)
    ensures |rets'| == |krs|
    ensures forall i: nat {:trigger rets'[i]} :: i < |krs| ==> rets'[i] == PieceOf(msg, krs, i, j + 1)
  {
    hide Pos, Segment, Sliceable, PieceOf, ColumnOf;
    rets' := [];
    for i := 0 to |krs|
      invariant |rets'| == i
      invariant forall k: nat {:trigger rets'[k]} :: k < i ==> rets'[k] == PieceOf(msg, krs, k, j + 1)
    {
      var r := rets[i];
      PieceGrows(msg, krs, i, j);
      rets' := rets' + [if r.valid then r.(value := r.value + [cols[i]]) else r];
    }
  }

  lemma PieceGrows(msg: Message, krs: seq<Range>, i: nat, j: nat)
    requires Sliceable(msg, krs) && msg.key != [] && i < |krs| && j < |msg.value|
    ensures var r := PieceOf(msg, krs, i, j);
      PieceOf(msg, krs, i, j + 1) == if r.valid then r.(value := r.value + [ColumnOf(msg, krs, i, j)]) else r
  {
    hide Pos, Segment;
  }
}
