/** KVCache: putting the responses of a pull back together, whatever the order in which they arrive. */
module KVCache {
  import opened Arithmetic
  import opened Sequences
  import opened OrderedMatch

  type Value = real

  /** The value every server would give for a key: of one fixed length, or of a length of its own. */
  type Answer = Key -> seq<Value>

  datatype Response = Response(key: seq<Key>, data: seq<Value>, sizes: seq<nat>)

  const Replace: (Value, Value) -> Value := (right, left) => left
  const ReplaceSize: (nat, nat) -> nat := (right, left) => left

  // ---- counting matches ----

  /** All of src is found among the first hi entries of dst. */
  ghost predicate Found(src: seq<Key>, dst: seq<Key>, hi: nat) {
    forall i :: 0 <= i < |src| ==> IndexOf(dst, src[i]) < hi
  }

  /** When all source keys are destination keys, the number of matches is the number of source keys. */
  lemma {:induction false} AllCommon(src: seq<Key>, dst: seq<Key>, hi: nat)
    requires Increasing(src) && Increasing(dst) && hi <= |dst| && Found(src, dst, hi)
    ensures Common(src, dst, 0, hi) == |src|
    decreases hi
  {
    hide IndexOf;
    if hi == 0 {
      NothingFound(src, dst);
    } else {
      if dst[hi - 1] in src {
        LastIsLargest(src, dst, hi);
        var shorter := src[..|src| - 1];
        assert Found(shorter, dst, hi - 1);
        AllCommon(shorter, dst, hi - 1);
        SameCommonAt(src, shorter, dst, hi - 1, hi - 1);
      } else {
        assert Found(src, dst, hi - 1);
        AllCommon(src, dst, hi - 1);
      }
    }
  }

  lemma NothingFound(src: seq<Key>, dst: seq<Key>)
    requires Found(src, dst, 0)
    ensures src == []
  {
    if src != [] {
      var i := IndexOf(dst, src[0]);
    }
  }

  lemma LastIsLargest(src: seq<Key>, dst: seq<Key>, hi: nat)
    requires Increasing(src) && Increasing(dst) && 0 < hi <= |dst| && dst[hi - 1] in src && Found(src, dst, hi)
    ensures src[|src| - 1] == dst[hi - 1]
  {
    var i :| 0 <= i < |src| && src[i] == dst[hi - 1];
    assert IndexOf(dst, src[|src| - 1]) < hi;
  }

  lemma {:induction false} SameCommonAt(src: seq<Key>, shorter: seq<Key>, dst: seq<Key>, hi: nat, j: nat)
    requires src != [] && shorter == src[..|src| - 1] && Increasing(dst) && hi < |dst| && src[|src| - 1] == dst[hi] && j <= hi
    ensures Common(src, dst, 0, j) == Common(shorter, dst, 0, j)
  {
    if j > 0 {
      SameCommonAt(src, shorter, dst, hi, j - 1);
      assert dst[j - 1] != src[|src| - 1];
      assert src == shorter + [src[|src| - 1]];
    }
  }

  // ---- fixed-length pulls ----

  /** data holds the answers for keys, k components each. */
  ghost predicate Answers(keys: seq<Key>, data: seq<Value>, ans: Answer, k: nat) {
    && |data| == |keys| * k
    && forall j: nat, c: nat {:trigger Slot(j, k, c)} :: j < |keys| && c < k ==>
         Slot(j, k, c) < |data| && |ans(keys[j])| == k && data[Slot(j, k, c)] == ans(keys[j])[c]
  }

  /** val holds the answers for the keys received so far and zeros elsewhere. */
  ghost predicate Holds(key: seq<Key>, val: seq<Value>, ans: Answer, k: nat, got: set<Key>) {
    && |val| == |key| * k
    && forall j: nat, c: nat {:trigger Slot(j, k, c)} :: j < |key| && c < k ==>
         Slot(j, k, c) < |val| && |ans(key[j])| == k &&
         val[Slot(j, k, c)] == if key[j] in got then ans(key[j])[c] else 0.0
  }

  class FixedPull {
    const key: seq<Key>
    var val: array<Value>

    constructor (key: seq<Key>)
      ensures this.key == key && val.Length == 0 && fresh(val)
    {
      this.key := key;
      val := new Value[0];
    }

    /** ProcessResponse for a constant value length; not ok is a failed CHECK. */
    method ProcessResponse(r: Response) returns (ok: bool)
      requires Increasing(key) && Increasing(r.key)
      requires r.key != [] ==> |r.data| == |r.key| * (|r.data| / |r.key|)
      requires r.key != [] && val.Length != 0 ==> val.Length == |key| * (|r.data| / |r.key|)
      modifies this, val
      ensures val == old(val) || fresh(val)
      ensures r.key == [] ==> ok && val == old(val) && val[..] == old(val[..])
      ensures r.key != [] ==>
                var k := |r.data| / |r.key|;
                && val.Length == |key| * k
                && (Found(r.key, key, |key|) ==> ok)
                && (old(val.Length) != 0 ==> MergedRange(r.key, r.data, key, k, Replace, old(val[..]), val[..], 0, |key|))
                && (old(val.Length) == 0 ==>
                      MergedRange(r.key, r.data, key, k, Replace, seq(|key| * k, i => 0.0), val[..], 0, |key|))
    {
      hide MergedRange, Found;
      if r.key == [] {
        return true;
      }
      var k := |r.data| / |r.key|;
      ok := MergeReply(r, k);
    }

    /** One non-empty response with k components for each key. */
    method MergeReply(r: Response, k: nat) returns (ok: bool)
      requires Increasing(key) && Increasing(r.key) && |r.data| == |r.key| * k
      requires val.Length != 0 ==> val.Length == |key| * k
      modifies this, val
      ensures val == old(val) || fresh(val)
      ensures val.Length == |key| * k && (Found(r.key, key, |key|) ==> ok)
      ensures old(val.Length) != 0 ==> MergedRange(r.key, r.data, key, k, Replace, old(val[..]), val[..], 0, |key|)
      ensures old(val.Length) == 0 ==>
                MergedRange(r.key, r.data, key, k, Replace, seq(|key| * k, i => 0.0), val[..], 0, |key|)
    {
      hide MergedRange, Found, Common, Increasing;
      ghost var size := |key| * k;
      if val.Length == 0 {
        val := new Value[|key| * k](i => 0.0);
        assert val[..] == seq(size, i => 0.0);
      }
      var n := Match(r.key, r.data, key, val, k, Replace, 2);
      if Found(r.key, key, |key|) {
        AllCommon(r.key, key, |key|);
      }
      ok := n == |r.data|;
    }
  }

  lemma MergeAnswers(key: seq<Key>, r: Response, ans: Answer, k: nat, before: seq<Value>, after: seq<Value>, got: set<Key>)
    requires Increasing(r.key) && Answers(r.key, r.data, ans, k) && Holds(key, before, ans, k, got)
    requires |after| == |before| && MergedRange(r.key, r.data, key, k, Replace, before, after, 0, |key|)
    ensures Holds(key, after, ans, k, got + set x | x in r.key)
  {
    hide IndexOf, Slot;
    forall j: nat, c: nat | j < |key| && c < k
      ensures Slot(j, k, c) < |after|
      ensures after[Slot(j, k, c)] == if key[j] in got || key[j] in r.key then ans(key[j])[c] else 0.0
    {
      var i := IndexOf(r.key, key[j]);
      SlotInside(j, |key|, k, c, |before|);
      if i < |r.key| {
        SlotInside(i, |r.key|, k, c, |r.data|);
      }
    }
  }

  /** For any arrival order, duplicates included, the reassembled values are the answers in key order. */
  method ReceiveFixed(key: seq<Key>, k: nat, arrivals: seq<Response>, ghost ans: Answer) returns (ok: bool, val: array<Value>)
    requires Increasing(key) && k > 0 && key != []
    requires forall x :: x in key ==> |ans(x)| == k
    requires forall t :: 0 <= t < |arrivals| ==>
               Increasing(arrivals[t].key) && Found(arrivals[t].key, key, |key|) && Answers(arrivals[t].key, arrivals[t].data, ans, k)
    requires forall x :: x in key ==> exists t :: 0 <= t < |arrivals| && x in arrivals[t].key
    ensures ok && Answers(key, val[..], ans, k)
  {
    hide IndexOf, Slot, MergedRange, Answers, Holds, Found;
    var pull := new FixedPull(key);
    ghost var got: set<Key> := {};
    ok := true;
    HoldsNothing(key, ans, k);
    for t := 0 to |arrivals|
      invariant ok && pull.key == key && fresh(pull) && fresh(pull.val)
      invariant pull.val.Length == 0 || pull.val.Length == |key| * k
      invariant pull.val.Length == 0 ==> got == {}
      invariant pull.val.Length != 0 ==> Holds(key, pull.val[..], ans, k, got)
      invariant forall u, x :: 0 <= u < t && x in arrivals[u].key ==> x in got
    {
      var r := arrivals[t];
      ResponseWidth(r, ans, k, key);
      ghost var before := if pull.val.Length == 0 then seq(|key| * k, i => 0.0) else pull.val[..];
      ok := pull.ProcessResponse(r);
      if r.key != [] {
        MergeAnswers(key, r, ans, k, before, pull.val[..], got);
        got := got + set x | x in r.key;
      }
    }
    val := pull.val;
    assert val.Length != 0 by { SomethingArrived(key, arrivals, got); }
    HoldsEverything(key, val[..], ans, k, got);
  }

  lemma HoldsNothing(key: seq<Key>, ans: Answer, k: nat)
    requires forall x :: x in key ==> |ans(x)| == k
    ensures Holds(key, seq(|key| * k, i => 0.0), ans, k, {})
  {
    forall j: nat, c: nat | j < |key| && c < k
      ensures Slot(j, k, c) < |key| * k
    {
      SlotInside(j, |key|, k, c, |key| * k);
    }
  }

  lemma ResponseWidth(r: Response, ans: Answer, k: nat, key: seq<Key>)
    requires Answers(r.key, r.data, ans, k) && k > 0
    ensures r.key != [] ==> |r.data| / |r.key| == k && |r.data| == |r.key| * k
    ensures key != [] ==> |key| * k > 0
  {
    if r.key != [] {
      Quotient(|r.key|, k);
    }
  }

  lemma SomethingArrived(key: seq<Key>, arrivals: seq<Response>, got: set<Key>)
    requires key != []
    requires forall x :: x in key ==> exists t :: 0 <= t < |arrivals| && x in arrivals[t].key
    requires forall u, x :: 0 <= u < |arrivals| && x in arrivals[u].key ==> x in got
    ensures got != {}
  {
    var x := key[0];
    assert x in key;
    var t :| 0 <= t < |arrivals| && x in arrivals[t].key;
    assert x in got;
  }

  lemma HoldsEverything(key: seq<Key>, val: seq<Value>, ans: Answer, k: nat, got: set<Key>)
    requires Holds(key, val, ans, k, got) && forall x :: x in key ==> x in got
    ensures Answers(key, val, ans, k)
  {
  }

  // ---- dynamic-length pulls ----

  /** The answers for keys, one after the other. */
  function Concat(keys: seq<Key>, ans: Answer): seq<Value> {
    if keys == [] then [] else ans(keys[0]) + Concat(keys[1..], ans)
  }

  lemma {:induction false} ConcatJoin(a: seq<Key>, b: seq<Key>, ans: Answer)
    ensures Concat(a + b, ans) == Concat(a, ans) + Concat(b, ans)
  {
    if a == [] {
      assert a + b == b;
    } else {
      assert (a + b)[1..] == a[1..] + b;
      ConcatJoin(a[1..], b, ans);
    }
  }

  type Block = (Key, seq<Value>)

  predicate SortedBlocks(bs: seq<Block>) {
    forall i, j :: 0 <= i < j < |bs| ==> bs[i].0 <= bs[j].0
  }

  /** std::sort by first key. */
  function Sort(bs: seq<Block>): seq<Block> {
    if bs == [] then [] else Insert(bs[0], Sort(bs[1..]))
  }

  function Insert(b: Block, bs: seq<Block>): seq<Block> {
    if bs == [] || b.0 <= bs[0].0 then [b] + bs else [bs[0]] + Insert(b, bs[1..])
  }

  lemma {:induction false} InsertMultiset(b: Block, bs: seq<Block>)
    ensures multiset(Insert(b, bs)) == multiset(bs) + multiset{b}
  {
    if !(bs == [] || b.0 <= bs[0].0) {
      InsertMultiset(b, bs[1..]);
      assert bs == [bs[0]] + bs[1..];
    }
  }

  lemma {:induction false} InsertSorted(b: Block, bs: seq<Block>, low: Key)
    requires SortedBlocks(bs) && low <= b.0 && forall i :: 0 <= i < |bs| ==> low <= bs[i].0
    ensures SortedBlocks(Insert(b, bs)) && forall i :: 0 <= i < |Insert(b, bs)| ==> low <= Insert(b, bs)[i].0
  {
    if !(bs == [] || b.0 <= bs[0].0) {
      InsertSorted(b, bs[1..], bs[0].0);
    }
  }

  lemma {:induction false} SortSorts(bs: seq<Block>)
    ensures multiset(Sort(bs)) == multiset(bs) && SortedBlocks(Sort(bs))
  {
    hide Insert;
    if bs != [] {
      var rest := Sort(bs[1..]);
      SortSorts(bs[1..]);
      InsertMultiset(bs[0], rest);
      InsertSorted(bs[0], rest, 0);
      assert bs == [bs[0]] + bs[1..];
    }
  }

  /** A strictly sorted sequence is the only sorted arrangement of its elements. */
  lemma {:induction false} SortedUnique(a: seq<Block>, b: seq<Block>)
    requires multiset(a) == multiset(b) && SortedBlocks(a)
    requires forall i, j :: 0 <= i < j < |b| ==> b[i].0 < b[j].0
    ensures a == b
  {
    assert |multiset(a)| == |multiset(b)|;
    if b != [] {
      SameFirst(a, b);
      FirstOut(a);
      FirstOut(b);
      SortedUnique(a[1..], b[1..]);
      assert a == [a[0]] + a[1..] && b == [b[0]] + b[1..];
    }
  }

  lemma SameFirst(a: seq<Block>, b: seq<Block>)
    requires multiset(a) == multiset(b) && SortedBlocks(a) && a != [] && b != []
    requires forall i, j :: 0 <= i < j < |b| ==> b[i].0 < b[j].0
    ensures a[0] == b[0]
  {
    assert a[0] in multiset(b) && b[0] in multiset(a);
    var i :| 0 <= i < |b| && b[i] == a[0];
    var j :| 0 <= j < |a| && a[j] == b[0];
  }

  lemma FirstOut(a: seq<Block>)
    requires a != []
    ensures multiset(a[1..]) == multiset(a) - multiset{a[0]}
  {
    assert a == [a[0]] + a[1..];
  }

  ghost function Joined(bs: seq<Block>): seq<Value> {
    if bs == [] then [] else bs[0].1 + Joined(bs[1..])
  }

  datatype Progress = Incomplete | Complete(vals: seq<Value>) | Failed

  class DynamicPull {
    const key: seq<Key>
    const valSize: array<nat>
    var recv: seq<Block>
    var matchedNum: nat

    ghost predicate Valid()
      reads this
    {
      Increasing(key) && valSize.Length == |key| * 1
    }

    constructor (key: seq<Key>)
      requires Increasing(key)
      ensures Valid() && this.key == key && fresh(valSize) && recv == [] && matchedNum == 0
    {
      this.key := key;
      valSize := new nat[|key| * 1](i => 0);
      recv, matchedNum := [], 0;
    }

    /** ProcessResponse for dynamic value lengths: sizes are matched in at once, data is kept back until all keys are
        matched and then put together in the order of first keys. */
    method ProcessResponse(r: Response) returns (p: Progress)
      requires Valid() && Increasing(r.key) && |r.sizes| == |r.key|
      modifies this, valSize
      ensures Valid()
      ensures |r.sizes| == |r.key| * 1
      ensures MergedRange(r.key, r.sizes, key, 1, ReplaceSize, old(valSize[..]), valSize[..], 0, |key|)
      ensures Found(r.key, key, |key|) ==> matchedNum == old(matchedNum) + |r.key|
      ensures var blocks := old(recv) + (if r.key == [] then [] else [(r.key[0], r.data)]);
        Found(r.key, key, |key|) ==>
          if matchedNum != |key| then p == Incomplete && recv == blocks
          else p == Complete(Joined(Sort(blocks))) && recv == []
    {
      hide MergedRange, Joined, Sort;
      if r.key != [] {
        var n := Match(r.key, r.sizes, key, valSize, 1, ReplaceSize, 2);
        if Found(r.key, key, |key|) {
          AllCommon(r.key, key, |key|);
        }
        if n != |r.sizes| {
          return Failed;
        }
        matchedNum := matchedNum + n;
        recv := recv + [(r.key[0], r.data)];
      } else {
        NothingMatched(r, key, valSize[..]);
        assert old(recv) + [] == recv;
      }
      if matchedNum != |key| {
        return Incomplete;
      }
      var sorted := Sort(recv);
      var vals := CopyOut(sorted);
      recv := [];
      return Complete(vals);
    }
  }

  method CopyOut(sorted: seq<Block>) returns (vals: seq<Value>)
    ensures vals == Joined(sorted)
  {
    vals := [];
    for i := 0 to |sorted|
      invariant vals + Joined(sorted[i..]) == Joined(sorted)
    {
      assert sorted[i..][1..] == sorted[i + 1..];
      vals := vals + sorted[i].1;
    }
  }

  lemma NothingMatched(r: Response, key: seq<Key>, sizes: seq<nat>)
    requires r.key == [] && r.sizes == [] && |sizes| == |key| * 1
    ensures MergedRange(r.key, r.sizes, key, 1, ReplaceSize, sizes, sizes, 0, |key|)
  {
  }

  /** The response of a server that owns the keys of one piece. */
  function ReplyTo(piece: seq<Key>, ans: Answer): Response {
    Response(piece, Concat(piece, ans), seq(|piece|, i requires 0 <= i < |piece| => |ans(piece[i])|))
  }

  function Replies(pieces: seq<seq<Key>>, ans: Answer): seq<Response> {
    seq(|pieces|, i requires 0 <= i < |pieces| => ReplyTo(pieces[i], ans))
  }

  ghost function Blocks(rs: seq<Response>): seq<Block> {
    if rs == [] then [] else (if rs[0].key == [] then [] else [(rs[0].key[0], rs[0].data)]) + Blocks(rs[1..])
  }

  ghost function KeyCount(rs: seq<Response>): nat {
    if rs == [] then 0 else |rs[0].key| + KeyCount(rs[1..])
  }

  lemma {:induction false} CountsConcat(a: seq<Response>, b: seq<Response>)
    ensures KeyCount(a + b) == KeyCount(a) + KeyCount(b)
    ensures Blocks(a + b) == Blocks(a) + Blocks(b)
  {
    if a == [] {
      assert a + b == b;
    } else {
      assert (a + b)[1..] == a[1..] + b;
      CountsConcat(a[1..], b);
    }
  }

  lemma RemoveOne<T>(b: seq<T>, i: nat)
    requires i < |b|
    ensures multiset(b) == multiset(b[..i] + b[i + 1..]) + multiset{b[i]}
  {
    assert b == b[..i] + [b[i]] + b[i + 1..];
  }

  lemma Cancel<T>(x: multiset<T>, y: multiset<T>, e: T)
    requires x + multiset{e} == y + multiset{e}
    ensures x == y
  {
    assert (x + multiset{e}) - multiset{e} == x && (y + multiset{e}) - multiset{e} == y;
  }

  lemma MoveOut(b: seq<Response>, i: nat)
    requires i < |b|
    ensures var rest := b[..i] + b[i + 1..];
      && KeyCount(b) == KeyCount([b[i]]) + KeyCount(rest)
      && multiset(Blocks(b)) == multiset(Blocks([b[i]])) + multiset(Blocks(rest))
  {
    hide KeyCount, Blocks;
    assert b == b[..i] + ([b[i]] + b[i + 1..]);
    CountsConcat(b[..i], [b[i]] + b[i + 1..]);
    CountsConcat([b[i]], b[i + 1..]);
    CountsConcat(b[..i], b[i + 1..]);
  }

  /** The place in b of the first element of a; the others are the same on both sides. */
  lemma Matching<T>(a: seq<T>, b: seq<T>) returns (i: nat)
    requires multiset(a) == multiset(b) && a != []
    ensures i < |b| && b[i] == a[0] && multiset(a[1..]) == multiset(b[..i] + b[i + 1..])
  {
    assert a[0] in multiset(b);
    i :| 0 <= i < |b| && b[i] == a[0];
    RemoveOne(a, 0);
    RemoveOne(b, i);
    assert a[..0] + a[0 + 1..] == a[1..];
    Cancel(multiset(a[1..]), multiset(b[..i] + b[i + 1..]), a[0]);
  }

  /** Counting keys and collecting blocks does not depend on the order of arrival. */
  lemma {:induction false} AnyOrder(a: seq<Response>, b: seq<Response>)
    requires multiset(a) == multiset(b)
    ensures KeyCount(a) == KeyCount(b) && multiset(Blocks(a)) == multiset(Blocks(b))
  {
    hide KeyCount, Blocks;
    if a == [] {
      assert |multiset(b)| == 0;
    } else {
      var i := Matching(a, b);
      assert a[..0] + a[0 + 1..] == a[1..];
      MoveOut(a, 0);
      MoveOut(b, i);
      AnyOrder(a[1..], b[..i] + b[i + 1..]);
    }
  }

  // ---- what the pieces of a sorted key list reply ----

  ghost predicate PiecesOf(pieces: seq<seq<Key>>, key: seq<Key>) {
    Flatten(pieces) == key && Increasing(key) && forall i :: 0 <= i < |pieces| ==> pieces[i] != []
  }

  lemma RepliesTail(pieces: seq<seq<Key>>, ans: Answer)
    requires pieces != []
    ensures Replies(pieces, ans) == [ReplyTo(pieces[0], ans)] + Replies(pieces[1..], ans)
  {
  }

  lemma TailIncreasing(a: seq<Key>, b: seq<Key>)
    requires Increasing(a + b)
    ensures Increasing(a) && Increasing(b) && forall i, j :: 0 <= i < |a| && 0 <= j < |b| ==> a[i] < b[j]
  {
    assert forall i :: 0 <= i < |a| ==> (a + b)[i] == a[i];
    assert forall j :: 0 <= j < |b| ==> (a + b)[|a| + j] == b[j];
  }

  /** In piece order the blocks are strictly sorted, their data is the answer in key order, and all keys are counted. */
  lemma {:induction false} PieceOrder(pieces: seq<seq<Key>>, key: seq<Key>, ans: Answer)
    requires PiecesOf(pieces, key)
    ensures var bs := Blocks(Replies(pieces, ans));
      && (forall i, j :: 0 <= i < j < |bs| ==> bs[i].0 < bs[j].0)
      && (forall i :: 0 <= i < |bs| ==> bs[i].0 in key)
      && Joined(bs) == Concat(key, ans)
    ensures KeyCount(Replies(pieces, ans)) == |key|
  {
    if pieces != [] {
      var rest := Flatten(pieces[1..]);
      TailIncreasing(pieces[0], rest);
      RepliesTail(pieces, ans);
      PieceOrder(pieces[1..], rest, ans);
      ConcatJoin(pieces[0], rest, ans);
      var bs := Blocks(Replies(pieces, ans));
      var tail := Blocks(Replies(pieces[1..], ans));
      assert Replies(pieces, ans)[1..] == Replies(pieces[1..], ans);
      assert bs == [(pieces[0][0], Concat(pieces[0], ans))] + tail;
      assert bs[1..] == tail;
    }
  }

  lemma {:induction false} PieceFound(pieces: seq<seq<Key>>, key: seq<Key>, i: nat)
    requires PiecesOf(pieces, key) && i < |pieces|
    ensures Increasing(pieces[i]) && forall j :: 0 <= j < |pieces[i]| ==> pieces[i][j] in key
  {
    var rest := Flatten(pieces[1..]);
    TailIncreasing(pieces[0], rest);
    if i > 0 {
      PieceFound(pieces[1..], rest, i - 1);
    }
  }

  /** What is known of any response that arrives. */
  lemma ArrivalIsReply(pieces: seq<seq<Key>>, key: seq<Key>, arrivals: seq<Response>, ans: Answer, t: nat)
    requires PiecesOf(pieces, key) && multiset(arrivals) == multiset(Replies(pieces, ans)) && t < |arrivals|
    ensures var r := arrivals[t];
      && r.key != [] && r == ReplyTo(r.key, ans) && Increasing(r.key) && Found(r.key, key, |key|)
  {
    var rs := Replies(pieces, ans);
    assert arrivals[t] in multiset(rs);
    var i :| 0 <= i < |rs| && rs[i] == arrivals[t];
    PieceFound(pieces, key, i);
  }

  lemma {:induction false} SomeKeysLeft(pieces: seq<seq<Key>>, key: seq<Key>, arrivals: seq<Response>, ans: Answer, t: nat)
    requires PiecesOf(pieces, key) && multiset(arrivals) == multiset(Replies(pieces, ans)) && t <= |arrivals|
    ensures KeyCount(arrivals[..t]) == |key| <==> t == |arrivals|
  {
    hide Blocks, Replies, ReplyTo, Found;
    AnyOrder(arrivals, Replies(pieces, ans));
    PieceOrder(pieces, key, ans);
    CountsConcat(arrivals[..t], arrivals[t..]);
    assert arrivals == arrivals[..t] + arrivals[t..];
    if t < |arrivals| {
      ArrivalIsReply(pieces, key, arrivals, ans, t);
      assert arrivals[t..][0] == arrivals[t];
    }
  }

  ghost predicate SizesHold(key: seq<Key>, sizes: seq<nat>, ans: Answer, got: set<Key>) {
    |sizes| == |key| && forall j :: 0 <= j < |key| && key[j] in got ==> sizes[j] == |ans(key[j])|
  }

  lemma MergeSizes(key: seq<Key>, r: Response, ans: Answer, before: seq<nat>, after: seq<nat>, got: set<Key>)
    requires r == ReplyTo(r.key, ans) && Increasing(r.key) && |before| == |after| == |key| * 1 && |r.sizes| == |r.key| * 1
    requires SizesHold(key, before, ans, got) && MergedRange(r.key, r.sizes, key, 1, ReplaceSize, before, after, 0, |key|)
    ensures SizesHold(key, after, ans, got + set x | x in r.key)
  {
    hide IndexOf;
    forall j | 0 <= j < |key| && (key[j] in got || key[j] in r.key)
      ensures after[j] == |ans(key[j])|
    {
      assert Slot(j, 1, 0) == j;
      var i := IndexOf(r.key, key[j]);
      assert i < |r.key| ==> Slot(i, 1, 0) == i && r.sizes[i] == |ans(r.key[i])|;
    }
  }

  /** For any arrival order of the servers' responses, the pull completes with the last one and yields the values of all
      keys in key order together with their sizes. */
  method ReceiveDynamic(key: seq<Key>, arrivals: seq<Response>, ghost pieces: seq<seq<Key>>, ghost ans: Answer)
    returns (p: Progress, sizes: array<nat>)
    requires PiecesOf(pieces, key) && key != [] && multiset(arrivals) == multiset(Replies(pieces, ans))
    ensures p == Complete(Concat(key, ans))
    ensures sizes.Length == |key| && forall j :: 0 <= j < |key| ==> sizes[j] == |ans(key[j])|
  {
    hide IndexOf, MergedRange, Joined, Sort, Blocks, KeyCount, Replies, ReplyTo, Flatten, Found, Increasing;
    var pull := new DynamicPull(key);
    ghost var got: set<Key> := {};
    p := Incomplete;
    NoArrivals();
    for t := 0 to |arrivals|
      invariant pull.Valid() && pull.key == key && fresh(pull) && fresh(pull.valSize)
      invariant pull.matchedNum == KeyCount(arrivals[..t])
      invariant t < |arrivals| ==> p == Incomplete && pull.recv == Blocks(arrivals[..t])
      invariant t == |arrivals| > 0 ==> p == Complete(Joined(Sort(Blocks(arrivals))))
      invariant SizesHold(key, pull.valSize[..], ans, got)
      invariant forall u, x :: 0 <= u < t && x in arrivals[u].key ==> x in got
    {
      var r := arrivals[t];
      ArrivalIsReply(pieces, key, arrivals, ans, t);
      OneMore(arrivals, t);
      SomeKeysLeft(pieces, key, arrivals, ans, t + 1);
      ReplySizes(r, ans);
      ghost var before := pull.valSize[..];
      p := pull.ProcessResponse(r);
      MergeSizes(key, r, ans, before, pull.valSize[..], got);
      got := got + set x | x in r.key;
    }
    sizes := pull.valSize;
    Assembled(pieces, key, arrivals, ans, got);
  }

  lemma NoArrivals()
    ensures KeyCount([]) == 0 && Blocks([]) == []
  {
  }

  lemma ReplySizes(r: Response, ans: Answer)
    requires r == ReplyTo(r.key, ans)
    ensures |r.sizes| == |r.key|
  {
  }

  lemma OneMore(arrivals: seq<Response>, t: nat)
    requires t < |arrivals| && arrivals[t].key != []
    ensures KeyCount(arrivals[..t + 1]) == KeyCount(arrivals[..t]) + |arrivals[t].key|
    ensures Blocks(arrivals[..t + 1]) == Blocks(arrivals[..t]) + [(arrivals[t].key[0], arrivals[t].data)]
    ensures t + 1 == |arrivals| ==> arrivals[..t + 1] == arrivals
  {
    var r := arrivals[t];
    assert arrivals[..t + 1] == arrivals[..t] + [r];
    CountsConcat(arrivals[..t], [r]);
    assert [r][1..] == [];
    assert KeyCount([r]) == |r.key| && Blocks([r]) == [(r.key[0], r.data)];
  }

  lemma Assembled(pieces: seq<seq<Key>>, key: seq<Key>, arrivals: seq<Response>, ans: Answer, got: set<Key>)
    requires PiecesOf(pieces, key) && key != [] && multiset(arrivals) == multiset(Replies(pieces, ans))
    requires forall u, x :: 0 <= u < |arrivals| && x in arrivals[u].key ==> x in got
    ensures |arrivals| > 0 && Joined(Sort(Blocks(arrivals))) == Concat(key, ans)
    ensures forall x :: x in key ==> x in got
  {
    hide Sort, Joined;
    var bs := Blocks(Replies(pieces, ans));
    AnyOrder(arrivals, Replies(pieces, ans));
    PieceOrder(pieces, key, ans);
    SortSorts(Blocks(arrivals));
    SortedUnique(Sort(Blocks(arrivals)), bs);
    if arrivals == [] {
      NoArrivals();
    }
    forall x | x in key
      ensures x in got
    {
      var i := PieceHolding(pieces, key, x);
      var r := ReplyTo(pieces[i], ans);
      assert Replies(pieces, ans)[i] == r;
      assert r in multiset(arrivals);
      var u :| 0 <= u < |arrivals| && arrivals[u] == r;
    }
  }

  lemma {:induction false} PieceHolding(pieces: seq<seq<Key>>, key: seq<Key>, x: Key) returns (i: nat)
    requires Flatten(pieces) == key && x in key
    ensures i < |pieces| && x in pieces[i]
  {
    if x in pieces[0] {
      i := 0;
    } else {
      i := PieceHolding(pieces[1..], Flatten(pieces[1..]), x);
      i := i + 1;
    }
  }
}
