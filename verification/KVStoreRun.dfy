/**
 * Whole runs of the two stores: any sequence of pushes and pulls with sorted
 * keys of the node's range is answered alike by the buckets and the single map.
 */
module KVStoreRun {
  import opened Sequences
  import opened KVStore
  import opened KVStoreBuckets

  datatype Op = Push(keys: seq<Key>, vals: seq<Value>, width: nat) | Pull(keys: seq<Key>) | Clear

  ghost predicate Allowed(op: Op, begin: Key, end: Key) {
    op.Clear? || AllowedKeys(op, begin, end)
  }

  ghost predicate AllowedKeys(op: Op, begin: Key, end: Key)
    requires !op.Clear?
  {
    && Sorted(op.keys) && (forall i :: 0 <= i < |op.keys| ==> begin <= op.keys[i] < end)
    && (op.Push? ==> |op.vals| == |op.keys| * op.width)
  }

  ghost predicate AllAllowed(ops: seq<Op>, begin: Key, end: Key) {
    forall i :: 0 <= i < |ops| ==> Allowed(ops[i], begin, end)
  }

  /** What one operation makes of the map. */
  ghost function TableAfter(h: Handle, m: Table, op: Op): Table
    requires op.Push? ==> |op.vals| == |op.keys| * op.width
  {
    match op
    case Push(keys, vals, width) => Pushed(h, m, keys, vals, width, 0, |keys|)
    case Pull(keys) => Touched(h, m, keys, 0, |keys|)
    case Clear => map[]
  }

  ghost function Reply(h: Handle, m: Table, op: Op): seq<Value> {
    if op.Pull? then AllAnswers(h, m, op.keys, |op.keys|) else []
  }

  /** The answers of a map to a sequence of operations. */
  ghost function Replies(h: Handle, m: Table, ops: seq<Op>, begin: Key, end: Key): seq<seq<Value>>
    requires AllAllowed(ops, begin, end)
    decreases |ops|
  {
    if ops == [] then []
    else
      assert Allowed(ops[0], begin, end);
      [Reply(h, m, ops[0])] + Replies(h, TableAfter(h, m, ops[0]), ops[1..], begin, end)
  }

  lemma RepliesStep(h: Handle, m: Table, ops: seq<Op>, i: nat, begin: Key, end: Key, answers: seq<seq<Value>>)
    requires AllAllowed(ops, begin, end) && i < |ops|
    ensures AllAllowed(ops[i..], begin, end) && AllAllowed(ops[i + 1..], begin, end) && Allowed(ops[i], begin, end)
    ensures answers + Replies(h, m, ops[i..], begin, end)
         == (answers + [Reply(h, m, ops[i])]) + Replies(h, TableAfter(h, m, ops[i]), ops[i + 1..], begin, end)
  {
    hide Reply, TableAfter, Allowed;
    assert ops[i..][1..] == ops[i + 1..];
  }

  lemma RepliesEnd(h: Handle, m: Table, ops: seq<Op>, begin: Key, end: Key)
    requires AllAllowed(ops, begin, end)
    ensures ops[0..] == ops && ops[|ops|..] == [] && Replies(h, m, [], begin, end) == []
  {
  }

  /** Blocks of k values each, one after the other. */
  lemma {:induction false} PulledIsAll(h: Handle, m: Table, keys: seq<Key>, vals: seq<Value>, k: nat, n: nat)
    requires n <= |keys| && |vals| == |keys| * k && Pulled(h, m, keys, vals, k, 0, |keys|)
    ensures n * k <= |vals| && AllAnswers(h, m, keys, n) == vals[..n * k]
  {
    if n > 0 {
      PulledIsAll(h, m, keys, vals, k, n - 1);
      LastBlock(h, m, keys, vals, k, n - 1);
    }
  }

  lemma LastBlock(h: Handle, m: Table, keys: seq<Key>, vals: seq<Value>, k: nat, i: nat)
    requires i < |keys| && |vals| == |keys| * k && Pulled(h, m, keys, vals, k, 0, |keys|) && i * k <= |vals|
    ensures (i + 1) * k <= |vals| && vals[..(i + 1) * k] == vals[..i * k] + h.pull(keys[i], Lookup(h, m, keys[i]))
  {
    hide Lookup;
    assert Block(vals, k, i) == h.pull(keys[i], Lookup(h, m, keys[i]));
    Next(i, k);
  }

  /** The operation reads a bucket: a pull always, a push if it has keys. */
  predicate ReadsBuckets(op: Op) {
    op.Pull? || (op.Push? && op.keys != [])
  }

  /** After a Clear no operation reads a bucket. */
  ghost predicate ClearedForGood(ops: seq<Op>) {
    forall i, j :: 0 <= i < j < |ops| && ops[i].Clear? ==> !ReadsBuckets(ops[j])
  }

  /**
   * The bucketed store over any sequence of operations: it fails exactly when some
   * operation after a Clear reads a bucket, and otherwise gives the replies of a map.
   */
  method RunBuckets(h: Handle, k: nat, nt: nat, begin: Key, end: Key, ops: seq<Op>) returns (ok: bool, answers: seq<seq<Value>>)
    requires k > 0 && 0 < nt < 30 && begin < end && AllAllowed(ops, begin, end)
    requires forall x, e :: |h.pull(x, e)| == k
    ensures ok <==> ClearedForGood(ops)
    ensures ok ==> answers == Replies(h, map[], ops, begin, end)
  {
    var store := new BucketStore(h, k, nt, begin, end);
    answers := [];
    ok := true;
    ghost var m: Table, cleared := map[], false;
    assert ops[..0] == [] && ops[..|ops|] == ops;
    RepliesEnd(h, m, ops, begin, end);
    for i := 0 to |ops|
      invariant ok && fresh(store) && store.handle == h && store.k == k && store.begin == begin && store.end == end
      invariant store.Built() && (store.Valid() <==> !cleared) && (!cleared ==> store.Represents(m))
      invariant (cleared <==> HasClear(ops, i)) && ClearedForGood(ops[..i])
      invariant AllAllowed(ops[i..], begin, end)
      invariant Replies(h, map[], ops, begin, end) == answers + Replies(h, m, ops[i..], begin, end)
    {
      hide Replies, TableAfter, Reply, AllAllowed, ReadsBuckets, ClearedForGood, HasClear;
      RepliesStep(h, m, ops, i, begin, end, answers);
      ClearStep(ops, i);
      if ops[i].Clear? {
        store.Clear();
        answers := answers + [[]];
        cleared := true;
        ClearReplies(h, m, ops[i]);
      } else {
        var answer;
        ok, answer := OneOp(store, ops[i], m);
        if !ok {
          return;
        }
        answers := answers + [answer];
      }
      m := TableAfter(h, m, ops[i]);
    }
    RepliesEnd(h, m, ops, begin, end);
  }

  ghost predicate HasClear(ops: seq<Op>, i: nat) {
    exists j :: 0 <= j < i && j < |ops| && ops[j].Clear?
  }

  /** One more operation; what fails once fails for good. */
  lemma ClearStep(ops: seq<Op>, i: nat)
    requires i < |ops|
    ensures HasClear(ops, i + 1) <==> HasClear(ops, i) || ops[i].Clear?
    ensures ClearedForGood(ops[..i + 1]) <==> ClearedForGood(ops[..i]) && !(HasClear(ops, i) && ReadsBuckets(ops[i]))
    ensures !ClearedForGood(ops[..i + 1]) ==> !ClearedForGood(ops)
  {
    hide ReadsBuckets;
    var upto := ops[..i + 1];
    assert forall j :: 0 <= j < i ==> upto[j] == ops[..i][j];
    assert forall j :: 0 <= j <= i ==> upto[j] == ops[j];
    if HasClear(ops, i) && ReadsBuckets(ops[i]) {
      var j :| 0 <= j < i && j < |ops| && ops[j].Clear?;
      assert upto[j].Clear? && ReadsBuckets(upto[i]);
    }
  }

  lemma ClearReplies(h: Handle, m: Table, op: Op)
    requires op.Clear?
    ensures Reply(h, m, op) == []
  {
  }

  /** One push or pull; an empty push does nothing even after a Clear. */
  method OneOp(store: BucketStore, op: Op, ghost m: Table) returns (ok: bool, answer: seq<Value>)
    requires store.Built() && (store.Valid() ==> store.Represents(m)) && !op.Clear? && Allowed(op, store.begin, store.end)
    requires forall x, e :: |store.handle.pull(x, e)| == store.k
    modifies store
    ensures store.Built() && (store.Valid() <==> old(store.Valid()))
    ensures ok <==> old(store.Valid()) || !ReadsBuckets(op)
    ensures ok && store.Valid() ==> store.Represents(TableAfter(store.handle, m, op))
    ensures ok ==> answer == Reply(store.handle, m, op)
  {
    hide Pushed, Touched, AllAnswers, Pulled;
    answer := [];
    match op
    case Push(keys, vals, width) =>
      ok := store.HandlePush(keys, vals, width, m);
    case Pull(keys) =>
      var val;
      ok, val := store.HandlePull(keys, m);
      if ok {
        PulledIsAll(store.handle, m, keys, val[..], store.k, |keys|);
        assert val[..][..|keys| * store.k] == val[..];
        answer := val[..];
      }
    case Clear =>
  }

  method RunSingle(h: Handle, k: nat, begin: Key, end: Key, ops: seq<Op>) returns (answers: seq<seq<Value>>)
    requires k > 0 && AllAllowed(ops, begin, end)
    requires forall x, e :: |h.pull(x, e)| == k
    ensures answers == Replies(h, map[], ops, begin, end)
  {
    var store := new SingleStore(h, k);
    answers := [];
    RepliesEnd(h, store.data, ops, begin, end);
    for i := 0 to |ops|
      invariant fresh(store) && store.handle == h && store.k == k && AllAllowed(ops[i..], begin, end)
      invariant Replies(h, map[], ops, begin, end) == answers + Replies(h, store.data, ops[i..], begin, end)
    {
      hide Replies, Pushed, Touched, AllAnswers;
      RepliesStep(h, store.data, ops, i, begin, end, answers);
      match ops[i]
      case Push(keys, vals, width) =>
        store.HandlePush(keys, vals, width);
        answers := answers + [[]];
      case Pull(keys) =>
        var vals := store.HandlePull(keys);
        answers := answers + [vals];
      case Clear =>
        store.Clear();
        answers := answers + [[]];
    }
    RepliesEnd(h, store.data, ops, begin, end);
  }
}
