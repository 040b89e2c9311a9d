/**
 * What the replies of a store mean: a pulled key answers from the values that were
 * pushed for it, one after the other, since the table was last cleared. Nothing
 * here speaks of how the tables are searched or updated.
 */
module KVStoreHistory {
  import opened Sequences
  import opened Arithmetic
  import opened KVStore
  import opened KVStoreRun

  /** The values of position i of a push. */
  ghost function Share(keys: seq<Key>, vals: seq<Value>, width: nat, i: nat): seq<Value>
    requires i < |keys| && |vals| == |keys| * width
  {
    ShareInside(|keys|, width, i);
    vals[i * width..(i + 1) * width]
  }

  lemma ShareInside(n: nat, width: nat, i: nat)
    requires i < n
    ensures i * width <= (i + 1) * width <= n * width
  {
    Times(i, i + 1, width);
    Times(i + 1, n, width);
  }

  /** The values that the first n positions of a push bring for x, in order. */
  ghost function Brought(keys: seq<Key>, vals: seq<Value>, width: nat, x: Key, n: nat): seq<seq<Value>>
    requires n <= |keys| && |vals| == |keys| * width
  {
    if n == 0 then []
    else Brought(keys, vals, width, x, n - 1) + if keys[n - 1] == x then [Share(keys, vals, width, n - 1)] else []
  }

  /** The values pushed for x by these operations since the last Clear. */
  ghost function History(ops: seq<Op>, x: Key): seq<seq<Value>>
    requires forall i :: 0 <= i < |ops| && ops[i].Push? ==> |ops[i].vals| == |ops[i].keys| * ops[i].width
  {
    if ops == [] then []
    else
      var front, op := ops[..|ops| - 1], ops[|ops| - 1];
      match op
      case Clear => []
      case Pull(_) => History(front, x)
      case Push(keys, vals, width) => History(front, x) + Brought(keys, vals, width, x, |keys|)
  }

  /** The entry of x after these values were pushed one by one. */
  ghost function PushedInTurn(h: Handle, x: Key, e: Entry, blocks: seq<seq<Value>>): Entry {
    if blocks == [] then e else h.push(x, blocks[|blocks| - 1], PushedInTurn(h, x, e, blocks[..|blocks| - 1]))
  }

  lemma {:induction false} InTurnConcat(h: Handle, x: Key, e: Entry, a: seq<seq<Value>>, b: seq<seq<Value>>)
    ensures PushedInTurn(h, x, e, a + b) == PushedInTurn(h, x, PushedInTurn(h, x, e, a), b)
  {
    if b == [] {
      assert a + b == a;
    } else {
      InTurnConcat(h, x, e, a, b[..|b| - 1]);
      assert (a + b)[..|a + b| - 1] == a + b[..|b| - 1];
    }
  }

  /** The entry of a key, or the one that the map would create. */
  ghost function EntryOf(h: Handle, m: Table, x: Key): Entry {
    if x in m then m[x] else h.initial
  }

  // ---- one operation ----

  /** A push leaves x with its own values pushed in turn, and every other key as it was. */
  lemma {:induction false} PushedEntry(h: Handle, m: Table, keys: seq<Key>, vals: seq<Value>, width: nat, x: Key, n: nat)
    requires n <= |keys| && |vals| == |keys| * width
    ensures EntryOf(h, Pushed(h, m, keys, vals, width, 0, n), x)
         == PushedInTurn(h, x, EntryOf(h, m, x), Brought(keys, vals, width, x, n))
  {
    if n > 0 {
      hide Pushed, Brought, PushedInTurn, Share, EntryOf;
      PushedEntry(h, m, keys, vals, width, x, n - 1);
      var before, blocks := Pushed(h, m, keys, vals, width, 0, n - 1), Brought(keys, vals, width, x, n - 1);
      OnePosition(h, m, keys, vals, width, n - 1, x);
      if keys[n - 1] == x {
        InTurnConcat(h, x, EntryOf(h, m, x), blocks, [Share(keys, vals, width, n - 1)]);
        InTurnOne(h, x, PushedInTurn(h, x, EntryOf(h, m, x), blocks), Share(keys, vals, width, n - 1));
      } else {
        assert blocks + [] == blocks;
      }
    } else {
      NothingBrought(h, m, keys, vals, width, x);
    }
  }

  lemma NothingBrought(h: Handle, m: Table, keys: seq<Key>, vals: seq<Value>, width: nat, x: Key)
    requires |vals| == |keys| * width
    ensures Pushed(h, m, keys, vals, width, 0, 0) == m
    ensures PushedInTurn(h, x, EntryOf(h, m, x), Brought(keys, vals, width, x, 0)) == EntryOf(h, m, x)
  {
  }

  lemma OnePosition(h: Handle, m: Table, keys: seq<Key>, vals: seq<Value>, width: nat, n: nat, x: Key)
    requires n < |keys| && |vals| == |keys| * width
    ensures var before, after := Pushed(h, m, keys, vals, width, 0, n), Pushed(h, m, keys, vals, width, 0, n + 1);
            EntryOf(h, after, x) == if keys[n] == x then h.push(x, Share(keys, vals, width, n), EntryOf(h, before, x))
                                    else EntryOf(h, before, x)
    ensures Brought(keys, vals, width, x, n + 1)
         == Brought(keys, vals, width, x, n) + if keys[n] == x then [Share(keys, vals, width, n)] else []
  {
    BlockInside(|keys|, width, n);
  }

  /** A pull leaves every entry as it was and creates the missing ones. */
  lemma {:induction false} TouchedEntry(h: Handle, m: Table, keys: seq<Key>, x: Key, n: nat)
    requires n <= |keys|
    ensures var t := Touched(h, m, keys, 0, n);
            && (x in t <==> x in m || x in keys[..n])
            && (x in m ==> t[x] == m[x]) && (x in t && x !in m ==> t[x] == h.initial)
  {
    if n > 0 {
      TouchedEntry(h, m, keys, x, n - 1);
      assert keys[..n] == keys[..n - 1] + [keys[n - 1]];
    }
  }

  lemma {:induction false} AnsweredFrom(h: Handle, m: Table, keys: seq<Key>, n: nat)
    requires n < |keys|
    ensures AllAnswers(h, m, keys, n + 1) == AllAnswers(h, m, keys, n) + h.pull(keys[n], EntryOf(h, m, keys[n]))
  {
  }

  // ---- any sequence of operations ----

  ghost predicate Fits(ops: seq<Op>) {
    forall i :: 0 <= i < |ops| && ops[i].Push? ==> |ops[i].vals| == |ops[i].keys| * ops[i].width
  }

  /** The map after the operations. */
  ghost function TableOf(h: Handle, ops: seq<Op>): Table
    requires Fits(ops)
  {
    if ops == [] then map[] else TableAfter(h, TableOf(h, ops[..|ops| - 1]), ops[|ops| - 1])
  }

  lemma {:induction false} TableIsHistory(h: Handle, ops: seq<Op>, x: Key)
    requires Fits(ops)
    ensures EntryOf(h, TableOf(h, ops), x) == PushedInTurn(h, x, h.initial, History(ops, x))
  {
    if ops != [] {
      var front := ops[..|ops| - 1];
      TableIsHistory(h, front, x);
      match ops[|ops| - 1] {
        case Clear =>
        case Pull(keys) =>
          TouchedEntry(h, TableOf(h, front), keys, x, |keys|);
        case Push(keys, vals, width) =>
          PushedEntry(h, TableOf(h, front), keys, vals, width, x, |keys|);
          InTurnConcat(h, x, h.initial, History(front, x), Brought(keys, vals, width, x, |keys|));
      }
    }
  }

  /** The answers to the first n of these keys after the operations, from the history of each key. */
  ghost function AnswersAfter(h: Handle, ops: seq<Op>, keys: seq<Key>, n: nat): seq<Value>
    requires Fits(ops) && n <= |keys|
  {
    if n == 0 then []
    else AnswersAfter(h, ops, keys, n - 1) + h.pull(keys[n - 1], PushedInTurn(h, keys[n - 1], h.initial, History(ops, keys[n - 1])))
  }

  lemma {:induction false} AnswersAre(h: Handle, ops: seq<Op>, keys: seq<Key>, n: nat)
    requires Fits(ops) && n <= |keys|
    ensures AllAnswers(h, TableOf(h, ops), keys, n) == AnswersAfter(h, ops, keys, n)
  {
    if n > 0 {
      AnswersAre(h, ops, keys, n - 1);
      AnsweredFrom(h, TableOf(h, ops), keys, n - 1);
      TableIsHistory(h, ops, keys[n - 1]);
    }
  }

  lemma {:induction false} ReplyAt(h: Handle, m: Table, ops: seq<Op>, done: seq<Op>, begin: Key, end: Key, i: nat)
    requires AllAllowed(ops, begin, end) && i < |ops| && Fits(done) && Fits(done + ops[..i]) && m == TableOf(h, done)
    ensures |Replies(h, m, ops, begin, end)| == |ops|
    ensures Replies(h, m, ops, begin, end)[i] == Reply(h, TableOf(h, done + ops[..i]), ops[i])
    decreases |ops|
  {
    hide TableAfter, Reply, TableOf, Fits, AllAllowed;
    Onwards(h, ops, done, begin, end);
    var done' := done + [ops[0]];
    if i > 0 {
      assert done + ops[..i] == done' + ops[1..][..i - 1];
      ReplyAt(h, TableOf(h, done'), ops[1..], done', begin, end, i - 1);
    } else {
      assert done + ops[..0] == done;
      RepliesCount(h, TableOf(h, done'), ops[1..], begin, end);
    }
  }

  lemma {:induction false} RepliesCount(h: Handle, m: Table, ops: seq<Op>, begin: Key, end: Key)
    requires AllAllowed(ops, begin, end)
    ensures |Replies(h, m, ops, begin, end)| == |ops|
    decreases |ops|
  {
    if ops != [] {
      assert Allowed(ops[0], begin, end);
      RepliesCount(h, TableAfter(h, m, ops[0]), ops[1..], begin, end);
    }
  }

  lemma Onwards(h: Handle, ops: seq<Op>, done: seq<Op>, begin: Key, end: Key)
    requires AllAllowed(ops, begin, end) && ops != [] && Fits(done)
    ensures Allowed(ops[0], begin, end) && AllAllowed(ops[1..], begin, end) && Fits(done + [ops[0]])
    ensures ops[0].Push? ==> |ops[0].vals| == |ops[0].keys| * ops[0].width
    ensures TableOf(h, done + [ops[0]]) == TableAfter(h, TableOf(h, done), ops[0])
  {
    assert Allowed(ops[0], begin, end);
    hide Allowed;
    assert (done + [ops[0]])[..|done|] == done;
  }

  /**
   * The replies of a map to any sequence of operations: a pull answers every key
   * from the values pushed for it before, in their order, since the last Clear.
   */
  lemma RepliesAreHistory(h: Handle, ops: seq<Op>, begin: Key, end: Key, i: nat)
    requires AllAllowed(ops, begin, end) && i < |ops|
    ensures |Replies(h, map[], ops, begin, end)| == |ops| && Fits(ops[..i])
    ensures Replies(h, map[], ops, begin, end)[i]
         == if ops[i].Pull? then AnswersAfter(h, ops[..i], ops[i].keys, |ops[i].keys|) else []
  {
    AllFit(ops, begin, end, i);
    hide Replies, AnswersAfter, TableOf, AllAllowed;
    assert [] + ops[..i] == ops[..i];
    NoTable(h);
    ReplyAt(h, map[], ops, [], begin, end, i);
    if ops[i].Pull? {
      AnswersAre(h, ops[..i], ops[i].keys, |ops[i].keys|);
    }
  }

  lemma NoTable(h: Handle)
    ensures Fits([]) && TableOf(h, []) == map[]
  {
  }

  lemma AllFit(ops: seq<Op>, begin: Key, end: Key, i: nat)
    requires AllAllowed(ops, begin, end) && i <= |ops|
    ensures Fits(ops[..i])
  {
    forall j | 0 <= j < i && ops[j].Push?
      ensures |ops[j].vals| == |ops[j].keys| * ops[j].width
    {
      assert Allowed(ops[j], begin, end);
    }
  }

  // ---- from any table ----

  /** With keys that do not repeat, a push brings one block for each. */
  lemma {:induction false} BroughtOnce(keys: seq<Key>, vals: seq<Value>, width: nat, i: nat, n: nat)
    requires Increasing(keys) && i < |keys| && n <= |keys| && |vals| == |keys| * width
    ensures Brought(keys, vals, width, keys[i], n) == if i < n then [Share(keys, vals, width, i)] else []
  {
    hide Share;
    if n > 0 {
      BroughtOnce(keys, vals, width, i, n - 1);
    }
  }

  lemma InTurnOne(h: Handle, x: Key, e: Entry, b: seq<Value>)
    ensures PushedInTurn(h, x, e, [b]) == h.push(x, b, e)
  {
    assert [b][..0] == [];
  }

  /** From any table: a key that was pushed answers from its own new values and its old entry. */
  lemma PullSeesPush(h: Handle, m: Table, keys: seq<Key>, vals: seq<Value>, width: nat, i: nat)
    requires Increasing(keys) && i < |keys| && |vals| == |keys| * width
    ensures i * width <= (i + 1) * width <= |vals|
    ensures Reply(h, TableAfter(h, m, Push(keys, vals, width)), Pull([keys[i]])) ==
              h.pull(keys[i], h.push(keys[i], vals[i * width..(i + 1) * width], if keys[i] in m then m[keys[i]] else h.initial))
  {
    ShareInside(|keys|, width, i);
    var x := keys[i];
    BroughtOnce(keys, vals, width, i, |keys|);
    PushedEntry(h, m, keys, vals, width, x, |keys|);
    InTurnOne(h, x, EntryOf(h, m, x), vals[i * width..(i + 1) * width]);
    hide Pushed, PushedInTurn, Brought;
    OneKey(h, Pushed(h, m, keys, vals, width, 0, |keys|), x);
  }

  lemma OneKey(h: Handle, m: Table, x: Key)
    ensures AllAnswers(h, m, [x], 1) == h.pull(x, EntryOf(h, m, x))
  {
    AnsweredFrom(h, m, [x], 0);
    assert [] + h.pull(x, EntryOf(h, m, x)) == h.pull(x, EntryOf(h, m, x));
  }

  /** The same entry, read from the table. */
  lemma EntryAfterPush(h: Handle, m: Table, keys: seq<Key>, vals: seq<Value>, width: nat, i: nat)
    requires Increasing(keys) && i < |keys| && |vals| == |keys| * width
    ensures EntryOf(h, TableAfter(h, m, Push(keys, vals, width)), keys[i]) ==
              h.push(keys[i], Share(keys, vals, width, i), EntryOf(h, m, keys[i]))
  {
    hide Share;
    BroughtOnce(keys, vals, width, i, |keys|);
    PushedEntry(h, m, keys, vals, width, keys[i], |keys|);
    InTurnOne(h, keys[i], EntryOf(h, m, keys[i]), Share(keys, vals, width, i));
    hide Pushed, PushedInTurn, Brought;
  }

  /** Two pushes in a row: the second works on what the first left. */
  lemma PullSeesBoth(h: Handle, m: Table, keys: seq<Key>, vals: seq<Value>, width: nat, i: nat,
                     keys': seq<Key>, vals': seq<Value>, width': nat, j: nat)
    requires Increasing(keys) && i < |keys| && |vals| == |keys| * width
    requires Increasing(keys') && j < |keys'| && |vals'| == |keys'| * width' && keys'[j] == keys[i]
    ensures Reply(h, TableAfter(h, TableAfter(h, m, Push(keys, vals, width)), Push(keys', vals', width')), Pull([keys[i]])) ==
              h.pull(keys[i], h.push(keys[i], Share(keys', vals', width', j),
                                     h.push(keys[i], Share(keys, vals, width, i), if keys[i] in m then m[keys[i]] else h.initial)))
  {
    EntryAfterPush(h, m, keys, vals, width, i);
    hide Share;
    var m' := TableAfter(h, m, Push(keys, vals, width));
    EntryAfterPush(h, m', keys', vals', width', j);
    hide TableAfter;
    OneKey(h, TableAfter(h, m', Push(keys', vals', width')), keys[i]);
  }

  lemma RepliesFirst(h: Handle, m: Table, ops: seq<Op>, begin: Key, end: Key)
    requires AllAllowed(ops, begin, end) && ops != []
    ensures Allowed(ops[0], begin, end) && AllAllowed(ops[1..], begin, end)
    ensures Replies(h, m, ops, begin, end) == [Reply(h, m, ops[0])] + Replies(h, TableAfter(h, m, ops[0]), ops[1..], begin, end)
  {
    hide Reply, TableAfter, Allowed;
  }

  /** So in every run that pushes, pushes again and pulls: the last reply is of both pushes. */
  lemma RunSeesBoth(h: Handle, m: Table, p: Op, q: Op, i: nat, j: nat, begin: Key, end: Key)
    requires p.Push? && q.Push? && i < |p.keys| && j < |q.keys| && p.keys[i] == q.keys[j] && Increasing(p.keys) && Increasing(q.keys)
    requires AllAllowed([p, q, Pull([p.keys[i]])], begin, end) && Allowed(p, begin, end) && Allowed(q, begin, end)
    ensures Replies(h, m, [p, q, Pull([p.keys[i]])], begin, end) ==
              [[], [], h.pull(p.keys[i], h.push(p.keys[i], Share(q.keys, q.vals, q.width, j),
                                        h.push(p.keys[i], Share(p.keys, p.vals, p.width, i),
                                               if p.keys[i] in m then m[p.keys[i]] else h.initial)))]
  {
    var last := Pull([p.keys[i]]);
    var m' := TableAfter(h, m, p);
    PullSeesBoth(h, m, p.keys, p.vals, p.width, i, q.keys, q.vals, q.width, j);
    assert Reply(h, m, p) == [] && Reply(h, m', q) == [];
    hide TableAfter, Share, Reply;
    RepliesFirst(h, m, [p, q, last], begin, end);
    assert [p, q, last][1..] == [q, last];
    RepliesFirst(h, m', [q, last], begin, end);
    assert [q, last][1..] == [last];
    RepliesFirst(h, TableAfter(h, m', q), [last], begin, end);
  }

  lemma RunSeesPush(h: Handle, m: Table, p: Op, i: nat, begin: Key, end: Key)
    requires p.Push? && i < |p.keys| && Increasing(p.keys)
    requires AllAllowed([p, Pull([p.keys[i]])], begin, end) && Allowed(p, begin, end)
    ensures Replies(h, m, [p, Pull([p.keys[i]])], begin, end) ==
              [[], h.pull(p.keys[i], h.push(p.keys[i], Share(p.keys, p.vals, p.width, i),
                                        if p.keys[i] in m then m[p.keys[i]] else h.initial))]
  {
    var last := Pull([p.keys[i]]);
    PullSeesPush(h, m, p.keys, p.vals, p.width, i);
    assert Reply(h, m, p) == [];
    hide TableAfter, Reply;
    RepliesFirst(h, m, [p, last], begin, end);
    assert [p, last][1..] == [last];
    RepliesFirst(h, TableAfter(h, m, p), [last], begin, end);
  }

  /** What an operation does not name stays as it was; a pull changes no entry and creates the missing ones. */
  lemma OthersStay(h: Handle, m: Table, op: Op, x: Key)
    requires !op.Clear? && (op.Push? ==> |op.vals| == |op.keys| * op.width)
    ensures x !in op.keys ==> var t := TableAfter(h, m, op); (x in t <==> x in m) && (x in m ==> t[x] == m[x])
    ensures op.Pull? && x in op.keys ==> x in TableAfter(h, m, op) && TableAfter(h, m, op)[x] == if x in m then m[x] else h.initial
  {
    match op
    case Pull(keys) =>
      TouchedEntry(h, m, keys, x, |keys|);
      assert keys[..|keys|] == keys;
    case Push(keys, vals, width) =>
      if x !in keys {
        PushedSkip(h, m, keys, vals, width, 0, |keys|, x);
      }
  }
}
