/** KVStoreSparse: one bucket of keys per thread, simulating the single map. */
module KVStoreBuckets {
  import opened Sequences
  import opened Arithmetic
  import opened KVStore

  /** The bucket width: (end - begin - 1) / nt + 1. */
  function BucketSize(begin: Key, end: Key, nt: nat): (b: nat)
    requires begin < end && nt > 0
    ensures b > 0
  {
    (end - begin - 1) / nt + 1
  }

  /** GetValue: the bucket of a key. */
  function BucketOf(begin: Key, size: nat, x: Key): nat
    requires size > 0 && begin <= x
  {
    (x - begin) / size
  }

  lemma BucketInRange(begin: Key, end: Key, nt: nat, x: Key)
    requires begin <= x < end && nt > 0
    ensures BucketOf(begin, BucketSize(begin, end, nt), x) < nt
  {
    var l, size := end - begin - 1, BucketSize(begin, end, nt);
    Divided(l, nt);
    assert l < size * nt;
    QuotientBelow(x - begin, size, nt);
  }

  /** The width is the least with which the buckets cover the range, so they are as even as can be. */
  lemma BucketSizeLeast(begin: Key, end: Key, nt: nat, size: nat)
    requires begin < end && nt > 0
    ensures size * nt >= end - begin <==> size >= BucketSize(begin, end, nt)
  {
    var l, least := end - begin - 1, BucketSize(begin, end, nt);
    Divided(l, nt);
    if size >= least {
      Times(least, size, nt);
    } else {
      Times(size, least - 1, nt);
      assert l == l / nt * nt + l % nt;
    }
  }

  lemma Divided(l: nat, n: nat)
    requires n > 0
    ensures l < (l / n + 1) * n
  {
    assert l == l / n * n + l % n;
  }

  lemma QuotientBelow(d: nat, size: nat, t: nat)
    requires size > 0
    ensures d < size * t ==> d / size < t
    ensures d >= size * t ==> d / size >= t
  {
    var q := d / size;
    assert d == q * size + d % size;
    if q >= t {
      Times(t, q, size);
    } else {
      Times(q + 1, t, size);
      assert (q + 1) * size == q * size + size;
    }
  }

  /** The cut of sorted keys into one stretch per bucket: key i lies in stretch t exactly when GetValue looks in bucket t. */
  ghost predicate Cut(pos: seq<nat>, keys: seq<Key>, begin: Key, size: nat, nt: nat)
    requires size > 0
  {
    && |pos| == nt + 1 && pos[0] == 0 && pos[nt] == |keys|
    && (forall t: nat {:trigger pos[t]} :: t < nt ==> pos[t] <= pos[t + 1] <= |keys|)
    && (forall t: nat, i: nat {:trigger pos[t], keys[i]} :: t < nt && i < |keys| ==>
          begin <= keys[i] && (pos[t] <= i < pos[t + 1] <==> BucketOf(begin, size, keys[i]) == t))
  }

  lemma StretchInside(pos: seq<nat>, keys: seq<Key>, begin: Key, size: nat, nt: nat, tid: nat)
    requires size > 0 && Cut(pos, keys, begin, size, nt) && tid < nt
    ensures pos[tid] <= pos[tid + 1] <= |keys|
  {
  }

  /** The cuts found so far are where the keys reach the lower ends of the buckets. */
  ghost predicate CutSoFar(pos: seq<nat>, keys: seq<Key>, begin: Key, size: nat) {
    && pos != [] && pos[0] == 0
    && (forall u: nat {:trigger pos[u]} :: u < |pos| ==> pos[u] <= |keys|)
    && (forall u: nat {:trigger pos[u]} :: u < |pos| - 1 ==> pos[u] <= pos[u + 1])
    && (forall u: nat, i: nat {:trigger pos[u], keys[i]} :: u < |pos| && i < |keys| ==>
          begin <= keys[i] && (i < pos[u] <==> keys[i] < begin + size * u))
  }

  /** Searching only from the previous cut finds the cut of the whole sequence. */
  lemma NextCut(pos: seq<nat>, keys: seq<Key>, begin: Key, size: nat, p: nat)
    requires CutSoFar(pos, keys, begin, size)
    requires pos[|pos| - 1] <= p <= |keys|
    requires forall i :: pos[|pos| - 1] <= i < p ==> keys[i] < begin + size * |pos|
    requires forall i :: p <= i < |keys| ==> begin + size * |pos| <= keys[i]
    ensures CutSoFar(pos + [p], keys, begin, size)
  {
    var t := |pos|;
    NextBucket(size, t);
    var q := pos[t - 1];
    forall i: nat | i < |keys|
      ensures i < p <==> keys[i] < begin + size * t
    {
      assert i < q <==> keys[i] < begin + size * (t - 1);
    }
  }

  lemma NextBucket(size: nat, t: nat)
    requires t > 0
    ensures size * (t - 1) <= size * t
  {
  }

  /** Every stretch is a part of the keys. */
  ghost predicate InStretches(pos: seq<nat>, keys: seq<Key>) {
    pos != [] && forall t: nat {:trigger pos[t]} :: t < |pos| - 1 ==> pos[t] <= pos[t + 1] <= |keys|
  }

  lemma Stretches(pos: seq<nat>, keys: seq<Key>, begin: Key, size: nat, nt: nat)
    requires size > 0 && Cut(pos, keys, begin, size, nt)
    ensures InStretches(pos, keys)
  {
  }

  /** The threads not in todo have pushed their stretches, the others have not. */
  ghost predicate PartlyPushed(h: Handle, before: seq<Table>, after: seq<Table>, keys: seq<Key>, vals: seq<Value>, width: nat,
                               pos: seq<nat>, todo: set<nat>)
    requires |vals| == |keys| * width && InStretches(pos, keys)
  {
    && |before| == |after| == |pos| - 1
    && forall t: nat {:trigger after[t]} :: t < |after| ==>
         after[t] == if t in todo then before[t] else Pushed(h, before[t], keys, vals, width, pos[t], pos[t + 1])
  }

  lemma NonePushed(h: Handle, before: seq<Table>, keys: seq<Key>, vals: seq<Value>, width: nat, pos: seq<nat>)
    requires |vals| == |keys| * width && InStretches(pos, keys) && |before| == |pos| - 1
    ensures PartlyPushed(h, before, before, keys, vals, width, pos, Below(|before|))
  {
  }

  lemma OnePushed(h: Handle, before: seq<Table>, after: seq<Table>, keys: seq<Key>, vals: seq<Value>, width: nat,
                  pos: seq<nat>, todo: set<nat>, tid: nat)
    requires |vals| == |keys| * width && InStretches(pos, keys)
    requires PartlyPushed(h, before, after, keys, vals, width, pos, todo) && tid in todo && tid < |after|
    ensures pos[tid] <= pos[tid + 1] <= |keys|
    ensures var next := after[tid := Pushed(h, after[tid], keys, vals, width, pos[tid], pos[tid + 1])];
      PartlyPushed(h, before, next, keys, vals, width, pos, todo - {tid})
  {
    hide Pushed;
  }

  function Below(n: nat): (s: set<nat>)
    ensures forall t: nat :: t in s <==> t < n
  {
    if n == 0 then {} else Below(n - 1) + {n - 1}
  }

  class BucketStore {
    const handle: Handle
    const k: nat
    const nt: nat
    const begin: Key
    const end: Key
    const bucketSize: nat
    var data: seq<Table>
    var keyPos: seq<nat>

    /** As constructed, or cleared: then no bucket is left. */
    ghost predicate Built()
      reads this
    {
      && k > 0 && nt > 0 && begin < end && bucketSize == BucketSize(begin, end, nt)
      && (|data| == nt || data == []) && |keyPos| == nt + 1
    }

    ghost predicate Valid()
      reads this
    {
      Built() && |data| == nt
    }

    predicate InRange(x: Key) {
      begin <= x < end
    }

    /** The buckets together are the map m: each key of the range is looked up in its own bucket. */
    ghost predicate RepresentsIn(buckets: seq<Table>, m: Table)
      requires bucketSize > 0 && |buckets| == nt
    {
      && (forall x :: x in m ==> InRange(x))
      && (forall x, t: nat {:trigger x in buckets[t]} :: t < nt && x in buckets[t] ==>
            InRange(x) && BucketOf(begin, bucketSize, x) == t)
      && (forall x {:trigger InRange(x)} :: InRange(x) ==>
            BucketOf(begin, bucketSize, x) < nt && Agree(m, buckets[BucketOf(begin, bucketSize, x)], x))
    }

    ghost predicate Represents(m: Table)
      reads this
      requires Valid()
    {
      RepresentsIn(data, m)
    }

    constructor (handle: Handle, k: nat, nt: nat, begin: Key, end: Key)
      requires k > 0 && 0 < nt < 30 && begin < end
      ensures Valid() && this.handle == handle && this.k == k && this.begin == begin && this.end == end
      ensures Represents(map[])
    {
      this.handle, this.k, this.nt, this.begin, this.end := handle, k, nt, begin, end;
      bucketSize := BucketSize(begin, end, nt);
      data := seq(nt, i => map[]);
      keyPos := seq(nt + 1, i => 0);
      new;
      forall x | InRange(x)
        ensures BucketOf(this.begin, bucketSize, x) < nt
      {
        BucketInRange(begin, end, nt, x);
      }
    }

    /** SliceKey: where each bucket's stretch of the keys begins. */
    method SliceKey(keys: seq<Key>)
      requires Valid() && Sorted(keys) && forall i :: 0 <= i < |keys| ==> InRange(keys[i])
      modifies this`keyPos
      ensures Valid() && Cut(keyPos, keys, begin, bucketSize, nt)
    {
      hide Cut;
      var pos: seq<nat> := [0];
      for t := 1 to nt
        invariant |pos| == t && CutSoFar(pos, keys, begin, bucketSize)
      {
        var p := LowerBound(keys, pos[t - 1], |keys|, begin + bucketSize * t);
        NextCut(pos, keys, begin, bucketSize, p);
        pos := pos + [p];
      }
      keyPos := pos + [|keys|];
      CutHolds(keys, pos);
    }

    lemma CutHolds(keys: seq<Key>, pos: seq<nat>)
      requires Valid() && forall i :: 0 <= i < |keys| ==> InRange(keys[i])
      requires |pos| == nt && CutSoFar(pos, keys, begin, bucketSize)
      ensures Cut(pos + [|keys|], keys, begin, bucketSize, nt)
    {
      var all := pos + [|keys|];
      forall t: nat, i: nat {:trigger all[t], keys[i]} | t < nt && i < |keys|
        ensures begin <= keys[i]
        ensures all[t] <= i < all[t + 1] <==> BucketOf(begin, bucketSize, keys[i]) == t
      {
        var x := keys[i];
        assert InRange(x);
        BucketInRange(begin, end, nt, x);
        QuotientBelow(x - begin, bucketSize, t);
        QuotientBelow(x - begin, bucketSize, t + 1);
        assert all[t] == pos[t];
        if t + 1 < nt {
          assert all[t + 1] == pos[t + 1];
        }
      }
      assert forall t: nat {:trigger all[t]} :: t < nt ==> all[t] == pos[t];
    }

    /** ThreadPush: one thread pushes its stretch into its own bucket. */
    method ThreadPush(keys: seq<Key>, vals: seq<Value>, width: nat, tid: nat)
      requires Valid() && Cut(keyPos, keys, begin, bucketSize, nt) && |vals| == |keys| * width && tid < nt
      modifies this`data
      ensures Valid() && Cut(keyPos, keys, begin, bucketSize, nt)
      ensures data == old(data)[tid := Pushed(handle, old(data)[tid], keys, vals, width, keyPos[tid], keyPos[tid + 1])]
    {
      hide Cut, Pushed;
      StretchInside(keyPos, keys, begin, bucketSize, nt, tid);
      PushedNothing(handle, data[tid], keys, vals, width, keyPos[tid]);
      for i := keyPos[tid] to keyPos[tid + 1]
        invariant Valid()
        invariant data == old(data)[tid := Pushed(handle, old(data)[tid], keys, vals, width, keyPos[tid], i)]
      {
        BlockInside(|keys|, width, i);
        PushedOne(handle, old(data)[tid], keys, vals, width, keyPos[tid], i);
        var x, bucket := keys[i], data[tid];
        data := data[tid := bucket[x := handle.push(x, Block(vals, width, i), Lookup(handle, bucket, x))]];
      }
    }

    /** HandlePush with a constant number of values per key: cut the keys, then let the threads run in any order. */
    method PushAll(keys: seq<Key>, vals: seq<Value>, width: nat, ghost m: Table)
      requires Valid() && Represents(m) && |vals| == |keys| * width
      requires Sorted(keys) && forall i :: 0 <= i < |keys| ==> InRange(keys[i])
      modifies this
      ensures Valid() && Represents(Pushed(handle, m, keys, vals, width, 0, |keys|))
    {
      hide Cut, Pushed, RepresentsIn, PartlyPushed, InStretches;
      SliceKey(keys);
      ghost var before := data;
      Stretches(keyPos, keys, begin, bucketSize, nt);
      NonePushed(handle, before, keys, vals, width, keyPos);
      var todo: set<nat> := Below(nt);
      while todo != {}
        invariant Valid() && Cut(keyPos, keys, begin, bucketSize, nt) && forall t :: t in todo ==> t < nt
        invariant InStretches(keyPos, keys) && PartlyPushed(handle, before, data, keys, vals, width, keyPos, todo)
        decreases |todo|
      {
        var tid: nat :| tid in todo;
        OnePushed(handle, before, data, keys, vals, width, keyPos, todo, tid);
        ThreadPush(keys, vals, width, tid);
        todo := todo - {tid};
      }
      AllPushed(keys, vals, width, m, before);
    }

    lemma AllPushed(keys: seq<Key>, vals: seq<Value>, width: nat, m: Table, before: seq<Table>)
      requires Valid() && Cut(keyPos, keys, begin, bucketSize, nt) && |vals| == |keys| * width && |before| == nt
      requires forall i :: 0 <= i < |keys| ==> InRange(keys[i])
      requires InStretches(keyPos, keys) && RepresentsIn(before, m)
      requires PartlyPushed(handle, before, data, keys, vals, width, keyPos, {})
      ensures Represents(Pushed(handle, m, keys, vals, width, 0, |keys|))
    {
      hide Pushed, Agree, BucketOf, Cut, PartlyPushed, InStretches;
      var after := Pushed(handle, m, keys, vals, width, 0, |keys|);
      forall x | x in after
        ensures InRange(x)
      {
        PushedKeys(handle, m, keys, vals, width, 0, |keys|, x);
      }
      forall x, t: nat {:trigger x in data[t]} | t < nt && x in data[t]
        ensures InRange(x) && BucketOf(begin, bucketSize, x) == t
      {
        PushedInBucket(keys, vals, width, m, before, t, x);
      }
      forall x {:trigger InRange(x)} | InRange(x)
        ensures BucketOf(begin, bucketSize, x) < nt && Agree(after, data[BucketOf(begin, bucketSize, x)], x)
      {
        PushedAgrees(keys, vals, width, m, before, x);
      }
    }

    lemma PushedInBucket(keys: seq<Key>, vals: seq<Value>, width: nat, m: Table, before: seq<Table>, t: nat, x: Key)
      requires Valid() && Cut(keyPos, keys, begin, bucketSize, nt) && |vals| == |keys| * width && |before| == nt
      requires forall i :: 0 <= i < |keys| ==> InRange(keys[i])
      requires InStretches(keyPos, keys) && RepresentsIn(before, m)
      requires PartlyPushed(handle, before, data, keys, vals, width, keyPos, {}) && t < nt && x in data[t]
      ensures InRange(x) && BucketOf(begin, bucketSize, x) == t
    {
      hide Pushed, Agree, BucketOf;
      PushedKeys(handle, before[t], keys, vals, width, keyPos[t], keyPos[t + 1], x);
    }

    lemma PushedAgrees(keys: seq<Key>, vals: seq<Value>, width: nat, m: Table, before: seq<Table>, x: Key)
      requires Valid() && Cut(keyPos, keys, begin, bucketSize, nt) && |vals| == |keys| * width && |before| == nt
      requires InStretches(keyPos, keys) && RepresentsIn(before, m) && InRange(x)
      requires PartlyPushed(handle, before, data, keys, vals, width, keyPos, {})
      ensures BucketOf(begin, bucketSize, x) < nt
      ensures Agree(Pushed(handle, m, keys, vals, width, 0, |keys|), data[BucketOf(begin, bucketSize, x)], x)
    {
      hide Pushed, Agree, BucketOf;
      var t := BucketOf(begin, bucketSize, x);
      assert data[t] == Pushed(handle, before[t], keys, vals, width, keyPos[t], keyPos[t + 1]);
      PushedLocal(handle, m, before[t], keys, vals, width, keyPos[t], keyPos[t + 1], x);
    }

    /** ThreadPull: one thread answers its stretch from its own bucket; val has room for all answers. */
    method ThreadPull(keys: seq<Key>, val: array<Value>, tid: nat)
      requires Valid() && InStretches(keyPos, keys) && tid < nt && val.Length == |keys| * k
      requires forall x, e :: |handle.pull(x, e)| == k
      modifies this`data, val
      ensures Valid()
      ensures data == old(data)[tid := Touched(handle, old(data)[tid], keys, keyPos[tid], keyPos[tid + 1])]
      ensures Answered(handle, old(data)[tid], keys, old(val[..]), val[..], k, keyPos[tid], keyPos[tid + 1])
    {
      hide Touched, Lookup, Answered;
      ghost var bucket, before := data[tid], val[..];
      var lo, hi := keyPos[tid], keyPos[tid + 1];
      TouchedNothing(handle, bucket, keys, lo);
      NothingAnswered(handle, bucket, keys, before, k, lo);
      for i := lo to hi
        invariant Valid() && keyPos == old(keyPos)
        invariant data == old(data)[tid := Touched(handle, bucket, keys, lo, i)]
        invariant Answered(handle, bucket, keys, before, val[..], k, lo, i)
      {
        BlockInside(|keys|, k, i);
        TouchedKeepsLookup(handle, bucket, keys, lo, i, keys[i]);
        TouchedOne(handle, bucket, keys, lo, i);
        var pull := handle.pull(keys[i], Lookup(handle, data[tid], keys[i]));
        data := data[tid := data[tid][keys[i] := Lookup(handle, data[tid], keys[i])]];
        OneAnswered(handle, bucket, keys, before, val[..], k, lo, i);
        PutBlock(val, i, pull, k);
      }
    }

    /** HandlePull with a constant number of values per key: the answers are those of the single map, and the missing
        entries are created, whatever the order in which the threads run. */
    method PullAll(keys: seq<Key>, ghost m: Table) returns (val: array<Value>)
      requires Valid() && Represents(m)
      requires Sorted(keys) && forall i :: 0 <= i < |keys| ==> InRange(keys[i])
      requires forall x, e :: |handle.pull(x, e)| == k
      modifies this
      ensures Valid() && Represents(Touched(handle, m, keys, 0, |keys|))
      ensures val.Length == |keys| * k && Pulled(handle, m, keys, val[..], k, 0, |keys|)
    {
      hide Cut, Touched, RepresentsIn, PartlyPulled, InStretches, Answered, Pulled;
      SliceKey(keys);
      val := new Value[|keys| * k](i => 0.0);
      ghost var before, blank := data, val[..];
      Stretches(keyPos, keys, begin, bucketSize, nt);
      NonePulled(handle, before, blank, keys, k, keyPos);
      var todo: set<nat> := Below(nt);
      while todo != {}
        invariant Valid() && Cut(keyPos, keys, begin, bucketSize, nt) && forall t :: t in todo ==> t < nt
        invariant val.Length == |keys| * k && InStretches(keyPos, keys)
        invariant PartlyPulled(handle, before, data, blank, val[..], keys, k, keyPos, todo)
        decreases |todo|
      {
        var tid: nat :| tid in todo;
        ghost var data0, val0 := data, val[..];
        StretchIs(keyPos, keys, tid);
        ThreadPull(keys, val, tid);
        OnePulled(handle, before, data0, data, blank, val0, val[..], keys, k, keyPos, todo, tid);
        todo := todo - {tid};
      }
      AllPulled(keys, m, before, blank, val[..]);
    }

    lemma AllPulled(keys: seq<Key>, m: Table, before: seq<Table>, blank: seq<Value>, vals: seq<Value>)
      requires Valid() && Cut(keyPos, keys, begin, bucketSize, nt) && |before| == nt && |vals| == |keys| * k
      requires forall i :: 0 <= i < |keys| ==> InRange(keys[i])
      requires InStretches(keyPos, keys) && RepresentsIn(before, m)
      requires PartlyPulled(handle, before, data, blank, vals, keys, k, keyPos, {})
      ensures Represents(Touched(handle, m, keys, 0, |keys|))
      ensures Pulled(handle, m, keys, vals, k, 0, |keys|)
    {
      hide Touched, Block, Lookup;
      AllTouched(keys, m, before);
      AllAnswered(keys, m, before, blank, vals);
      hide RepresentsIn, Cut, Valid;
    }

    lemma AllAnswered(keys: seq<Key>, m: Table, before: seq<Table>, blank: seq<Value>, vals: seq<Value>)
      requires Valid() && Cut(keyPos, keys, begin, bucketSize, nt) && |before| == nt && |vals| == |keys| * k
      requires forall i :: 0 <= i < |keys| ==> InRange(keys[i])
      requires InStretches(keyPos, keys) && RepresentsIn(before, m)
      requires PartlyPulled(handle, before, data, blank, vals, keys, k, keyPos, {})
      ensures Pulled(handle, m, keys, vals, k, 0, |keys|)
    {
      hide Touched, Block, Lookup, RepresentsIn, Cut, PartlyPulled, InStretches;
      forall i: nat {:trigger keys[i]} | i < |keys|
        ensures (i + 1) * k <= |vals| && Block(vals, k, i) == handle.pull(keys[i], Lookup(handle, m, keys[i]))
      {
        BlockInside(|keys|, k, i);
        AnswerIs(keys, m, before, blank, vals, i);
      }
    }

    lemma AnswerIs(keys: seq<Key>, m: Table, before: seq<Table>, blank: seq<Value>, vals: seq<Value>, i: nat)
      requires Valid() && Cut(keyPos, keys, begin, bucketSize, nt) && |before| == nt && |vals| == |keys| * k
      requires i < |keys| && InRange(keys[i]) && (i + 1) * k <= |vals|
      requires InStretches(keyPos, keys) && RepresentsIn(before, m)
      requires PartlyPulled(handle, before, data, blank, vals, keys, k, keyPos, {})
      ensures Block(vals, k, i) == handle.pull(keys[i], Lookup(handle, m, keys[i]))
    {
      hide Touched, Block;
      var x := keys[i];
      var t := BucketOf(begin, bucketSize, x);
      assert keyPos[t] <= i < keyPos[t + 1];
      assert Agree(m, before[t], x);
      assert Answer(handle, before, blank, vals, keys, k, keyPos, {}, t, i);
    }

    lemma AllTouched(keys: seq<Key>, m: Table, before: seq<Table>)
      requires Valid() && Cut(keyPos, keys, begin, bucketSize, nt) && |before| == nt
      requires forall i :: 0 <= i < |keys| ==> InRange(keys[i])
      requires InStretches(keyPos, keys) && RepresentsIn(before, m)
      requires forall t: nat {:trigger data[t]} :: t < nt ==> data[t] == Touched(handle, before[t], keys, keyPos[t], keyPos[t + 1])
      ensures Represents(Touched(handle, m, keys, 0, |keys|))
    {
      hide Touched, BucketOf, Agree;
      var after := Touched(handle, m, keys, 0, |keys|);
      forall x | x in after
        ensures InRange(x)
      {
        TouchedKeepsLookup(handle, m, keys, 0, |keys|, x);
      }
      forall x, t: nat {:trigger x in data[t]} | t < nt && x in data[t]
        ensures InRange(x) && BucketOf(begin, bucketSize, x) == t
      {
        TouchedKeepsLookup(handle, before[t], keys, keyPos[t], keyPos[t + 1], x);
      }
      forall x {:trigger InRange(x)} | InRange(x)
        ensures BucketOf(begin, bucketSize, x) < nt && Agree(after, data[BucketOf(begin, bucketSize, x)], x)
      {
        TouchedAgrees(keys, m, before, x);
      }
    }

    lemma TouchedAgrees(keys: seq<Key>, m: Table, before: seq<Table>, x: Key)
      requires Valid() && Cut(keyPos, keys, begin, bucketSize, nt) && |before| == nt && InRange(x)
      requires InStretches(keyPos, keys) && RepresentsIn(before, m)
      requires forall t: nat {:trigger data[t]} :: t < nt ==> data[t] == Touched(handle, before[t], keys, keyPos[t], keyPos[t + 1])
      ensures BucketOf(begin, bucketSize, x) < nt
      ensures Agree(Touched(handle, m, keys, 0, |keys|), data[BucketOf(begin, bucketSize, x)], x)
    {
      hide Touched, BucketOf, Cut, Occurs, InStretches;
      var t := BucketOf(begin, bucketSize, x);
      assert Agree(m, before[t], x);
      StretchInside(keyPos, keys, begin, bucketSize, nt, t);
      assert data[t] == Touched(handle, before[t], keys, keyPos[t], keyPos[t + 1]);
      TouchedKeepsLookup(handle, m, keys, 0, |keys|, x);
      TouchedKeepsLookup(handle, before[t], keys, keyPos[t], keyPos[t + 1], x);
      OccursInStretch(keys, x, t);
      hide RepresentsIn;
    }

    /** A key occurs only in the stretch of its bucket. */
    lemma OccursInStretch(keys: seq<Key>, x: Key, t: nat)
      requires Valid() && Cut(keyPos, keys, begin, bucketSize, nt) && InRange(x) && t < nt && BucketOf(begin, bucketSize, x) == t
      requires InStretches(keyPos, keys) && keyPos[t + 1] <= |keys|
      ensures Occurs(keys, 0, |keys|, x) <==> Occurs(keys, keyPos[t], keyPos[t + 1], x)
    {
    }

    /**
     * HandlePush with a constant number of values per key. Not ok: a thread reads a
     * bucket that is not there, which is so exactly when the store was cleared and
     * there are keys.
     */
    method HandlePush(keys: seq<Key>, vals: seq<Value>, width: nat, ghost m: Table) returns (ok: bool)
      requires Built() && (Valid() ==> Represents(m)) && |vals| == |keys| * width
      requires Sorted(keys) && forall i :: 0 <= i < |keys| ==> InRange(keys[i])
      modifies this
      ensures Built() && (Valid() <==> old(Valid()))
      ensures ok <==> keys == [] || old(Valid())
      ensures Valid() ==> Represents(Pushed(handle, m, keys, vals, width, 0, |keys|))
    {
      hide RepresentsIn, Pushed;
      if keys == [] {
        PushedNothing(handle, m, keys, vals, width, 0);
        return true;
      }
      if |data| < nt {
        return false;
      }
      PushAll(keys, vals, width, m);
      ok := true;
    }

    /** HandlePull with k values per key. Every thread reads its bucket, keys or not: not ok exactly after a Clear. */
    method HandlePull(keys: seq<Key>, ghost m: Table) returns (ok: bool, val: array<Value>)
      requires Built() && (Valid() ==> Represents(m))
      requires Sorted(keys) && forall i :: 0 <= i < |keys| ==> InRange(keys[i])
      requires forall x, e :: |handle.pull(x, e)| == k
      modifies this
      ensures Built() && (Valid() <==> old(Valid()))
      ensures ok <==> old(Valid())
      ensures ok ==> Represents(Touched(handle, m, keys, 0, |keys|))
      ensures ok ==> val.Length == |keys| * k && Pulled(handle, m, keys, val[..], k, 0, |keys|)
    {
      hide RepresentsIn, Touched, Pulled;
      if |data| < nt {
        return false, new Value[0];
      }
      val := PullAll(keys, m);
      ok := true;
    }

    /** Clear empties the vector of buckets itself, not the buckets. */
    method Clear()
      requires Built()
      modifies this`data
      ensures Built() && !Valid()
    {
      data := [];
    }
  }

  lemma PushedNothing(h: Handle, m: Table, keys: seq<Key>, vals: seq<Value>, k: nat, lo: nat)
    requires lo <= |keys| && |vals| == |keys| * k
    ensures Pushed(h, m, keys, vals, k, lo, lo) == m
  {
  }

  lemma PushedOne(h: Handle, m: Table, keys: seq<Key>, vals: seq<Value>, k: nat, lo: nat, i: nat)
    requires lo <= i < |keys| && |vals| == |keys| * k && (i + 1) * k <= |vals|
    ensures var before := Pushed(h, m, keys, vals, k, lo, i);
      Pushed(h, m, keys, vals, k, lo, i + 1) == before[keys[i] := h.push(keys[i], Block(vals, k, i), Lookup(h, before, keys[i]))]
  {
  }

  lemma TouchedNothing(h: Handle, m: Table, keys: seq<Key>, lo: nat)
    requires lo <= |keys|
    ensures Touched(h, m, keys, lo, lo) == m
  {
  }

  lemma TouchedOne(h: Handle, m: Table, keys: seq<Key>, lo: nat, i: nat)
    requires lo <= i < |keys|
    ensures var before := Touched(h, m, keys, lo, i);
      Touched(h, m, keys, lo, i + 1) == before[keys[i] := Lookup(h, before, keys[i])]
  {
  }

  /** s with block i replaced by b. */
  ghost function WithBlock(s: seq<Value>, k: nat, i: nat, b: seq<Value>): seq<Value>
    requires (i + 1) * k <= |s| && |b| == k
  {
    Times(i, i + 1, k);
    s[..i * k] + b + s[(i + 1) * k..]
  }

  lemma BlocksOf(s: seq<Value>, k: nat, i: nat, b: seq<Value>, j: nat)
    requires (i + 1) * k <= |s| && |b| == k && (j + 1) * k <= |s|
    ensures |WithBlock(s, k, i, b)| == |s|
    ensures Block(WithBlock(s, k, i, b), k, j) == if j == i then b else Block(s, k, j)
  {
    hide Block, WithBlock;
    if j == i {
      BlockSame(s, k, i, b);
    } else if j < i {
      BlockBefore(s, k, i, b, j);
    } else {
      BlockAfter(s, k, i, b, j);
    }
  }

  lemma BlockSame(s: seq<Value>, k: nat, i: nat, b: seq<Value>)
    requires (i + 1) * k <= |s| && |b| == k
    ensures |WithBlock(s, k, i, b)| == |s|
    ensures Block(WithBlock(s, k, i, b), k, i) == b
  {
    Next(i, k);
  }

  lemma BlockBefore(s: seq<Value>, k: nat, i: nat, b: seq<Value>, j: nat)
    requires (i + 1) * k <= |s| && |b| == k && j < i && (j + 1) * k <= |s|
    ensures |WithBlock(s, k, i, b)| == |s|
    ensures Block(WithBlock(s, k, i, b), k, j) == Block(s, k, j)
  {
    Next(i, k);
    Next(j, k);
    Times(j + 1, i, k);
  }

  lemma BlockAfter(s: seq<Value>, k: nat, i: nat, b: seq<Value>, j: nat)
    requires (i + 1) * k <= |s| && |b| == k && i < j && (j + 1) * k <= |s|
    ensures |WithBlock(s, k, i, b)| == |s|
    ensures Block(WithBlock(s, k, i, b), k, j) == Block(s, k, j)
  {
    Next(i, k);
    Next(j, k);
    Times(i + 1, j, k);
  }

  lemma Next(i: nat, k: nat)
    ensures (i + 1) * k == i * k + k
  {
  }

  /** Writes the k values of position i. */
  method PutBlock(val: array<Value>, i: nat, pull: seq<Value>, k: nat)
    requires (i + 1) * k <= val.Length && |pull| == k
    modifies val
    ensures val[..] == WithBlock(old(val[..]), k, i, pull)
  {
    var base := i * k;
    assert (i + 1) * k == base + k;
    forall c | 0 <= c < k {
      val[base + c] := pull[c];
    }
  }

  /** The positions lo .. hi-1 hold the answers of the map, all others are as before. */
  ghost predicate Answered(h: Handle, m: Table, keys: seq<Key>, before: seq<Value>, after: seq<Value>, k: nat, lo: nat, hi: nat)
    requires lo <= hi <= |keys|
  {
    && |before| == |after| == |keys| * k
    && forall j: nat :: j < |keys| ==> AnsweredHere(h, m, keys, before, after, k, lo, hi, j)
  }

  ghost predicate AnsweredHere(h: Handle, m: Table, keys: seq<Key>, before: seq<Value>, after: seq<Value>, k: nat,
                               lo: nat, hi: nat, j: nat)
    requires |before| == |after| == |keys| * k && j < |keys|
  {
    BlockInside(|keys|, k, j);
    Block(after, k, j) == if lo <= j < hi then h.pull(keys[j], Lookup(h, m, keys[j])) else Block(before, k, j)
  }

  lemma AnsweredAt(h: Handle, m: Table, keys: seq<Key>, before: seq<Value>, after: seq<Value>, k: nat, lo: nat, hi: nat, j: nat)
    requires lo <= hi <= |keys| && j < |keys| && Answered(h, m, keys, before, after, k, lo, hi)
    ensures (j + 1) * k <= |keys| * k == |before| == |after|
    ensures Block(after, k, j) == if lo <= j < hi then h.pull(keys[j], Lookup(h, m, keys[j])) else Block(before, k, j)
  {
    hide Block, Lookup;
    assert AnsweredHere(h, m, keys, before, after, k, lo, hi, j);
    BlockInside(|keys|, k, j);
  }

  lemma NothingAnswered(h: Handle, m: Table, keys: seq<Key>, before: seq<Value>, k: nat, lo: nat)
    requires lo <= |keys| && |before| == |keys| * k
    ensures Answered(h, m, keys, before, before, k, lo, lo)
  {
  }

  lemma OneAnswered(h: Handle, m: Table, keys: seq<Key>, before: seq<Value>, mid: seq<Value>, k: nat, lo: nat, i: nat)
    requires lo <= i < |keys| && Answered(h, m, keys, before, mid, k, lo, i) && (i + 1) * k <= |mid|
    requires |h.pull(keys[i], Lookup(h, m, keys[i]))| == k
    ensures Answered(h, m, keys, before, WithBlock(mid, k, i, h.pull(keys[i], Lookup(h, m, keys[i]))), k, lo, i + 1)
  {
    assert |before| == |mid| == |keys| * k;
    hide Block, Lookup, WithBlock;
    var b := h.pull(keys[i], Lookup(h, m, keys[i]));
    BlocksOf(mid, k, i, b, i);
    var after, hi := WithBlock(mid, k, i, b), i + 1;
    forall j: nat | j < |keys|
      ensures AnsweredHere(h, m, keys, before, after, k, lo, hi, j)
    {
      AnsweredAt(h, m, keys, before, mid, k, lo, i, j);
      BlocksOf(mid, k, i, b, j);
    }
  }

  lemma StretchIs(pos: seq<nat>, keys: seq<Key>, t: nat)
    requires InStretches(pos, keys) && t < |pos| - 1
    ensures pos[t] <= pos[t + 1] <= |keys|
  {
  }

  /** Position i of stretch t: answered from bucket t unless thread t has not run. */
  ghost predicate Answer(h: Handle, before: seq<Table>, blank: seq<Value>, vals: seq<Value>, keys: seq<Key>, k: nat,
                         pos: seq<nat>, todo: set<nat>, t: nat, i: nat)
    requires InStretches(pos, keys) && |before| == |pos| - 1 && t < |before| && i < |keys|
  {
    pos[t] <= i < pos[t + 1] ==>
      && (i + 1) * k <= |vals| && (i + 1) * k <= |blank|
      && Block(vals, k, i) == if t in todo then Block(blank, k, i) else h.pull(keys[i], Lookup(h, before[t], keys[i]))
  }

  ghost predicate PartlyPulled(h: Handle, before: seq<Table>, after: seq<Table>, blank: seq<Value>, vals: seq<Value>,
                               keys: seq<Key>, k: nat, pos: seq<nat>, todo: set<nat>)
    requires InStretches(pos, keys)
  {
    && |before| == |after| == |pos| - 1 && |blank| == |vals| == |keys| * k
    && (forall t: nat {:trigger after[t]} :: t < |after| ==>
          after[t] == if t in todo then before[t] else Touched(h, before[t], keys, pos[t], pos[t + 1]))
    && (forall t: nat, i: nat :: t < |before| && i < |keys| ==> Answer(h, before, blank, vals, keys, k, pos, todo, t, i))
  }

  lemma NonePulled(h: Handle, before: seq<Table>, blank: seq<Value>, keys: seq<Key>, k: nat, pos: seq<nat>)
    requires InStretches(pos, keys) && |before| == |pos| - 1 && |blank| == |keys| * k
    ensures PartlyPulled(h, before, before, blank, blank, keys, k, pos, Below(|before|))
  {
    forall t: nat, i: nat | t < |before| && i < |keys|
      ensures Answer(h, before, blank, blank, keys, k, pos, Below(|before|), t, i)
    {
      BlockInside(|keys|, k, i);
    }
  }

  lemma OnePulled(h: Handle, before: seq<Table>, mid: seq<Table>, after: seq<Table>, blank: seq<Value>, vals: seq<Value>,
                  vals': seq<Value>, keys: seq<Key>, k: nat, pos: seq<nat>, todo: set<nat>, tid: nat)
    requires InStretches(pos, keys) && PartlyPulled(h, before, mid, blank, vals, keys, k, pos, todo)
    requires tid in todo && tid < |mid| && after == mid[tid := Touched(h, mid[tid], keys, pos[tid], pos[tid + 1])]
    requires Answered(h, mid[tid], keys, vals, vals', k, pos[tid], pos[tid + 1])
    ensures PartlyPulled(h, before, after, blank, vals', keys, k, pos, todo - {tid})
  {
    assert |vals'| == |keys| * k;
    hide Touched, Block, Answered, Answer;
    assert mid[tid] == before[tid];
    forall t: nat, i: nat | t < |before| && i < |keys|
      ensures Answer(h, before, blank, vals', keys, k, pos, todo - {tid}, t, i)
    {
      assert Answer(h, before, blank, vals, keys, k, pos, todo, t, i);
      AnswerKept(h, before, blank, vals, vals', keys, k, pos, todo, tid, t, i);
    }
  }

  lemma AnswerKept(h: Handle, before: seq<Table>, blank: seq<Value>, vals: seq<Value>, vals': seq<Value>, keys: seq<Key>,
                   k: nat, pos: seq<nat>, todo: set<nat>, tid: nat, t: nat, i: nat)
    requires InStretches(pos, keys) && |before| == |pos| - 1 && t < |before| && i < |keys| && tid in todo && tid < |before|
    requires Answer(h, before, blank, vals, keys, k, pos, todo, t, i)
    requires Answered(h, before[tid], keys, vals, vals', k, pos[tid], pos[tid + 1])
    ensures Answer(h, before, blank, vals', keys, k, pos, todo - {tid}, t, i)
  {
    hide Block, Lookup, Answered;
    AnsweredAt(h, before[tid], keys, vals, vals', k, pos[tid], pos[tid + 1], i);
    if pos[t] <= i < pos[t + 1] && t != tid {
      Apart(pos, keys, t, tid, i);
    }
  }

  /** A position lies in one stretch only. */
  lemma {:induction false} Apart(pos: seq<nat>, keys: seq<Key>, t: nat, u: nat, i: nat)
    requires InStretches(pos, keys) && t < |pos| - 1 && u < |pos| - 1 && t != u && pos[t] <= i < pos[t + 1]
    ensures !(pos[u] <= i < pos[u + 1])
  {
    if t < u {
      Ascending(pos, keys, t + 1, u);
    } else {
      Ascending(pos, keys, u + 1, t);
    }
  }

  lemma {:induction false} Ascending(pos: seq<nat>, keys: seq<Key>, t: nat, u: nat)
    requires InStretches(pos, keys) && t <= u < |pos|
    ensures pos[t] <= pos[u]
    decreases u - t
  {
    if t < u {
      Ascending(pos, keys, t, u - 1);
      assert pos[u - 1] <= pos[u - 1 + 1];
    }
  }
}
