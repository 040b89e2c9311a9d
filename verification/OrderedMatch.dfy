/** ParallelOrderedMatch: merging key-value pairs into sorted destination keys by recursive fork-join. */
module OrderedMatch {
  import opened Arithmetic
  import opened Sequences

  type Key = nat

  /** right op= left, for whichever of the assignment operators was chosen: op(right, left). */
  type AsOp<!V> = (V, V) -> V

  /** The position of x, or |keys|. */
  ghost function IndexOf(keys: seq<Key>, x: Key): (i: nat)
    ensures i <= |keys|
    ensures i < |keys| ==> keys[i] == x
    ensures i == |keys| ==> x !in keys
  {
    if keys == [] then 0 else if keys[0] == x then 0 else 1 + IndexOf(keys[1..], x)
  }

  lemma IndexOfUnique(keys: seq<Key>, i: nat)
    requires Increasing(keys) && i < |keys|
    ensures IndexOf(keys, keys[i]) == i
  {
    assert keys[i] in keys;
  }

  /** The place of component c of entry j when entries have k components. */
  function Slot(j: nat, k: nat, c: nat): nat {
    j * k + c
  }

  lemma SlotOrder(j: nat, j': nat, k: nat, c: nat)
    requires j < j' && c < k
    ensures Slot(j, k, c) < j' * k && j * k + k <= j' * k
  {
    Times(j + 1, j', k);
    assert (j + 1) * k == j * k + k;
  }

  lemma SlotInside(j: nat, n: nat, k: nat, c: nat, size: nat)
    requires j < n && c < k && size == n * k
    ensures Slot(j, k, c) < size
  {
    SlotOrder(j, n, k, c);
  }

  /** What component c of destination entry j becomes. */
  ghost function Merged<V>(srcKey: seq<Key>, srcVal: seq<V>, key: Key, k: nat, op: AsOp<V>, old_v: V, c: nat): V
    requires c < k && |srcVal| == |srcKey| * k
  {
    var i := IndexOf(srcKey, key);
    if i < |srcKey| then
      SlotInside(i, |srcKey|, k, c, |srcVal|);
      op(old_v, srcVal[Slot(i, k, c)])
    else old_v
  }

  /** Entries lo .. hi-1 of the destination have been merged, all others are as they were. */
  ghost predicate MergedRange<V>(srcKey: seq<Key>, srcVal: seq<V>, dstKey: seq<Key>, k: nat, op: AsOp<V>,
                              before: seq<V>, after: seq<V>, lo: nat, hi: nat)
    requires |srcVal| == |srcKey| * k && |before| == |after| == |dstKey| * k && lo <= hi <= |dstKey|
  {
    forall j: nat, c: nat {:trigger Slot(j, k, c)} :: j < |dstKey| && c < k ==>
      var p := Slot(j, k, c);
      SlotInside(j, |dstKey|, k, c, |before|);
      after[p] == if lo <= j < hi then Merged(srcKey, srcVal, dstKey[j], k, op, before[p], c) else before[p]
  }

  /** How many of dstKey[lo..hi] are source keys. */
  ghost function Common(srcKey: seq<Key>, dstKey: seq<Key>, lo: nat, hi: nat): nat
    requires lo <= hi <= |dstKey|
    decreases hi - lo
  {
    if lo == hi then 0 else Common(srcKey, dstKey, lo, hi - 1) + (if dstKey[hi - 1] in srcKey then 1 else 0)
  }

  lemma {:induction false} CommonSplit(srcKey: seq<Key>, dstKey: seq<Key>, lo: nat, mid: nat, hi: nat)
    requires lo <= mid <= hi <= |dstKey|
    ensures Common(srcKey, dstKey, lo, hi) == Common(srcKey, dstKey, lo, mid) + Common(srcKey, dstKey, mid, hi)
    decreases hi - mid
  {
    if mid < hi {
      CommonSplit(srcKey, dstKey, lo, mid, hi - 1);
    }
  }

  lemma CommonStep(srcKey: seq<Key>, dstKey: seq<Key>, lo: nat, d: nat, k: nat)
    requires lo <= d <= |dstKey|
    ensures lo == d ==> k * Common(srcKey, dstKey, lo, d) == 0
    ensures d < |dstKey| ==>
              k * Common(srcKey, dstKey, lo, d + 1) ==
                k * Common(srcKey, dstKey, lo, d) + (if dstKey[d] in srcKey then k else 0)
  {
    if d < |dstKey| {
      Distribute(k, Common(srcKey, dstKey, lo, d), if dstKey[d] in srcKey then 1 else 0);
    }
  }

  lemma Distribute(k: nat, a: nat, b: nat)
    ensures k * (a + b) == k * a + k * b
  {
  }

  /** Entry j is combined with source entry i, component by component; all other entries stay. */
  ghost predicate Combined<V>(before: seq<V>, after: seq<V>, j: nat, srcVal: seq<V>, i: nat, k: nat, op: AsOp<V>) {
    && |after| == |before|
    && (forall c: nat {:trigger Slot(j, k, c)} :: c < k ==>
          Slot(j, k, c) < |before| && Slot(i, k, c) < |srcVal| &&
          after[Slot(j, k, c)] == op(before[Slot(j, k, c)], srcVal[Slot(i, k, c)]))
    && (forall p: nat :: p < |before| && !(j * k <= p < j * k + k) ==> after[p] == before[p])
  }

  /** One matched entry: k components are combined. */
  method MergeEntry<V>(dstVal: array<V>, j: nat, srcVal: seq<V>, i: nat, k: nat, op: AsOp<V>,
                    ghost nsrc: nat, ghost ndst: nat)
    requires i < nsrc && j < ndst && |srcVal| == nsrc * k && dstVal.Length == ndst * k
    modifies dstVal
    ensures Combined(old(dstVal[..]), dstVal[..], j, srcVal, i, k, op)
  {
    SlotOrderAll(i, nsrc, k);
    SlotOrderAll(j, ndst, k);
    var c := 0;
    while c < k
      invariant c <= k
      invariant forall p: nat :: p < dstVal.Length && !(j * k <= p < j * k + c) ==> dstVal[p] == old(dstVal[p])
      invariant forall b: nat {:trigger Slot(j, k, b)} :: b < c ==>
                  dstVal[Slot(j, k, b)] == op(old(dstVal[Slot(j, k, b)]), srcVal[Slot(i, k, b)])
    {
      dstVal[Slot(j, k, c)] := op(dstVal[Slot(j, k, c)], srcVal[Slot(i, k, c)]);
      c := c + 1;
    }
  }

  lemma SlotOrderAll(j: nat, n: nat, k: nat)
    requires j < n
    ensures j * k + k <= n * k
    ensures forall c: nat {:trigger Slot(j, k, c)} :: c < k ==> Slot(j, k, c) < n * k
  {
    if k > 0 {
      SlotOrder(j, n, k, 0);
    }
  }

  /** No source key before position s0 can match a destination key from d0 on. */
  ghost predicate Skipped(srcKey: seq<Key>, s0: nat, dstKey: seq<Key>, d0: nat)
    requires s0 <= |srcKey| && d0 <= |dstKey|
  {
    forall i, j :: 0 <= i < s0 && d0 <= j < |dstKey| ==> srcKey[i] < dstKey[j]
  }

  /** The leaf: a merge walk over source keys from s0 on and destination entries d0 .. d1-1. */
  method MergeWalk<V>(srcKey: seq<Key>, srcVal: seq<V>, s0: nat, dstKey: seq<Key>, d0: nat, d1: nat,
                   dstVal: array<V>, k: nat, op: AsOp<V>) returns (n: nat)
    requires Increasing(srcKey) && Increasing(dstKey)
    requires |srcVal| == |srcKey| * k && dstVal.Length == |dstKey| * k
    requires s0 <= |srcKey| && d0 <= d1 <= |dstKey| && Skipped(srcKey, s0, dstKey, d0)
    modifies dstVal
    ensures MergedRange(srcKey, srcVal, dstKey, k, op, old(dstVal[..]), dstVal[..], d0, d1)
    ensures n == k * Common(srcKey, dstKey, d0, d1)
  {
    hide MergedRange, Slot, IndexOf, Common, Combined;
    CommonStep(srcKey, dstKey, d0, d0, k);
    var s, d := s0, d0;
    n := 0;
    ghost var before := dstVal[..];
    MergedNothing(srcKey, srcVal, dstKey, k, op, before, d0);
    while d != d1 && s != |srcKey|
      invariant 0 <= s <= |srcKey| && d0 <= d <= d1 && Skipped(srcKey, s, dstKey, d)
      invariant MergedRange(srcKey, srcVal, dstKey, k, op, before, dstVal[..], d0, d)
      invariant n == k * Common(srcKey, dstKey, d0, d)
      decreases |srcKey| - s + d1 - d
    {
      CommonStep(srcKey, dstKey, d0, d, k);
      if srcKey[s] < dstKey[d] {
        s := s + 1;
      } else {
        if dstKey[d] == srcKey[s] {
          ghost var mid := dstVal[..];
          IndexOfUnique(srcKey, s);
          MergeEntry(dstVal, d, srcVal, s, k, op, |srcKey|, |dstKey|);
          MatchedEntry(srcKey, srcVal, dstKey, k, op, before, mid, dstVal[..], d0, d, s);
          s := s + 1;
          n := n + k;
        } else {
          UnmatchedEntries(srcKey, srcVal, dstKey, k, op, before, dstVal[..], d0, d, d + 1, s);
        }
        d := d + 1;
      }
    }
    if d != d1 {
      UnmatchedEntries(srcKey, srcVal, dstKey, k, op, before, dstVal[..], d0, d, d1, s);
      NoneCommon(srcKey, dstKey, d, d1);
      CommonSplit(srcKey, dstKey, d0, d, d1);
      assert Common(srcKey, dstKey, d0, d1) == Common(srcKey, dstKey, d0, d);
    }
  }

  lemma MatchedEntry<V>(srcKey: seq<Key>, srcVal: seq<V>, dstKey: seq<Key>, k: nat, op: AsOp<V>,
                     before: seq<V>, mid: seq<V>, after: seq<V>, lo: nat, d: nat, s: nat)
    requires |srcVal| == |srcKey| * k && |before| == |mid| == |after| == |dstKey| * k
    requires lo <= d < |dstKey| && s < |srcKey| && IndexOf(srcKey, dstKey[d]) == s
    requires MergedRange(srcKey, srcVal, dstKey, k, op, before, mid, lo, d)
    requires Combined(mid, after, d, srcVal, s, k, op)
    ensures MergedRange(srcKey, srcVal, dstKey, k, op, before, after, lo, d + 1)
  {
    forall j: nat, c: nat | j < |dstKey| && c < k
      ensures Slot(j, k, c) < |before|
      ensures after[Slot(j, k, c)] == if lo <= j < d + 1 then Merged(srcKey, srcVal, dstKey[j], k, op, before[Slot(j, k, c)], c)
                                      else before[Slot(j, k, c)]
    {
      SlotInside(j, |dstKey|, k, c, |before|);
      if j < d {
        SlotOrder(j, d, k, c);
      } else if d < j {
        SlotOrder(d, j, k, 0);
      }
    }
  }

  /** Destination keys smaller than the next source key, or past all of them, stay as they are. */
  lemma UnmatchedEntries<V>(srcKey: seq<Key>, srcVal: seq<V>, dstKey: seq<Key>, k: nat, op: AsOp<V>,
                         before: seq<V>, after: seq<V>, lo: nat, d: nat, e: nat, s: nat)
    requires |srcVal| == |srcKey| * k && |before| == |after| == |dstKey| * k
    requires lo <= d <= e <= |dstKey| && s <= |srcKey|
    requires Increasing(srcKey) && Skipped(srcKey, s, dstKey, d)
    requires forall j :: d <= j < e && s < |srcKey| ==> dstKey[j] < srcKey[s]
    requires MergedRange(srcKey, srcVal, dstKey, k, op, before, after, lo, d)
    ensures MergedRange(srcKey, srcVal, dstKey, k, op, before, after, lo, e)
    ensures forall j :: d <= j < e ==> dstKey[j] !in srcKey
  {
    forall j | d <= j < e
      ensures dstKey[j] !in srcKey
    {
      assert forall i :: 0 <= i < |srcKey| ==> srcKey[i] != dstKey[j];
    }
  }

  lemma {:induction false} NoneCommon(srcKey: seq<Key>, dstKey: seq<Key>, lo: nat, hi: nat)
    requires lo <= hi <= |dstKey| && forall j :: lo <= j < hi ==> dstKey[j] !in srcKey
    ensures Common(srcKey, dstKey, lo, hi) == 0
    decreases hi - lo
  {
    if lo < hi {
      NoneCommon(srcKey, dstKey, lo, hi - 1);
    }
  }

  // ---- when the recursion ends ----

  /** Where lower_bound points, from s0 on. */
  ghost function Low(srcKey: seq<Key>, s0: nat, x: Key): (s: nat)
    requires s0 <= |srcKey|
    ensures s0 <= s <= |srcKey| && (s < |srcKey| ==> srcKey[s] >= x) && forall i :: s0 <= i < s ==> srcKey[i] < x
    decreases |srcKey| - s0
  {
    if s0 == |srcKey| || srcKey[s0] >= x then s0 else Low(srcKey, s0 + 1, x)
  }

  /** The recursion is through after at most this many levels of calls. */
  ghost predicate EndsWithin(srcKey: seq<Key>, s0: nat, dstKey: seq<Key>, d0: nat, d1: nat, grainsize: nat, depth: nat)
    requires s0 <= |srcKey| && d0 <= d1 <= |dstKey|
    decreases depth
  {
    depth > 0 &&
    (d0 == d1 || s0 == |srcKey| || d1 - d0 <= grainsize ||
     var s, mid := Low(srcKey, s0, dstKey[d0]), d0 + (d1 - d0) / 2;
     && EndsWithin(srcKey, s, dstKey, d0, mid, grainsize, depth - 1)
     && EndsWithin(srcKey, s, dstKey, mid, d1, grainsize, depth - 1))
  }

  /** The grain size is positive, or there is nothing left to match. */
  ghost predicate Ends(srcKey: seq<Key>, s0: nat, dstKey: seq<Key>, d0: nat, d1: nat, grainsize: nat)
    requires s0 <= |srcKey| && d0 <= d1 <= |dstKey|
  {
    grainsize > 0 || d0 == d1 || s0 == |srcKey| || srcKey[|srcKey| - 1] < dstKey[d0]
  }

  lemma {:induction false} GrainEnds(srcKey: seq<Key>, s0: nat, dstKey: seq<Key>, d0: nat, d1: nat, grainsize: nat, depth: nat)
    requires s0 <= |srcKey| && d0 <= d1 <= |dstKey| && grainsize > 0 && depth > d1 - d0
    ensures EndsWithin(srcKey, s0, dstKey, d0, d1, grainsize, depth)
    decreases depth
  {
    if d0 < d1 && s0 < |srcKey| && d1 - d0 > grainsize {
      var s, mid := Low(srcKey, s0, dstKey[d0]), d0 + (d1 - d0) / 2;
      GrainEnds(srcKey, s, dstKey, d0, mid, grainsize, depth - 1);
      GrainEnds(srcKey, s, dstKey, mid, d1, grainsize, depth - 1);
    }
  }

  lemma {:induction false} NoGrainGoesOn(srcKey: seq<Key>, s0: nat, dstKey: seq<Key>, d0: nat, d1: nat, depth: nat)
    requires s0 <= |srcKey| && d0 <= d1 <= |dstKey| && Increasing(srcKey) && !Ends(srcKey, s0, dstKey, d0, d1, 0)
    ensures !EndsWithin(srcKey, s0, dstKey, d0, d1, 0, depth)
    decreases depth
  {
    if depth > 0 {
      var s, mid := Low(srcKey, s0, dstKey[d0]), d0 + (d1 - d0) / 2;
      assert s < |srcKey|;
      if d1 - d0 == 1 {
        NoGrainGoesOn(srcKey, s, dstKey, mid, d1, depth - 1);
      } else {
        NoGrainGoesOn(srcKey, s, dstKey, d0, mid, depth - 1);
      }
    }
  }

  /** The fork-join ends exactly when the grain size is positive or there is nothing left to match. */
  lemma ForkJoinEndsIff(srcKey: seq<Key>, s0: nat, dstKey: seq<Key>, d0: nat, d1: nat, grainsize: nat)
    requires s0 <= |srcKey| && d0 <= d1 <= |dstKey| && Increasing(srcKey)
    ensures (exists depth: nat :: EndsWithin(srcKey, s0, dstKey, d0, d1, grainsize, depth)) <==>
              Ends(srcKey, s0, dstKey, d0, d1, grainsize)
  {
    if Ends(srcKey, s0, dstKey, d0, d1, grainsize) {
      if grainsize > 0 {
        GrainEnds(srcKey, s0, dstKey, d0, d1, grainsize, d1 - d0 + 2);
      } else {
        NothingLeft(srcKey, s0, dstKey, d0, d1, grainsize, d1 - d0 + 2);
      }
      assert exists depth: nat :: EndsWithin(srcKey, s0, dstKey, d0, d1, grainsize, depth);
    } else if depth: nat :| EndsWithin(srcKey, s0, dstKey, d0, d1, grainsize, depth) {
      NoGrainGoesOn(srcKey, s0, dstKey, d0, d1, depth);
    }
  }

  lemma NothingLeft(srcKey: seq<Key>, s0: nat, dstKey: seq<Key>, d0: nat, d1: nat, grainsize: nat, depth: nat)
    requires s0 <= |srcKey| && d0 <= d1 <= |dstKey| && Increasing(srcKey) && depth > 1
    requires d0 == d1 || s0 == |srcKey| || srcKey[|srcKey| - 1] < dstKey[d0]
    ensures EndsWithin(srcKey, s0, dstKey, d0, d1, grainsize, depth)
  {
    if d0 < d1 && s0 < |srcKey| {
      var s := Low(srcKey, s0, dstKey[d0]);
      assert s == |srcKey|;
    }
  }

  /** The recursive fork-join, whenever it ends. The two halves write disjoint entries, so their interleaving does not
      matter. The only caller passes a grain size of at least 1024 * 1024. */
  method ForkJoin<V>(srcKey: seq<Key>, srcVal: seq<V>, s0: nat, dstKey: seq<Key>, d0: nat, d1: nat,
                  dstVal: array<V>, k: nat, op: AsOp<V>, grainsize: nat) returns (n: nat)
    requires Increasing(srcKey) && Increasing(dstKey)
    requires |srcVal| == |srcKey| * k && dstVal.Length == |dstKey| * k
    requires s0 <= |srcKey| && d0 <= d1 <= |dstKey| && Skipped(srcKey, s0, dstKey, d0)
    requires Ends(srcKey, s0, dstKey, d0, d1, grainsize)
    modifies dstVal
    ensures MergedRange(srcKey, srcVal, dstKey, k, op, old(dstVal[..]), dstVal[..], d0, d1)
    ensures n == k * Common(srcKey, dstKey, d0, d1)
    decreases |srcKey| - s0, d1 - d0
  {
    hide MergedRange, Common;
    ghost var before := dstVal[..];
    MergedNothing(srcKey, srcVal, dstKey, k, op, before, d0);
    if d0 == d1 || s0 == |srcKey| {
      UnmatchedEntries(srcKey, srcVal, dstKey, k, op, before, before, d0, d0, d1, s0);
      NoneCommon(srcKey, dstKey, d0, d1);
      return 0;
    }
    var s := LowerBound(srcKey, s0, |srcKey|, dstKey[d0]);
    assert Skipped(srcKey, s, dstKey, d0);
    if d1 - d0 <= grainsize {
      n := MergeWalk(srcKey, srcVal, s, dstKey, d0, d1, dstVal, k, op);
    } else {
      var mid := d0 + (d1 - d0) / 2;
      n := ForkJoin(srcKey, srcVal, s, dstKey, d0, mid, dstVal, k, op, grainsize);
      ghost var half := dstVal[..];
      var m := ForkJoin(srcKey, srcVal, s, dstKey, mid, d1, dstVal, k, op, grainsize);
      MergedHalves(srcKey, srcVal, dstKey, k, op, before, half, dstVal[..], d0, mid, d1);
      CommonSplit(srcKey, dstKey, d0, mid, d1);
      Distribute(k, Common(srcKey, dstKey, d0, mid), Common(srcKey, dstKey, mid, d1));
      n := n + m;
    }
  }

  lemma MergedNothing<V>(srcKey: seq<Key>, srcVal: seq<V>, dstKey: seq<Key>, k: nat, op: AsOp<V>, before: seq<V>, d: nat)
    requires |srcVal| == |srcKey| * k && |before| == |dstKey| * k && d <= |dstKey|
    ensures MergedRange(srcKey, srcVal, dstKey, k, op, before, before, d, d)
  {
  }

  lemma MergedHalves<V>(srcKey: seq<Key>, srcVal: seq<V>, dstKey: seq<Key>, k: nat, op: AsOp<V>,
                     before: seq<V>, half: seq<V>, after: seq<V>, lo: nat, mid: nat, hi: nat)
    requires |srcVal| == |srcKey| * k && |before| == |half| == |after| == |dstKey| * k && lo <= mid <= hi <= |dstKey|
    requires MergedRange(srcKey, srcVal, dstKey, k, op, before, half, lo, mid)
    requires MergedRange(srcKey, srcVal, dstKey, k, op, half, after, mid, hi)
    ensures MergedRange(srcKey, srcVal, dstKey, k, op, before, after, lo, hi)
  {
  }

  /** The outer layer: restrict the destination to the key range of the source, and fork-join over it. */
  method Match<V>(srcKey: seq<Key>, srcVal: seq<V>, dstKey: seq<Key>, dstVal: array<V>, k: nat, op: AsOp<V>,
               numThreads: nat) returns (n: nat)
    requires Increasing(srcKey) && Increasing(dstKey) && numThreads > 0
    requires |srcVal| == |srcKey| * k && dstVal.Length == |dstKey| * k
    modifies dstVal
    ensures MergedRange(srcKey, srcVal, dstKey, k, op, old(dstVal[..]), dstVal[..], 0, |dstKey|)
    ensures n == k * Common(srcKey, dstKey, 0, |dstKey|)
  {
    hide MergedRange;
    ghost var before := dstVal[..];
    MergedNothing(srcKey, srcVal, dstKey, k, op, before, 0);
    if dstKey == [] || srcKey == [] {
      UnmatchedEntries(srcKey, srcVal, dstKey, k, op, before, before, 0, 0, |dstKey|, 0);
      NoneCommon(srcKey, dstKey, 0, |dstKey|);
      return 0;
    }
    var lo := LowerBound(dstKey, 0, |dstKey|, srcKey[0]);
    var hi := LowerBound(dstKey, 0, |dstKey|, srcKey[|srcKey| - 1] + 1);
    OutsideRange(srcKey, dstKey, lo, hi);
    var grainsize := (hi - lo) * k / numThreads + 5;
    if grainsize < 1024 * 1024 {
      grainsize := 1024 * 1024;
    }
    n := ForkJoin(srcKey, srcVal, 0, dstKey, lo, hi, dstVal, k, op, grainsize);
    MergedWiden(srcKey, srcVal, dstKey, k, op, before, dstVal[..], lo, hi);
    CommonSplit(srcKey, dstKey, 0, lo, hi);
    CommonSplit(srcKey, dstKey, 0, hi, |dstKey|);
    NoneCommon(srcKey, dstKey, 0, lo);
    NoneCommon(srcKey, dstKey, hi, |dstKey|);
  }

  lemma OutsideRange(srcKey: seq<Key>, dstKey: seq<Key>, lo: nat, hi: nat)
    requires Increasing(srcKey) && Increasing(dstKey) && srcKey != [] && lo <= |dstKey| && hi <= |dstKey|
    requires forall i :: 0 <= i < lo ==> dstKey[i] < srcKey[0]
    requires forall i :: lo <= i < |dstKey| ==> srcKey[0] <= dstKey[i]
    requires forall i :: 0 <= i < hi ==> dstKey[i] <= srcKey[|srcKey| - 1]
    requires forall i :: hi <= i < |dstKey| ==> srcKey[|srcKey| - 1] < dstKey[i]
    ensures lo <= hi
    ensures forall j :: 0 <= j < lo || hi <= j < |dstKey| ==> dstKey[j] !in srcKey
  {
    assert srcKey[0] <= srcKey[|srcKey| - 1];
    if lo > 0 {
      assert dstKey[lo - 1] < srcKey[0];
    }
    forall j | 0 <= j < lo || hi <= j < |dstKey|
      ensures dstKey[j] !in srcKey
    {
      assert forall i :: 0 <= i < |srcKey| ==> srcKey[0] <= srcKey[i] <= srcKey[|srcKey| - 1];
    }
  }

  lemma MergedWiden<V>(srcKey: seq<Key>, srcVal: seq<V>, dstKey: seq<Key>, k: nat, op: AsOp<V>,
                    before: seq<V>, after: seq<V>, lo: nat, hi: nat)
    requires |srcVal| == |srcKey| * k && |before| == |after| == |dstKey| * k && lo <= hi <= |dstKey|
    requires MergedRange(srcKey, srcVal, dstKey, k, op, before, after, lo, hi)
    requires forall j :: 0 <= j < lo || hi <= j < |dstKey| ==> dstKey[j] !in srcKey
    ensures MergedRange(srcKey, srcVal, dstKey, k, op, before, after, 0, |dstKey|)
  {
  }
}
