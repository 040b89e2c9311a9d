/** The localizer itself, the localized block, and the product it preserves. */
module LocalizerBlocks {
  import opened Sequences
  import opened Options
  import opened RowBlocks
  import opened LocalizerKeys

  /** The number of the first n entries whose key is in the dictionary. */
  function CountIn(keys: seq<nat>, dict: seq<nat>, n: nat): (c: nat)
    requires n <= |keys|
    ensures c <= n
  {
    if n == 0 then 0 else CountIn(keys, dict, n - 1) + if keys[n - 1] in dict then 1 else 0
  }

  lemma {:induction false} CountInMonotone(keys: seq<nat>, dict: seq<nat>, m: nat, n: nat)
    requires m <= n <= |keys|
    ensures CountIn(keys, dict, m) <= CountIn(keys, dict, n)
    ensures m < n && keys[m] in dict ==> CountIn(keys, dict, m) < CountIn(keys, dict, n)
  {
    if m < n {
      CountInMonotone(keys, dict, m, n - 1);
    }
  }

  lemma {:induction false} KeptIsCountIn(keys: seq<nat>, dict: seq<nat>, remapped: seq<nat>, matched: nat, n: nat)
    requires Remapped(keys, dict, remapped, matched) && n <= |keys|
    ensures Kept(remapped, n) == CountIn(keys, dict, n)
  {
    if n > 0 {
      KeptIsCountIn(keys, dict, remapped, matched, n - 1);
      assert IsRank(dict, keys[n - 1], remapped[n - 1]);
    }
  }

  /** Entry j of the block, when its key is in the dictionary, stands in its place in the localized block. */
  ghost predicate EntryMoved(b: RowBlock, keys: seq<nat>, dict: seq<nat>, index: seq<nat>, value: Option<seq<real>>, j: nat)
    requires j < |keys| == |b.index| && (b.value.Some? ==> |b.value.value| == |keys|)
  {
    keys[j] in dict ==>
      var k := CountIn(keys, dict, j);
      && k < |index| && index[k] < |dict| && dict[index[k]] == keys[j]
      && (b.value.Some? ==> value.Some? && k < |value.value| && value.value[k] == b.value.value[j])
  }

  /**
   * The localized block: every row keeps its entries whose key is in the
   * dictionary, in order, with their values, under the key's place in the dictionary.
   */
  ghost predicate Localized(b: RowBlock, keys: seq<nat>, dict: seq<nat>, out: RowBlock)
    requires WellFormed(b) && |keys| == |b.index|
  {
    && |out.offset| == |b.offset|
    && (forall i :: 0 <= i < |b.offset| ==> b.offset[i] <= |keys| && out.offset[i] == CountIn(keys, dict, b.offset[i]))
    && |out.index| == CountIn(keys, dict, |keys|)
    && (out.value.Some? <==> b.value.Some?)
    && (out.value.Some? ==> |out.value.value| == |out.index|)
    && (forall j :: 0 <= j < |keys| ==> EntryMoved(b, keys, dict, out.index, out.value, j))
  }

  // --------------------------------------------------------- filling the block

  /** The entries up to number n have been written. */
  ghost predicate Filled(b: RowBlock, keys: seq<nat>, dict: seq<nat>, index: seq<nat>, value: Option<seq<real>>, n: nat, k: nat)
    requires n <= |keys| == |b.index| && (b.value.Some? ==> |b.value.value| == |keys|)
  {
    && |index| == CountIn(keys, dict, |keys|)
    && (value.Some? <==> b.value.Some?)
    && (value.Some? ==> |value.value| == |index|)
    && k == CountIn(keys, dict, n)
    && forall j :: 0 <= j < n ==> EntryMoved(b, keys, dict, index, value, j)
  }

  lemma FillSkip(b: RowBlock, keys: seq<nat>, dict: seq<nat>, remapped: seq<nat>, matched: nat,
                 index: seq<nat>, value: Option<seq<real>>, n: nat, k: nat)
    requires WellFormed(b) && n < |keys| == |b.index| && Remapped(keys, dict, remapped, matched)
    requires Filled(b, keys, dict, index, value, n, k) && remapped[n] == 0
    ensures Filled(b, keys, dict, index, value, n + 1, k)
  {
    assert IsRank(dict, keys[n], remapped[n]);
  }

  lemma FillWrite(b: RowBlock, keys: seq<nat>, dict: seq<nat>, remapped: seq<nat>, matched: nat,
                  index: seq<nat>, value: Option<seq<real>>, n: nat, k: nat)
    requires WellFormed(b) && n < |keys| == |b.index| && Remapped(keys, dict, remapped, matched)
    requires Filled(b, keys, dict, index, value, n, k) && remapped[n] != 0
    ensures k < |index|
    ensures var value' := if value.Some? then Some(value.value[k := b.value.value[n]]) else None;
            Filled(b, keys, dict, index[k := remapped[n] - 1], value', n + 1, k + 1)
  {
    assert IsRank(dict, keys[n], remapped[n]);
    assert keys[n] in dict;
    CountInMonotone(keys, dict, n, |keys|);
    var index' := index[k := remapped[n] - 1];
    var value' := if value.Some? then Some(value.value[k := b.value.value[n]]) else None;
    hide WellFormed, Remapped;
    forall j | 0 <= j < n + 1
      ensures EntryMoved(b, keys, dict, index', value', j)
    {
      if j < n {
        assert EntryMoved(b, keys, dict, index, value, j);
        CountInMonotone(keys, dict, j, n);
      }
    }
  }

  lemma FilledIsLocalized(b: RowBlock, keys: seq<nat>, dict: seq<nat>, index: seq<nat>, value: Option<seq<real>>,
                          k: nat, offset: seq<nat>, labels: Option<seq<real>>)
    requires WellFormed(b) && |keys| == |b.index| && Filled(b, keys, dict, index, value, |keys|, k)
    requires |offset| == |b.offset|
    requires forall i :: 0 <= i < |b.offset| ==> b.offset[i] <= |keys| && offset[i] == CountIn(keys, dict, b.offset[i])
    ensures Localized(b, keys, dict, RowBlock(offset, index, value, labels)) && k == |index|
  {
  }

  lemma ValuesMatch(b: RowBlock, keys: seq<nat>, dict: seq<nat>, out: RowBlock)
    requires WellFormed(b) && |keys| == |b.index| && Localized(b, keys, dict, out)
    ensures out.value.Some? <==> b.value.Some?
  {
  }

  lemma StaleValues(b: RowBlock, keys: seq<nat>, dict: seq<nat>, out: RowBlock)
    requires WellFormed(b) && |keys| == |b.index| && out.value.Some? != b.value.Some?
    ensures !Localized(b, keys, dict, out)
  {
  }

  lemma SameColumns(a: RowBlock, b: RowBlock, n: nat)
    requires Columns(a, n) && a.index == b.index
    ensures Columns(b, n)
  {
  }

  class Localizer {
    const mode: Mode
    var pair: seq<Pair>

    constructor (mode: Mode)
      ensures this.mode == mode && pair == []
    {
      this.mode, pair := mode, [];
    }

    /**
     * The distinct keys in increasing order and how often each occurs. sorted
     * is what the library's sort makes of the keys and their places. A block
     * without rows leaves everything as it was. Not ok: the block has rows but no
     * entry, and the first pair is read although there is none.
     */
    method CountUniqIndex(b: RowBlock, sorted: seq<Pair>, cap: Option<nat>, uniq0: seq<nat>, frq0: seq<nat>)
      returns (ok: bool, uniq: seq<nat>, frq: seq<nat>)
      requires WellFormed(b) && Usable(mode)
      requires |b.offset| > 1 ==> Sorts(sorted, PairsOf(Keys(b, mode)))
      modifies this
      ensures ok <==> |b.offset| == 1 || |b.index| > 0
      ensures |b.offset| == 1 ==> uniq == uniq0 && frq == frq0 && pair == old(pair)
      ensures |b.offset| > 1 ==> pair == sorted
      ensures ok && |b.offset| > 1 ==> Unique(Keys(b, mode), uniq, frq, cap)
    {
      if |b.offset| == 1 {
        return true, uniq0, frq0;
      }
      hide KeyOf, Sorts, Unique, WellFormed, Usable;
      pair := sorted;
      SortIsIndexed(sorted, Keys(b, mode));
      if |pair| == 0 {
        return false, [], [];
      }
      uniq, frq := Tally(Keys(b, mode), cap);
      ok := true;
    }

    /** One pass over the sorted pairs, counting the runs of equal keys. */
    method Tally(ghost keys: seq<nat>, cap: Option<nat>) returns (uniq: seq<nat>, frq: seq<nat>)
      requires |keys| > 0 && Sorts(pair, PairsOf(keys))
      ensures Unique(keys, uniq, frq, cap)
    {
      hide TallyState, Unique, Sorts, Capped;
      var pairs := pair;
      TallyStart(pairs, keys, cap);
      uniq, frq := [], [];
      var curr := pairs[0].k;
      var cnt := 0;
      for i := 0 to |pairs|
        invariant TallyState(pairs, i, curr, cnt, uniq, frq, cap)
      {
        var v := pairs[i];
        TallyStep(pairs, keys, i, curr, cnt, uniq, frq, cap);
        if v.k != curr {
          uniq := uniq + [curr];
          curr := v.k;
          frq := frq + [Capped(cnt, cap)];
          cnt := 0;
        }
        cnt := cnt + 1;
      }
      TallyEnd(pairs, keys, curr, cnt, uniq, frq, cap);
      uniq := uniq + [curr];
      frq := frq + [Capped(cnt, cap)];
    }

    /** Walks the dictionary and the sorted pairs together. */
    method BuildMapping(dict: seq<nat>, ghost keys: seq<nat>) returns (remapped: seq<nat>, matched: nat)
      requires Sorts(pair, PairsOf(keys)) && Increasing(dict)
      ensures Remapped(keys, dict, remapped, matched)
    {
      SortIsIndexed(pair, keys);
      remapped := seq(|pair|, _ => 0);
      matched := 0;
      var d, p := 0, 0;
      assert Walked(pair, dict, remapped, d, p, matched);
      hide Walked, CountIf, PairsOf, Remapped, Sorts;
      while d < |dict| && p < |pair|
        invariant d <= |dict| && p <= |pair| && |remapped| == |pair|
        invariant Walked(pair, dict, remapped, d, p, matched)
        decreases |dict| - d + |pair| - p
      {
        if dict[d] < pair[p].k {
          WalkDict(pair, dict, remapped, d, p, matched);
          d := d + 1;
        } else {
          WalkPair(pair, keys, dict, remapped, d, p, matched);
          if dict[d] == pair[p].k {
            remapped := remapped[pair[p].i := d + 1];
            matched := matched + 1;
          }
          p := p + 1;
        }
      }
      WalkDone(pair, keys, dict, remapped, d, p, matched);
    }

    /**
     * The block under the dictionary's numbers, for the block whose keys were
     * collected last. A block without values leaves those that the container had,
     * which then are not the block's. The final check of the original, that as many
     * entries were written as matched, always holds.
     */
    method RemapIndex(b: RowBlock, dict: seq<nat>, localized0: RowBlock, max0: nat) returns (localized: RowBlock, maxIndex: nat)
      requires WellFormed(b) && Usable(mode) && Increasing(dict)
      requires |b.offset| > 1 ==> Sorts(pair, PairsOf(Keys(b, mode)))
      ensures |b.offset| == 1 || dict == [] ==> localized == localized0 && maxIndex == max0
      ensures |b.offset| > 1 && dict != [] ==>
                (Localized(b, Keys(b, mode), dict, localized) <==> b.value.Some? || localized0.value.None?)
      ensures |b.offset| > 1 && dict != [] && b.value.None? ==>
                localized.value == localized0.value && Localized(b, Keys(b, mode), dict, localized.(value := None))
      ensures |b.offset| > 1 && dict != [] ==> localized.labels == if b.labels.Some? then b.labels else localized0.labels
      ensures |b.offset| > 1 && dict != [] ==> maxIndex + 1 == |dict| && Columns(localized, maxIndex + 1)
    {
      if |b.offset| == 1 || dict == [] {
        return localized0, max0;
      }
      hide KeyOf, Keys, PairsOf, Sorts, Remapped, Filled, CountIn, Increasing, Usable, Localized, Columns;
      ghost var keys := Keys(b, mode);
      var remapped, matched := BuildMapping(dict, keys);
      var offset, index, value, k := FillRows(b, keys, dict, remapped, matched);
      assert k == matched;
      var labels := if b.labels.Some? then b.labels else localized0.labels;
      localized := RowBlock(offset, index, if b.value.Some? then value else localized0.value, labels);
      ghost var filled := RowBlock(offset, index, value, labels);
      FilledIsLocalized(b, keys, dict, index, value, k, offset, labels);
      PlacesInDict(b, keys, dict, filled);
      ValuesMatch(b, keys, dict, filled);
      if localized.value.Some? != b.value.Some? {
        StaleValues(b, keys, dict, localized);
      }
      SameColumns(filled, localized, |dict|);
      maxIndex := |dict| - 1;
    }

    /** The outer loop: the rows of the new block. */
    method FillRows(b: RowBlock, ghost keys: seq<nat>, ghost dict: seq<nat>, remapped: seq<nat>, matched: nat)
      returns (offset: seq<nat>, index: seq<nat>, value: Option<seq<real>>, k: nat)
      requires WellFormed(b) && |b.offset| > 1 && |keys| == |b.index| == |remapped| && Remapped(keys, dict, remapped, matched)
      ensures |offset| == |b.offset| && k == matched
      ensures Filled(b, keys, dict, index, value, |keys|, k)
      ensures forall i :: 0 <= i < |b.offset| ==> b.offset[i] <= |keys| && offset[i] == CountIn(keys, dict, b.offset[i])
    {
      hide Remapped, Filled, CountIn;
      FillStart(b, keys, dict, remapped, matched);
      offset := [0];
      index := seq(matched, _ => 0);
      value := if b.value.Some? then Some(seq(matched, _ => 0.0)) else None;
      k := 0;
      for i := 0 to |b.offset| - 1
        invariant |offset| == i + 1 && b.offset[i] <= |keys|
        invariant Filled(b, keys, dict, index, value, b.offset[i], k)
        invariant forall r :: 0 <= r <= i ==> b.offset[r] <= |keys| && offset[r] == CountIn(keys, dict, b.offset[r])
      {
        OffsetsInside(b, i + 1);
        var n;
        index, value, k, n := FillRow(b, keys, dict, remapped, matched, i, index, value, k);
        offset := offset + [offset[i] + n];
      }
      FilledCount(b, keys, dict, index, value, |keys|, k);
    }

    /** The inner loop: the entries of row i. */
    method FillRow(b: RowBlock, ghost keys: seq<nat>, ghost dict: seq<nat>, remapped: seq<nat>, ghost matched: nat, i: nat,
                   index0: seq<nat>, value0: Option<seq<real>>, k0: nat)
      returns (index: seq<nat>, value: Option<seq<real>>, k: nat, n: nat)
      requires WellFormed(b) && i < |b.offset| - 1 && |keys| == |b.index| && b.offset[i + 1] <= |keys|
      requires |remapped| == |keys| && Remapped(keys, dict, remapped, matched)
      requires Filled(b, keys, dict, index0, value0, b.offset[i], k0)
      ensures Filled(b, keys, dict, index, value, b.offset[i + 1], k)
      ensures CountIn(keys, dict, b.offset[i]) + n == CountIn(keys, dict, b.offset[i + 1])
    {
      assert b.value.Some? ==> |b.value.value| == |keys|;
      assert b.offset[i] <= b.offset[i + 1];
      FilledCount(b, keys, dict, index0, value0, b.offset[i], k0);
      hide Remapped, Filled, CountIn;
      index, value, k, n := index0, value0, k0, 0;
      var j := b.offset[i];
      while j < b.offset[i + 1]
        invariant j <= b.offset[i + 1] && k0 + n == k
        invariant Filled(b, keys, dict, index, value, j, k)
      {
        FilledCount(b, keys, dict, index, value, j, k);
        if remapped[j] != 0 {
          FillWrite(b, keys, dict, remapped, matched, index, value, j, k);
          n := n + 1;
          if value.Some? {
            value := Some(value.value[k := b.value.value[j]]);
          }
          index := index[k := remapped[j] - 1];
          k := k + 1;
        } else {
          FillSkip(b, keys, dict, remapped, matched, index, value, j, k);
        }
        j := j + 1;
      }
      FilledCount(b, keys, dict, index, value, j, k);
    }
  }

  /** The loop of the tally before pair number i. */
  ghost predicate TallyState(s: seq<Pair>, i: nat, curr: nat, cnt: nat, uniq: seq<nat>, frq: seq<nat>, cap: Option<nat>) {
    && 0 < |s| && i <= |s|
    && (i == 0 ==> curr == s[0].k && cnt == 0 && uniq == [] && frq == [])
    && (i > 0 ==> Tallied(s, i, curr, uniq, frq, cap) && cnt == CountIf(s[..i], IsKey(curr)))
  }

  lemma TallyStart(s: seq<Pair>, keys: seq<nat>, cap: Option<nat>)
    requires |keys| > 0 && Sorts(s, PairsOf(keys))
    ensures |s| > 0 && TallyState(s, 0, s[0].k, 0, [], [], cap)
  {
    SortIsIndexed(s, keys);
  }

  lemma TallyStep(s: seq<Pair>, keys: seq<nat>, i: nat, curr: nat, cnt: nat, uniq: seq<nat>, frq: seq<nat>, cap: Option<nat>)
    requires Sorts(s, PairsOf(keys)) && i < |s| && TallyState(s, i, curr, cnt, uniq, frq, cap)
    ensures s[i].k == curr ==> TallyState(s, i + 1, curr, cnt + 1, uniq, frq, cap)
    ensures s[i].k != curr ==> TallyState(s, i + 1, s[i].k, 1, uniq + [curr], frq + [Capped(cnt, cap)], cap)
  {
    hide Capped, CountIf;
    CountStep(s, i, IsKey(s[i].k));
    if i == 0 {
      TallyFirst(s, cap);
    } else if s[i].k == curr {
      TallySame(s, i, curr, uniq, frq, cap);
    } else {
      TallyNext(s, i, curr, uniq, frq, cap, cnt);
    }
    hide Tallied, Sorts;
  }

  lemma TallyEnd(s: seq<Pair>, keys: seq<nat>, curr: nat, cnt: nat, uniq: seq<nat>, frq: seq<nat>, cap: Option<nat>)
    requires Sorts(s, PairsOf(keys)) && TallyState(s, |s|, curr, cnt, uniq, frq, cap)
    ensures Unique(keys, uniq + [curr], frq + [Capped(cnt, cap)], cap)
  {
    assert s[..|s|] == s;
    TallyDone(s, keys, curr, uniq, frq, cap, cnt);
    hide Tallied, Sorts, CountIf, Unique;
  }

  lemma TallyFirst(s: seq<Pair>, cap: Option<nat>)
    requires |s| > 0
    ensures Tallied(s, 1, s[0].k, [], [], cap) && CountIf(s[..0], IsKey(s[0].k)) == 0
  {
  }

  lemma FillStart(b: RowBlock, keys: seq<nat>, dict: seq<nat>, remapped: seq<nat>, matched: nat)
    requires WellFormed(b) && |keys| == |b.index| && Remapped(keys, dict, remapped, matched)
    ensures |remapped| == |keys| && CountIn(keys, dict, 0) == 0 && matched == CountIn(keys, dict, |keys|)
    ensures Filled(b, keys, dict, seq(matched, _ => 0), if b.value.Some? then Some(seq(matched, _ => 0.0)) else None, 0, 0)
  {
    KeptIsCountIn(keys, dict, remapped, matched, |keys|);
  }

  lemma FilledCount(b: RowBlock, keys: seq<nat>, dict: seq<nat>, index: seq<nat>, value: Option<seq<real>>, n: nat, k: nat)
    requires WellFormed(b) && n <= |keys| == |b.index| && Filled(b, keys, dict, index, value, n, k)
    ensures k == CountIn(keys, dict, n)
    ensures |index| == CountIn(keys, dict, |keys|) && (value.Some? <==> b.value.Some?)
    ensures value.Some? ==> |value.value| == |index|
  {
  }

  // ------------------------------------------------------------- the same product

  /** The entries from lo up to hi times the weights found under their keys; a missing key weighs nothing. */
  function LookupDot(b: RowBlock, keys: seq<nat>, weights: map<nat, real>, lo: nat, hi: nat): real
    requires hi <= |keys|
  {
    if lo >= hi then 0.0
    else LookupDot(b, keys, weights, lo, hi - 1)
         + (if keys[hi - 1] in weights then weights[keys[hi - 1]] * ValueAt(b, hi - 1) else 0.0)
  }

  /** The weights gathered in dictionary order. */
  ghost predicate Gathered(dict: seq<nat>, weights: map<nat, real>, w: seq<real>) {
    |w| == |dict| && (forall x :: x in weights <==> x in dict) && forall d :: 0 <= d < |dict| ==> w[d] == weights[dict[d]]
  }

  lemma {:induction false} SameDot(b: RowBlock, keys: seq<nat>, dict: seq<nat>, out: RowBlock, weights: map<nat, real>,
                                   w: seq<real>, lo: nat, hi: nat)
    requires WellFormed(b) && |keys| == |b.index| && lo <= hi <= |keys|
    requires Localized(b, keys, dict, out) && Gathered(dict, weights, w)
    requires Columns(out, |w|)
    ensures CountIn(keys, dict, lo) <= CountIn(keys, dict, hi) <= |out.index|
    ensures Dot(out, w, CountIn(keys, dict, lo), CountIn(keys, dict, hi)) == LookupDot(b, keys, weights, lo, hi)
  {
    hide Dot, LookupDot, CountIn, ValueAt, Localized, Gathered, Columns, WellFormed;
    if lo == hi {
      DotNothing(b, keys, dict, out, weights, w, lo);
    } else {
      SameDot(b, keys, dict, out, weights, w, lo, hi - 1);
      SameEntry(b, keys, dict, out, weights, w, hi - 1);
      DotStep(b, keys, dict, out, w, lo, hi);
      LookupStep(b, keys, weights, lo, hi);
    }
  }

  lemma DotNothing(b: RowBlock, keys: seq<nat>, dict: seq<nat>, out: RowBlock, weights: map<nat, real>, w: seq<real>, lo: nat)
    requires WellFormed(b) && lo <= |keys| == |b.index| && Localized(b, keys, dict, out) && Columns(out, |w|)
    ensures CountIn(keys, dict, lo) <= |out.index|
    ensures Dot(out, w, CountIn(keys, dict, lo), CountIn(keys, dict, lo)) == LookupDot(b, keys, weights, lo, lo)
  {
    CountInMonotone(keys, dict, lo, |keys|);
  }

  lemma DotStep(b: RowBlock, keys: seq<nat>, dict: seq<nat>, out: RowBlock, w: seq<real>, lo: nat, hi: nat)
    requires WellFormed(b) && lo < hi <= |keys| == |b.index| && Localized(b, keys, dict, out) && Columns(out, |w|)
    ensures var l, h, k := CountIn(keys, dict, lo), CountIn(keys, dict, hi), CountIn(keys, dict, hi - 1);
            && l <= k <= h <= |out.index|
            && h == (if keys[hi - 1] in dict then k + 1 else k)
            && (keys[hi - 1] in dict ==> Dot(out, w, l, h) == Dot(out, w, l, k) + w[out.index[k]] * ValueAt(out, k))
  {
    CountInMonotone(keys, dict, lo, hi - 1);
    CountInMonotone(keys, dict, hi, |keys|);
    hide ValueAt, WellFormed, EntryMoved;
  }

  lemma LookupStep(b: RowBlock, keys: seq<nat>, weights: map<nat, real>, lo: nat, hi: nat)
    requires lo < hi <= |keys|
    ensures LookupDot(b, keys, weights, lo, hi) == LookupDot(b, keys, weights, lo, hi - 1)
              + if keys[hi - 1] in weights then weights[keys[hi - 1]] * ValueAt(b, hi - 1) else 0.0
  {
    hide ValueAt;
  }

  /** One entry: if its key is in the dictionary, its localized copy contributes the same. */
  lemma SameEntry(b: RowBlock, keys: seq<nat>, dict: seq<nat>, out: RowBlock, weights: map<nat, real>, w: seq<real>, j: nat)
    requires WellFormed(b) && j < |keys| == |b.index|
    requires Localized(b, keys, dict, out) && Gathered(dict, weights, w) && Columns(out, |w|)
    ensures var k := CountIn(keys, dict, j);
            && (keys[j] in weights <==> keys[j] in dict)
            && (keys[j] in dict ==> k < |out.index| && w[out.index[k]] * ValueAt(out, k) == weights[keys[j]] * ValueAt(b, j))
  {
    hide CountIn;
    assert EntryMoved(b, keys, dict, out.index, out.value, j);
  }

  lemma {:induction false} PlaceOf(keys: seq<nat>, dict: seq<nat>, k: nat, n: nat) returns (j: nat)
    requires n <= |keys| && k < CountIn(keys, dict, n)
    ensures j < n && keys[j] in dict && CountIn(keys, dict, j) == k
  {
    if k < CountIn(keys, dict, n - 1) {
      j := PlaceOf(keys, dict, k, n - 1);
    } else {
      j := n - 1;
    }
  }

  lemma PlacesInDict(b: RowBlock, keys: seq<nat>, dict: seq<nat>, out: RowBlock)
    requires WellFormed(b) && |keys| == |b.index| && Localized(b, keys, dict, out)
    ensures Columns(out, |dict|)
  {
    forall k | 0 <= k < |out.index|
      ensures out.index[k] < |dict|
    {
      var j := PlaceOf(keys, dict, k, |keys|);
      assert EntryMoved(b, keys, dict, out.index, out.value, j);
    }
  }

  /** Row by row, the localized block times the gathered weights is the original times the weights of its keys. */
  lemma SameProduct(b: RowBlock, keys: seq<nat>, dict: seq<nat>, out: RowBlock, weights: map<nat, real>, w: seq<real>, i: nat)
    requires WellFormed(b) && |keys| == |b.index| && i < |b.offset| - 1
    requires Localized(b, keys, dict, out) && Gathered(dict, weights, w)
    ensures Columns(out, |w|)
    ensures out.offset[i] <= out.offset[i + 1] <= |out.index| && b.offset[i + 1] <= |keys|
    ensures Dot(out, w, out.offset[i], out.offset[i + 1]) == LookupDot(b, keys, weights, b.offset[i], b.offset[i + 1])
  {
    OffsetsInside(b, i + 1);
    PlacesInDict(b, keys, dict, out);
    SameDot(b, keys, dict, out, weights, w, b.offset[i], b.offset[i + 1]);
  }
}
