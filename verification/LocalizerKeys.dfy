/**
 * Renumbering of the feature ids of a block of sparse rows: the distinct ids,
 * sorted and counted, and the same rows with every id replaced by its place in
 * a sorted dictionary.
 */
module LocalizerKeys {
  import opened Sequences
  import opened Options
  import opened RowBlocks

  // ---------------------------------------------------------------- the keys

  function ReverseBytes(x: bv64): bv64 {
    var x := (x << 32) | (x >> 32);
    var x := ((x & 0x0000FFFF0000FFFF) << 16) | ((x & 0xFFFF0000FFFF0000) >> 16);
    var x := ((x & 0x00FF00FF00FF00FF) << 8) | ((x & 0xFF00FF00FF00FF00) >> 8);
    ((x & 0x0F0F0F0F0F0F0F0F) << 4) | ((x & 0xF0F0F0F0F0F0F0F0) >> 4)
  }

  /** Applied twice it gives the id back, so no two ids share a key. */
  lemma ReverseTwice(x: bv64)
    ensures ReverseBytes(ReverseBytes(x)) == x
  {
  }

  lemma ReverseInjective(x: bv64, y: bv64)
    requires ReverseBytes(x) == ReverseBytes(y)
    ensures x == y
  {
    ReverseTwice(x);
    ReverseTwice(y);
    hide ReverseBytes;
  }

  /** The hexadecimal digits of y, from the lowest, are those of x from the highest. */
  predicate DigitsReversed(x: bv64, y: bv64) {
    && (y & 0xF) == ((x >> 60) & 0xF) && ((y >> 4) & 0xF) == ((x >> 56) & 0xF)
    && ((y >> 8) & 0xF) == ((x >> 52) & 0xF) && ((y >> 12) & 0xF) == ((x >> 48) & 0xF)
    && ((y >> 16) & 0xF) == ((x >> 44) & 0xF) && ((y >> 20) & 0xF) == ((x >> 40) & 0xF)
    && ((y >> 24) & 0xF) == ((x >> 36) & 0xF) && ((y >> 28) & 0xF) == ((x >> 32) & 0xF)
    && ((y >> 32) & 0xF) == ((x >> 28) & 0xF) && ((y >> 36) & 0xF) == ((x >> 24) & 0xF)
    && ((y >> 40) & 0xF) == ((x >> 20) & 0xF) && ((y >> 44) & 0xF) == ((x >> 16) & 0xF)
    && ((y >> 48) & 0xF) == ((x >> 12) & 0xF) && ((y >> 52) & 0xF) == ((x >> 8) & 0xF)
    && ((y >> 56) & 0xF) == ((x >> 4) & 0xF) && ((y >> 60) & 0xF) == (x & 0xF)
  }

  /** The scattered key is the id with its sixteen digits in reverse order. */
  lemma ReverseIs(x: bv64)
    ensures DigitsReversed(x, ReverseBytes(x))
  {
  }

  /** How ids become keys: modulo a key bound, scattered over the key space, or as they are. */
  datatype Mode = Hashed(maxKey: nat) | Scattered | Plain

  predicate Usable(mode: Mode) {
    mode.Hashed? ==> mode.maxKey > 0
  }

  function KeyOf(mode: Mode, x: nat): nat
    requires Usable(mode) && x < TwoTo64
  {
    match mode
    case Hashed(maxKey) => x % maxKey
    case Scattered => ReverseBytes(x as bv64) as nat
    case Plain => x
  }

  function Keys(b: RowBlock, mode: Mode): (keys: seq<nat>)
    requires WellFormed(b) && Usable(mode)
    ensures |keys| == |b.index|
  {
    seq(|b.index|, j requires 0 <= j < |b.index| => KeyOf(mode, b.index[j]))
  }

  /** What a key is made of: the id, its remainder by the key bound, or the id with its digits reversed. */
  ghost predicate MadeOf(mode: Mode, x: nat, k: nat)
    requires x < TwoTo64
  {
    match mode
    case Plain => k == x
    case Hashed(maxKey) => k < maxKey && exists q: nat :: x == Multiple(q, maxKey) + k
    case Scattered => exists y: bv64 :: HasDigits(x, y) && k == y as nat
  }

  function Multiple(q: nat, n: nat): nat {
    q * n
  }

  ghost predicate HasDigits(x: nat, y: bv64)
    requires x < TwoTo64
  {
    DigitsReversed(x as bv64, y)
  }

  lemma KeysMean(b: RowBlock, mode: Mode, j: nat)
    requires WellFormed(b) && Usable(mode) && j < |b.index|
    ensures MadeOf(mode, b.index[j], Keys(b, mode)[j])
  {
    KeyMeans(mode, b.index[j]);
    hide MadeOf, KeyOf;
  }

  lemma KeyMeans(mode: Mode, x: nat)
    requires Usable(mode) && x < TwoTo64
    ensures MadeOf(mode, x, KeyOf(mode, x))
  {
    hide ReverseBytes, HasDigits;
    match mode {
      case Plain =>
      case Hashed(maxKey) =>
        assert x == Multiple(x / maxKey, maxKey) + x % maxKey;
      case Scattered =>
        var y := ReverseBytes(x as bv64);
        ScatteredDigits(x);
        assert HasDigits(x, y);
    }
  }

  lemma ScatteredDigits(x: nat)
    requires x < TwoTo64
    ensures HasDigits(x, ReverseBytes(x as bv64))
  {
    hide DigitsReversed, ReverseBytes;
    ReverseIs(x as bv64);
  }

  // --------------------------------------------------------------- sorted pairs

  datatype Pair = Pair(k: nat, i: nat)

  function PairsOf(keys: seq<nat>): (pairs: seq<Pair>)
    ensures |pairs| == |keys|
  {
    seq(|keys|, j requires 0 <= j < |keys| => Pair(keys[j], j))
  }

  predicate Ordered(s: seq<Pair>) {
    forall p, q :: 0 <= p < q < |s| ==> s[p].k <= s[q].k
  }

  /** The contract of the library's sort: the same pairs, ordered by key; ties in any order. */
  ghost predicate Sorts(s: seq<Pair>, pairs: seq<Pair>) {
    Ordered(s) && multiset(s) == multiset(pairs)
  }

  /** The number of pairs whose key passes the test. */
  function CountIf(s: seq<Pair>, f: nat -> bool): nat {
    if s == [] then 0 else CountIf(s[..|s| - 1], f) + if f(s[|s| - 1].k) then 1 else 0
  }

  lemma {:induction false} CountIfConcat(a: seq<Pair>, b: seq<Pair>, f: nat -> bool)
    ensures CountIf(a + b, f) == CountIf(a, f) + CountIf(b, f)
  {
    if b == [] {
      assert a + b == a;
    } else {
      CountIfConcat(a, b[..|b| - 1], f);
      assert (a + b)[..|a + b| - 1] == a + b[..|b| - 1];
    }
  }

  lemma CountIfRemove(s: seq<Pair>, f: nat -> bool, p: nat)
    requires p < |s|
    ensures CountIf(s, f) == CountIf(s[..p] + s[p + 1..], f) + CountIf([s[p]], f)
  {
    hide CountIf;
    CountIfConcat(s[..p], s[p + 1..], f);
    CountIfConcat(s[..p], [s[p]], f);
    CountIfConcat(s[..p] + [s[p]], s[p + 1..], f);
    assert s == s[..p] + [s[p]] + s[p + 1..];
  }

  lemma {:induction false} CountIfPermuted(s: seq<Pair>, t: seq<Pair>, f: nat -> bool)
    requires multiset(s) == multiset(t)
    ensures CountIf(s, f) == CountIf(t, f)
  {
    hide CountIf;
    if s == [] {
      assert |multiset(t)| == 0;
    } else {
      var p := Elsewhere(s, t);
      CountIfPermuted(s[..|s| - 1], t[..p] + t[p + 1..], f);
      CountIfRemove(t, f, p);
      CountIfConcat(s[..|s| - 1], [s[|s| - 1]], f);
      assert s == s[..|s| - 1] + [s[|s| - 1]];
    }
  }

  /** The place in t of the last element of s; the others are the same on both sides. */
  lemma Elsewhere(s: seq<Pair>, t: seq<Pair>) returns (p: nat)
    requires multiset(s) == multiset(t) && s != []
    ensures p < |t| && t[p] == s[|s| - 1] && multiset(s[..|s| - 1]) == multiset(t[..p] + t[p + 1..])
  {
    var last := s[|s| - 1];
    assert s == s[..|s| - 1] + [last];
    assert last in multiset(t);
    p :| 0 <= p < |t| && t[p] == last;
    assert t == t[..p] + [t[p]] + t[p + 1..];
    assert multiset(t[..p] + t[p + 1..]) == multiset(t) - multiset{last};
  }

  /** What a sorted list of pairs says about the keys. */
  ghost predicate Indexed(s: seq<Pair>, keys: seq<nat>) {
    && |s| == |keys|
    && Ordered(s)
    && (forall p :: 0 <= p < |s| ==> s[p].i < |keys| && s[p].k == keys[s[p].i])
    && (forall p, q :: 0 <= p < q < |s| ==> s[p].i != s[q].i)
    && (forall j :: 0 <= j < |keys| ==> Pair(keys[j], j) in s)
  }

  lemma SortIsIndexed(s: seq<Pair>, keys: seq<nat>)
    requires Sorts(s, PairsOf(keys))
    ensures Indexed(s, keys)
  {
    var pairs := PairsOf(keys);
    assert |s| == |multiset(s)| == |multiset(pairs)|;
    forall p | 0 <= p < |s|
      ensures s[p].i < |keys| && s[p].k == keys[s[p].i]
    {
      assert s[p] in multiset(s);
      assert s[p] in pairs;
    }
    forall j | 0 <= j < |keys|
      ensures Pair(keys[j], j) in s
    {
      assert pairs[j] in multiset(pairs);
    }
    forall p, q | 0 <= p < q < |s|
      ensures s[p].i != s[q].i
    {
      if s[p] == s[q] {
        Twice(s, p, q);
        OnceIn(keys, s[p]);
      }
    }
  }

  lemma Twice(s: seq<Pair>, p: nat, q: nat)
    requires p < q < |s| && s[p] == s[q]
    ensures multiset(s)[s[p]] >= 2
  {
    assert s == s[..p] + [s[p]] + s[p + 1..q] + [s[q]] + s[q + 1..];
  }

  lemma {:induction false} OnceIn(keys: seq<nat>, x: Pair)
    ensures multiset(PairsOf(keys))[x] <= 1
    ensures x.i >= |keys| ==> multiset(PairsOf(keys))[x] == 0
  {
    if keys != [] {
      var front, last := keys[..|keys| - 1], |keys| - 1;
      OnceIn(front, x);
      assert PairsOf(keys) == PairsOf(front) + [Pair(keys[last], last)];
    }
  }

  // ------------------------------------------------------------ counting the keys

  function IsKey(x: nat): nat -> bool {
    (k: nat) => k == x
  }

  /** A count that is capped at the largest value of an integral counter type. */
  function Capped(n: nat, cap: Option<nat>): nat {
    if cap.Some? && n > cap.value then cap.value else n
  }

  lemma CountStep(s: seq<Pair>, i: nat, f: nat -> bool)
    requires i < |s|
    ensures CountIf(s[..i + 1], f) == CountIf(s[..i], f) + if f(s[i].k) then 1 else 0
  {
    assert s[..i + 1][..i] == s[..i];
  }

  lemma {:induction false} CountNone(s: seq<Pair>, x: nat)
    requires forall p :: 0 <= p < |s| ==> s[p].k != x
    ensures CountIf(s, IsKey(x)) == 0
  {
    if s != [] {
      CountNone(s[..|s| - 1], x);
    }
  }

  lemma {:induction false} CountIsMultiplicity(keys: seq<nat>, x: nat)
    ensures CountIf(PairsOf(keys), IsKey(x)) == multiset(keys)[x]
  {
    if keys != [] {
      var front, last := keys[..|keys| - 1], |keys| - 1;
      CountIsMultiplicity(front, x);
      var pairs := PairsOf(keys);
      assert pairs[..last] == PairsOf(front);
      assert keys == front + [keys[last]];
    }
  }

  /** The distinct keys of the first i pairs, the current one left out, and their counts. */
  ghost predicate Tallied(s: seq<Pair>, i: nat, curr: nat, uniq: seq<nat>, frq: seq<nat>, cap: Option<nat>)
    requires 0 < i <= |s|
  {
    && curr == s[i - 1].k && Increasing(uniq) && |frq| == |uniq|
    && (forall j :: 0 <= j < |uniq| ==> uniq[j] < curr && frq[j] == Capped(CountIf(s[..i], IsKey(uniq[j])), cap))
    && (forall j :: 0 <= j < |uniq| ==> exists p :: 0 <= p < i && s[p].k == uniq[j])
    && (forall p :: 0 <= p < i ==> s[p].k == curr || s[p].k in uniq)
  }

  lemma TallySame(s: seq<Pair>, i: nat, curr: nat, uniq: seq<nat>, frq: seq<nat>, cap: Option<nat>)
    requires Ordered(s) && 0 < i < |s| && Tallied(s, i, curr, uniq, frq, cap) && s[i].k == curr
    ensures Tallied(s, i + 1, curr, uniq, frq, cap)
  {
    forall j | 0 <= j < |uniq|
      ensures frq[j] == Capped(CountIf(s[..i + 1], IsKey(uniq[j])), cap)
    {
      CountStep(s, i, IsKey(uniq[j]));
    }
  }

  lemma TallyNext(s: seq<Pair>, i: nat, curr: nat, uniq: seq<nat>, frq: seq<nat>, cap: Option<nat>, n: nat)
    requires Ordered(s) && 0 < i < |s| && Tallied(s, i, curr, uniq, frq, cap) && s[i].k != curr
    requires n == CountIf(s[..i], IsKey(curr))
    ensures Tallied(s, i + 1, s[i].k, uniq + [curr], frq + [Capped(n, cap)], cap)
    ensures CountIf(s[..i], IsKey(s[i].k)) == 0
  {
    CountNone(s[..i], s[i].k);
    hide CountIf, Capped;
    var u, f := uniq + [curr], frq + [Capped(n, cap)];
    assert s[i - 1].k < s[i].k;
    forall j | 0 <= j < |u|
      ensures f[j] == Capped(CountIf(s[..i + 1], IsKey(u[j])), cap)
    {
      CountStep(s, i, IsKey(u[j]));
    }
    forall j | 0 <= j < |u|
      ensures exists p :: 0 <= p < i + 1 && s[p].k == u[j]
    {
      if j == |uniq| {
        assert s[i - 1].k == u[j];
      }
    }
  }

  /** uniq lists the distinct keys in increasing order; frq says how often each occurs. */
  ghost predicate Unique(keys: seq<nat>, uniq: seq<nat>, frq: seq<nat>, cap: Option<nat>) {
    && Increasing(uniq)
    && (forall x :: x in uniq <==> x in keys)
    && |frq| == |uniq|
    && (forall j :: 0 <= j < |uniq| ==> frq[j] == Capped(multiset(keys)[uniq[j]], cap))
  }

  /** A count is the number of occurrences unless that is above the cap, and then the cap. */
  lemma UniqueCounts(keys: seq<nat>, uniq: seq<nat>, frq: seq<nat>, cap: Option<nat>, j: nat)
    requires Unique(keys, uniq, frq, cap) && j < |uniq|
    ensures cap.None? || multiset(keys)[uniq[j]] <= cap.value ==> frq[j] == multiset(keys)[uniq[j]]
    ensures cap.Some? && multiset(keys)[uniq[j]] > cap.value ==> frq[j] == cap.value
  {
  }

  lemma CountSorted(s: seq<Pair>, keys: seq<nat>, x: nat)
    requires Sorts(s, PairsOf(keys))
    ensures CountIf(s, IsKey(x)) == multiset(keys)[x]
  {
    hide CountIf, PairsOf;
    CountIfPermuted(s, PairsOf(keys), IsKey(x));
    CountIsMultiplicity(keys, x);
  }

  lemma SortedKeys(s: seq<Pair>, keys: seq<nat>)
    requires Indexed(s, keys)
    ensures forall p :: 0 <= p < |s| ==> s[p].k in keys
    ensures forall x :: x in keys ==> HasKey(s, x)
  {
    forall x | x in keys
      ensures HasKey(s, x)
    {
      var j :| 0 <= j < |keys| && keys[j] == x;
      assert Pair(keys[j], j) in s;
    }
  }

  ghost predicate HasKey(s: seq<Pair>, x: nat) {
    exists p :: 0 <= p < |s| && s[p].k == x
  }

  lemma TalliedKeys(s: seq<Pair>, curr: nat, uniq: seq<nat>, frq: seq<nat>, cap: Option<nat>, x: nat)
    requires |s| > 0 && Tallied(s, |s|, curr, uniq, frq, cap)
    ensures HasKey(s, x) <==> x in uniq + [curr]
  {
    hide CountIf, Increasing;
    if x in uniq {
      var j :| 0 <= j < |uniq| && uniq[j] == x;
    }
    assert x == curr ==> s[|s| - 1].k == x;
  }

  lemma TallyDone(s: seq<Pair>, keys: seq<nat>, curr: nat, uniq: seq<nat>, frq: seq<nat>, cap: Option<nat>, n: nat)
    requires Sorts(s, PairsOf(keys)) && |s| > 0 && Tallied(s, |s|, curr, uniq, frq, cap)
    requires n == CountIf(s, IsKey(curr))
    ensures Unique(keys, uniq + [curr], frq + [Capped(n, cap)], cap)
  {
    hide CountIf, PairsOf, Sorts, Indexed, HasKey, Tallied;
    var u, f := uniq + [curr], frq + [Capped(n, cap)];
    TalliedParts(s, curr, uniq, frq, cap);
    SortIsIndexed(s, keys);
    SortedKeys(s, keys);
    forall j | 0 <= j < |u|
      ensures f[j] == Capped(multiset(keys)[u[j]], cap)
    {
      CountSorted(s, keys, u[j]);
    }
    forall x
      ensures x in u <==> x in keys
    {
      TalliedKeys(s, curr, uniq, frq, cap, x);
      if HasKey(s, x) {
        KeyInKeys(s, keys, x);
      }
    }
  }

  lemma KeyInKeys(s: seq<Pair>, keys: seq<nat>, x: nat)
    requires HasKey(s, x) && forall p :: 0 <= p < |s| ==> s[p].k in keys
    ensures x in keys
  {
  }

  lemma TalliedParts(s: seq<Pair>, curr: nat, uniq: seq<nat>, frq: seq<nat>, cap: Option<nat>)
    requires |s| > 0 && Tallied(s, |s|, curr, uniq, frq, cap)
    ensures Increasing(uniq + [curr]) && |frq| == |uniq|
    ensures forall j :: 0 <= j < |uniq| ==> frq[j] == Capped(CountIf(s, IsKey(uniq[j])), cap)
  {
    assert s[..|s|] == s;
  }

  ghost function SumOver(m: multiset<nat>, uniq: seq<nat>): nat {
    if uniq == [] then 0 else SumOver(m, uniq[..|uniq| - 1]) + m[uniq[|uniq| - 1]]
  }

  lemma {:induction false} SumOverIs(m: multiset<nat>, m': multiset<nat>, uniq: seq<nat>)
    requires forall j :: 0 <= j < |uniq| ==> m[uniq[j]] == m'[uniq[j]]
    ensures SumOver(m, uniq) == SumOver(m', uniq)
  {
    if uniq != [] {
      SumOverIs(m, m', uniq[..|uniq| - 1]);
    }
  }

  lemma {:induction false} SumIsSize(m: multiset<nat>, uniq: seq<nat>)
    requires Increasing(uniq) && forall x :: x in uniq <==> x in m
    ensures SumOver(m, uniq) == |m|
  {
    if uniq == [] {
      assert m == multiset{};
    } else {
      var front, last := uniq[..|uniq| - 1], uniq[|uniq| - 1];
      var m' := m[last := 0];
      FrontMembers(uniq);
      SumIsSize(m', front);
      SumOverIs(m, m', front);
      assert |m| == |m'| + m[last];
    }
  }

  lemma FrontMembers(uniq: seq<nat>)
    requires Increasing(uniq) && uniq != []
    ensures var front, last := uniq[..|uniq| - 1], uniq[|uniq| - 1];
            Increasing(front) && forall x :: x in front <==> x in uniq && x != last
  {
    assert uniq == uniq[..|uniq| - 1] + [uniq[|uniq| - 1]];
  }

  /** The uncapped counts add up to the number of entries. */
  lemma CountsAddUp(keys: seq<nat>, uniq: seq<nat>, frq: seq<nat>)
    requires Unique(keys, uniq, frq, None)
    ensures Total(frq) == |keys|
  {
    SumIsSize(multiset(keys), uniq);
    TotalIsSum(multiset(keys), uniq, frq);
  }

  function Total(s: seq<nat>): nat {
    if s == [] then 0 else Total(s[..|s| - 1]) + s[|s| - 1]
  }

  lemma {:induction false} TotalIsSum(m: multiset<nat>, uniq: seq<nat>, frq: seq<nat>)
    requires |frq| == |uniq| && forall j :: 0 <= j < |uniq| ==> frq[j] == m[uniq[j]]
    ensures Total(frq) == SumOver(m, uniq)
  {
    if uniq != [] {
      TotalIsSum(m, uniq[..|uniq| - 1], frq[..|frq| - 1]);
    }
  }

  // ---------------------------------------------------------------- the dictionary

  /** r is 0 for a key outside the dictionary and otherwise one more than its place. */
  ghost predicate IsRank(dict: seq<nat>, x: nat, r: nat) {
    if r == 0 then x !in dict else r <= |dict| && dict[r - 1] == x
  }

  function InDict(dict: seq<nat>): nat -> bool {
    (k: nat) => k in dict
  }

  /** The walk over the dictionary (up to d) and the sorted pairs (up to p). */
  ghost predicate Walked(s: seq<Pair>, dict: seq<nat>, remapped: seq<nat>, d: nat, p: nat, matched: nat) {
    && d <= |dict| && p <= |s| && |remapped| == |s|
    && (forall q :: 0 <= q < |s| ==> s[q].i < |remapped|)
    && (forall q :: 0 <= q < p ==> IsRank(dict, s[q].k, remapped[s[q].i]))
    && (forall q :: p <= q < |s| ==> remapped[s[q].i] == 0)
    && (forall e, q :: 0 <= e < d && p <= q < |s| ==> dict[e] < s[q].k)
    && matched == CountIf(s[..p], InDict(dict))
  }

  lemma WalkDict(s: seq<Pair>, dict: seq<nat>, remapped: seq<nat>, d: nat, p: nat, matched: nat)
    requires Ordered(s) && Walked(s, dict, remapped, d, p, matched) && d < |dict| && p < |s| && dict[d] < s[p].k
    ensures Walked(s, dict, remapped, d + 1, p, matched)
  {
  }

  lemma WalkPair(s: seq<Pair>, keys: seq<nat>, dict: seq<nat>, remapped: seq<nat>, d: nat, p: nat, matched: nat)
    requires Indexed(s, keys) && Increasing(dict) && Walked(s, dict, remapped, d, p, matched)
    requires d < |dict| && p < |s| && dict[d] >= s[p].k
    ensures dict[d] == s[p].k ==> Walked(s, dict, remapped[s[p].i := d + 1], d, p + 1, matched + 1)
    ensures dict[d] != s[p].k ==> Walked(s, dict, remapped, d, p + 1, matched)
  {
    CountStep(s, p, InDict(dict));
    hide CountIf;
    if dict[d] != s[p].k {
      NotInDict(dict, d, s[p].k);
    } else {
      assert forall q :: 0 <= q < |s| && q != p ==> s[q].i != s[p].i;
    }
  }

  lemma NotInDict(dict: seq<nat>, d: nat, x: nat)
    requires Increasing(dict) && d <= |dict| && (forall e :: 0 <= e < d ==> dict[e] < x)
    requires d < |dict| ==> dict[d] > x
    ensures x !in dict
  {
  }

  /** remapped holds the rank of every entry's key, and matched counts the entries in the dictionary. */
  ghost predicate Remapped(keys: seq<nat>, dict: seq<nat>, remapped: seq<nat>, matched: nat) {
    && |remapped| == |keys|
    && (forall j :: 0 <= j < |keys| ==> IsRank(dict, keys[j], remapped[j]))
    && matched == Kept(remapped, |remapped|)
  }

  /** How many of the first n entries stay. */
  function Kept(remapped: seq<nat>, n: nat): (k: nat)
    requires n <= |remapped|
    ensures k <= n
  {
    if n == 0 then 0 else Kept(remapped, n - 1) + if remapped[n - 1] != 0 then 1 else 0
  }

  lemma {:induction false} KeptIsCount(keys: seq<nat>, dict: seq<nat>, remapped: seq<nat>, n: nat)
    requires n <= |remapped| == |keys| && forall j :: 0 <= j < |keys| ==> IsRank(dict, keys[j], remapped[j])
    ensures Kept(remapped, n) == CountIf(PairsOf(keys)[..n], InDict(dict))
  {
    if n > 0 {
      KeptIsCount(keys, dict, remapped, n - 1);
      CountStep(PairsOf(keys), n - 1, InDict(dict));
      assert IsRank(dict, keys[n - 1], remapped[n - 1]);
    }
  }

  lemma {:induction false} CountRest(s: seq<Pair>, dict: seq<nat>, p: nat)
    requires p <= |s| && forall q :: p <= q < |s| ==> s[q].k !in dict
    ensures CountIf(s, InDict(dict)) == CountIf(s[..p], InDict(dict))
  {
    if p < |s| {
      CountRest(s[..|s| - 1], dict, p);
      assert s[..|s| - 1][..p] == s[..p];
    } else {
      assert s[..p] == s;
    }
  }

  lemma WalkDone(s: seq<Pair>, keys: seq<nat>, dict: seq<nat>, remapped: seq<nat>, d: nat, p: nat, matched: nat)
    requires Sorts(s, PairsOf(keys)) && Increasing(dict) && Walked(s, dict, remapped, d, p, matched)
    requires d == |dict| || p == |s|
    ensures Remapped(keys, dict, remapped, matched)
  {
    SortIsIndexed(s, keys);
    forall q | p <= q < |s|
      ensures s[q].k !in dict
    {
      NotInDict(dict, d, s[q].k);
    }
    forall j | 0 <= j < |keys|
      ensures IsRank(dict, keys[j], remapped[j])
    {
      assert Pair(keys[j], j) in s;
      var q :| 0 <= q < |s| && s[q] == Pair(keys[j], j);
    }
    CountRest(s, dict, p);
    CountIfPermuted(s, PairsOf(keys), InDict(dict));
    KeptIsCount(keys, dict, remapped, |keys|);
    assert PairsOf(keys)[..|keys|] == PairsOf(keys);
    hide CountIf, Kept, Sorts, Indexed, Walked, IsRank;
  }
}
