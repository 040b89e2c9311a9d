/**
 * The tracker's topology: a heap-shaped tree over the workers, a ring that
 * walks the same tree, and the renumbering that puts the ring in rank order.
 */
module Tracker {
  import opened Sequences
  import opened Arithmetic

  /** The sequence lists every member of the set, once. */
  ghost predicate Lists(s: seq<nat>, members: set<nat>) {
    NoRepeats(s) && forall v :: v in s <==> v in members
  }

  predicate IsRank(v: nat, n: nat) {
    0 <= v < n
  }

  function Below(n: nat): set<nat> {
    set v: nat | v < n && IsRank(v, n)
  }

  // ------------------------------------------------------------ the heap tree

  function Neighbor(rank: nat, nslave: nat): seq<nat> {
    var rank := rank + 1;
    (if rank > 1 then [rank / 2 - 1] else [])
    + (if rank * 2 - 1 < nslave then [rank * 2 - 1] else [])
    + (if rank * 2 < nslave then [rank * 2] else [])
  }

  function Parent(r: nat): int {
    (r + 1) / 2 - 1
  }

  /** One is the parent of the other. */
  ghost predicate TreeLinked(a: nat, b: nat, n: nat) {
    a < n && b < n && (Parent(a) == b || Parent(b) == a)
  }

  /** The neighbour list of a rank holds its parent and its children, each once. */
  lemma NeighborLinks(rank: nat, n: nat)
    requires rank < n
    ensures NoRepeats(Neighbor(rank, n))
    ensures forall v: nat :: v in Neighbor(rank, n) <==> TreeLinked(rank, v, n)
  {
    forall v: nat
      ensures v in Neighbor(rank, n) <==> TreeLinked(rank, v, n)
    {
      if 0 <= v < n {
        assert Parent(v) == rank <==> v == 2 * rank + 1 || v == 2 * rank + 2;
      }
    }
  }

  /** r is v or an ancestor of v. */
  ghost predicate Above(r: nat, v: nat) {
    v == r || (v > r && Above(r, Parent(v)))
  }

  ghost function Subtree(r: nat, n: nat): set<nat> {
    set v: nat | v < n && Above(r, v)
  }

  lemma {:induction false} AboveLarger(r: nat, v: nat)
    ensures Above(r, v) ==> v >= r
    ensures Above(0, v)
  {
    if v > 0 {
      AboveLarger(r, Parent(v));
    }
  }

  /** Below a node come its two children's subtrees, which do not meet. */
  lemma {:induction false} AboveSplits(r: nat, v: nat)
    ensures Above(r, v) <==> v == r || Above(2 * r + 1, v) || Above(2 * r + 2, v)
    ensures !(Above(2 * r + 1, v) && Above(2 * r + 2, v))
    ensures Above(2 * r + 1, v) || Above(2 * r + 2, v) ==> v > r
  {
    AboveLarger(2 * r + 1, v);
    AboveLarger(2 * r + 2, v);
    if v > r {
      AboveSplits(r, Parent(v));
    }
  }

  method GetTree(nslave: nat) returns (tree: map<nat, seq<nat>>, parent: map<nat, int>)
    ensures HeapTree(tree, parent, nslave)
  {
    tree, parent := map[], map[];
    for r := 0 to nslave
      invariant tree.Keys == Below(r) && parent.Keys == Below(r)
      invariant forall v: nat :: v < r ==> tree[v] == Neighbor(v, nslave) && parent[v] == Parent(v)
    {
      tree := tree[r := Neighbor(r, nslave)];
      parent := parent[r := Parent(r)];
    }
  }

  ghost predicate HeapTree(tree: map<nat, seq<nat>>, parent: map<nat, int>, n: nat) {
    && tree.Keys == Below(n)
    && parent.Keys == Below(n)
    && forall v: nat :: v < n ==> tree[v] == Neighbor(v, n) && parent[v] == Parent(v)
  }

  // ------------------------------------------------------------------ the ring

  function Reversed(s: seq<nat>): seq<nat> {
    seq(|s|, i requires 0 <= i < |s| => s[|s| - 1 - i])
  }

  lemma ReversedLists(s: seq<nat>, members: set<nat>)
    requires Lists(s, members)
    ensures Lists(Reversed(s), members)
  {
    var t := Reversed(s);
    forall v | v in s
      ensures v in t
    {
      var i :| 0 <= i < |s| && s[i] == v;
      assert t[|s| - 1 - i] == v;
    }
  }

  lemma ReversedLast(s: seq<nat>)
    requires s != []
    ensures Reversed(s) != [] && Reversed(s)[|Reversed(s)| - 1] == s[0]
  {
  }

  lemma NotTheLast(all: set<nat>, todo: set<nat>, cnt: nat)
    requires todo <= all && cnt == |all - todo| && cnt != |all|
    ensures todo != {}
  {
    assert todo == {} ==> all - todo == all;
  }

  lemma ListsJoin(s: seq<nat>, a: set<nat>, t: seq<nat>, b: set<nat>)
    requires Lists(s, a) && Lists(t, b) && a !! b
    ensures Lists(s + t, a + b)
  {
    var st := s + t;
    forall i, j | 0 <= i < j < |st|
      ensures st[i] != st[j]
    {
      if i < |s| <= j {
        assert s[i] in s && t[j - |s|] in t;
      }
    }
  }

  ghost predicate IsChild(v: nat, r: nat) {
    v == 2 * r + 1 || v == 2 * r + 2
  }

  ghost function Children(r: nat, n: nat): set<nat> {
    set v: nat | v < n && IsChild(v, r)
  }

  lemma ChildIs(r: nat, n: nat, v: nat)
    requires r < n
    ensures TreeLinked(r, v, n) && v != Parent(r) <==> v < n && IsChild(v, r)
  {
  }

  lemma ChildrenOf(r: nat, n: nat)
    requires r < n
    ensures (set v | v in Neighbor(r, n) && v != Parent(r)) == Children(r, n)
  {
    NeighborLinks(r, n);
    hide Neighbor;
    forall v: nat
      ensures v in Neighbor(r, n) && v != Parent(r) <==> v in Children(r, n)
    {
      ChildIs(r, n, v);
    }
  }

  ghost predicate BelowSome(done: set<nat>, v: nat) {
    exists c: nat :: c in done && Above(c, v)
  }

  /** The nodes below the children that were already visited. */
  ghost function Visited(done: set<nat>, n: nat): set<nat> {
    set v: nat | v < n && BelowSome(done, v)
  }

  lemma VisitedStep(r: nat, n: nat, done: set<nat>, c: nat)
    requires r < n && done <= Children(r, n) && c in Children(r, n) && c !in done
    ensures Visited(done + {c}, n) == Visited(done, n) + Subtree(c, n)
    ensures ({r} + Visited(done, n)) !! Subtree(c, n)
  {
    forall v: nat
      ensures !(Above(c, v) && v in {r} + Visited(done, n))
    {
      AboveSplits(r, v);
    }
  }

  lemma VisitedAll(r: nat, n: nat)
    requires r < n
    ensures {r} + Visited(Children(r, n), n) == Subtree(r, n)
  {
    forall v: nat | v < n
      ensures v in {r} + Visited(Children(r, n), n) <==> v in Subtree(r, n)
    {
      AboveSplits(r, v);
      AboveLarger(2 * r + 1, v);
      AboveLarger(2 * r + 2, v);
      assert 2 * r + 1 <= v ==> 2 * r + 1 in Children(r, n);
      assert 2 * r + 2 <= v ==> 2 * r + 2 in Children(r, n);
    }
  }

  /**
   * The list starts at r and has every node of its subtree once, whatever the
   * order in which the children come out of their set.
   */
  method FindShareRing(tree: map<nat, seq<nat>>, parent: map<nat, int>, r: nat) returns (rlst: seq<nat>)
    requires HeapTree(tree, parent, |tree|) && r < |tree|
    ensures rlst != [] && rlst[0] == r && Lists(rlst, Subtree(r, |tree|))
    ensures |rlst| > 1 ==> IsChild(rlst[|rlst| - 1], r)
    decreases |tree| - r
  {
    hide Lists, Visited, Subtree, Above, HeapTree, Reversed, Children, IsChild;
    ghost var n := |tree|;
    HeapAt(tree, parent, n, r);
    var nset := set v | v in tree[r];
    var cset := set v | v in nset && v != parent[r];
    VisitedAll(r, n);
    rlst := [r];
    if |cset| == 0 {
      assert Children(r, n) == {};
      FirstListed(r, n);
      return;
    }
    var cnt := 0;
    var todo := cset;
    FirstListed(r, n);
    assert cset - todo == {};
    while todo != {}
      invariant todo <= cset && cnt == |cset - todo|
      invariant rlst != [] && rlst[0] == r && Lists(rlst, {r} + Visited(cset - todo, n))
      invariant todo == {} ==> IsChild(rlst[|rlst| - 1], r)
    {
      ghost var done := cset - todo;
      SomeMember(todo);
      var v :| v in todo;
      IsAChild(r, n, v);
      TakeOne(cset, todo, v);
      var vlst := FindShareRing(tree, parent, v);
      todo := todo - {v};
      cnt := cnt + 1;
      if cnt == |cset| {
        ReversedLists(vlst, Subtree(v, n));
        ReversedLast(vlst);
        vlst := Reversed(vlst);
      } else {
        NotTheLast(cset, todo, cnt);
      }
      ListsChild(r, n, done, v, rlst, vlst);
      rlst := rlst + vlst;
    }
    assert cset - todo == Children(r, n);
    assert {r} + Visited(cset - todo, n) == Subtree(r, n);
  }

  lemma ListsChild(r: nat, n: nat, done: set<nat>, c: nat, rlst: seq<nat>, vlst: seq<nat>)
    requires r < n && done <= Children(r, n) && c in Children(r, n) && c !in done
    requires Lists(rlst, {r} + Visited(done, n)) && Lists(vlst, Subtree(c, n))
    ensures Lists(rlst + vlst, {r} + Visited(done + {c}, n))
  {
    hide Lists, Visited, Subtree, Children;
    VisitedStep(r, n, done, c);
    ListsJoin(rlst, {r} + Visited(done, n), vlst, Subtree(c, n));
    assert {r} + Visited(done, n) + Subtree(c, n) == {r} + Visited(done + {c}, n);
  }

  lemma TakeOne(all: set<nat>, todo: set<nat>, v: nat)
    requires todo <= all && v in todo
    ensures all - (todo - {v}) == (all - todo) + {v}
    ensures |all - (todo - {v})| == |all - todo| + 1
  {
    assert all - (todo - {v}) == (all - todo) + {v};
  }

  lemma SomeMember(s: set<nat>)
    requires s != {}
    ensures exists v :: v in s
  {
  }

  lemma IsAChild(r: nat, n: nat, v: nat)
    requires v in Children(r, n)
    ensures r < v < n && IsChild(v, r)
  {
  }

  lemma HeapAt(tree: map<nat, seq<nat>>, parent: map<nat, int>, n: nat, r: nat)
    requires HeapTree(tree, parent, n) && r < n
    ensures r in tree && r in parent
    ensures (set v | v in tree[r] && v != parent[r]) == Children(r, n)
  {
    ChildrenOf(r, n);
  }

  lemma FirstListed(r: nat, n: nat)
    ensures Lists([r], {r} + Visited({}, n))
  {
  }

  // ------------------------------------------------------------- the ring map

  lemma {:induction false} ListsLength(s: seq<nat>, members: set<nat>)
    requires Lists(s, members)
    ensures |s| == |members|
  {
    if s == [] {
      assert forall v | v in members :: v in s;
    } else {
      var last := s[|s| - 1];
      var front := s[..|s| - 1];
      assert s == front + [last];
      ListsLength(front, members - {last});
    }
  }

  lemma {:induction false} BelowSize(n: nat)
    ensures |Below(n)| == n
  {
    if n > 0 {
      BelowSize(n - 1);
      assert forall v: nat :: v in Below(n) <==> v in Below(n - 1) + {n - 1};
      assert Below(n) == Below(n - 1) + {n - 1};
    } else {
      assert Below(n) == {};
    }
  }

  lemma WholeTree(n: nat)
    ensures Subtree(0, n) == Below(n)
  {
    forall v: nat
      ensures Above(0, v)
    {
      AboveLarger(0, v);
    }
  }

  /** The neighbours of the i-th node of the ring list are the nodes beside it, around the end. */
  ghost predicate RingAt(ring: map<nat, (nat, nat)>, rlst: seq<nat>, i: int)
    requires 0 <= i < |rlst|
  {
    var n := |rlst|;
    rlst[i] in ring && ring[rlst[i]] == (rlst[(i + n - 1) % n], rlst[(i + 1) % n])
  }

  lemma KeysAre<K(!new), V>(m: map<K, V>, members: set<K>)
    requires forall v :: v in m <==> v in members
    ensures m.Keys == members
  {
  }

  lemma ListedKeys<T>(s: seq<nat>, members: set<nat>, m: map<nat, T>)
    requires Lists(s, members) && forall v :: v in m <==> v in s
    ensures m.Keys == members
  {
    KeysAre(m, members);
  }

  lemma RingGrows(before: map<nat, (nat, nat)>, after: map<nat, (nat, nat)>, s: seq<nat>, r: nat)
    requires NoRepeats(s) && r < |s| && (forall i :: 0 <= i < r ==> RingAt(before, s, i))
    requires forall v :: v in before <==> v in s[..r]
    requires after == before[s[r] := (s[(r + |s| - 1) % |s|], s[(r + 1) % |s|])]
    ensures forall i :: 0 <= i < r + 1 ==> RingAt(after, s, i)
    ensures forall v :: v in after <==> v in s[..r + 1]
  {
    assert s[..r + 1] == s[..r] + [s[r]];
    forall i | 0 <= i < r
      ensures RingAt(after, s, i)
    {
      assert RingAt(before, s, i) && s[i] != s[r];
    }
  }

  lemma HeapRoot(tree: map<nat, seq<nat>>, parent: map<nat, int>)
    requires HeapTree(tree, parent, |tree|) && |tree| > 0
    ensures 0 in parent && parent[0] == -1
  {
    assert IsRank(0, |tree|);
  }

  /** Both asserts of the original hold; the ring walks all ranks, starting at rank 0. */
  method GetRing(tree: map<nat, seq<nat>>, parent: map<nat, int>)
    returns (ring: map<nat, (nat, nat)>, rlst: seq<nat>)
    requires HeapTree(tree, parent, |tree|) && |tree| > 0
    ensures |rlst| == |tree| && rlst[0] == 0 && Lists(rlst, Below(|tree|))
    ensures ring.Keys == Below(|tree|) && forall i :: 0 <= i < |rlst| ==> RingAt(ring, rlst, i)
    ensures |rlst| > 1 ==> IsChild(rlst[|rlst| - 1], 0)
  {
    hide HeapTree, Subtree, Below, RingAt, NoRepeats, IsChild;
    var nslave := |tree|;
    HeapRoot(tree, parent);
    assert parent[0] == -1;
    var lst := FindShareRing(tree, parent, 0);
    WholeTree(nslave);
    BelowSize(nslave);
    ListsLength(lst, Below(nslave));
    assert |lst| == |tree|;
    rlst := lst;
    ring := map[];
    for r := 0 to nslave
      invariant forall v :: v in ring <==> v in lst[..r]
      invariant forall i :: 0 <= i < r ==> RingAt(ring, lst, i)
    {
      ghost var before := ring;
      var rprev := (r + nslave - 1) % nslave;
      var rnext := (r + 1) % nslave;
      ring := ring[lst[r] := (lst[rprev], lst[rnext])];
      RingGrows(before, ring, lst, r);
    }
    assert lst[..nslave] == lst;
    ListedKeys(lst, Below(nslave), ring);
  }

  // ---------------------------------------------------------- the renumbering

  /** rmap gives the i-th node of the ring list the number i. */
  ghost predicate Numbers(rmap: map<nat, nat>, rlst: seq<nat>) {
    && (forall i :: 0 <= i < |rlst| ==> rlst[i] in rmap && rmap[rlst[i]] == i)
    && (forall v :: v in rmap ==> 0 <= rmap[v] < |rlst| && rlst[rmap[v]] == v)
  }

  lemma Small(i: nat, n: nat)
    requires i < n
    ensures i % n == i
  {
  }

  lemma NumberFirst(rlst: seq<nat>)
    requires |rlst| > 0
    ensures Numbers(map[rlst[0] := 0], rlst[..1]) && rlst[..|rlst|] == rlst
  {
  }

  lemma NumberStep(rmap: map<nat, nat>, rlst: seq<nat>, i: nat)
    requires i < |rlst| && NoRepeats(rlst) && Numbers(rmap, rlst[..i])
    ensures Numbers(rmap[rlst[i] := i], rlst[..i + 1])
  {
    var s := rlst[..i + 1];
    assert forall j :: 0 <= j < i ==> s[j] == rlst[..i][j] && s[j] != rlst[i];
  }

  /** Follows the ring from rank 0 and numbers the nodes as they come. */
  method Renumber(ring: map<nat, (nat, nat)>, nslave: nat, ghost rlst: seq<nat>) returns (rmap: map<nat, nat>)
    requires |rlst| == nslave > 0 && rlst[0] == 0 && Lists(rlst, Below(nslave))
    requires forall i :: 0 <= i < |rlst| ==> RingAt(ring, rlst, i)
    ensures Numbers(rmap, rlst)
  {
    hide NoRepeats, Numbers, Below;
    rmap := map[0 := 0];
    var k := 0;
    NumberFirst(rlst);
    for i := 0 to nslave - 1
      invariant k == rlst[i] && Numbers(rmap, rlst[..i + 1])
    {
      assert RingAt(ring, rlst, i);
      Small(i + 1, nslave);
      k := ring[k].1;
      NumberStep(rmap, rlst, i + 1);
      rmap := rmap[k := i + 1];
    }
    assert rlst[..nslave] == rlst;
  }

  /** The list under new numbers: to names by position in rlst what from names by rank. */
  ghost predicate Renamed(rlst: seq<nat>, from: seq<nat>, to: seq<nat>) {
    |from| == |to| && forall i :: 0 <= i < |from| ==> to[i] < |rlst| && rlst[to[i]] == from[i]
  }

  function Beside(i: nat, n: nat): (nat, nat)
    requires n > 0
  {
    ((i + n - 1) % n, (i + 1) % n)
  }

  /** The parent of the node numbered i, under new numbers. */
  ghost predicate ParentNamed(rlst: seq<nat>, i: nat, p: int)
    requires i < |rlst|
  {
    if rlst[i] == 0 then p == -1 else 0 <= p < |rlst| && rlst[p] == Parent(rlst[i])
  }

  ghost predicate LinkMap(tree: map<nat, seq<nat>>, parent: map<nat, int>, ring: map<nat, (nat, nat)>, rlst: seq<nat>) {
    var n := |rlst|;
    && tree.Keys == parent.Keys == ring.Keys == Below(n)
    && forall i: nat :: i < n ==>
         ring[i] == Beside(i, n) && Renamed(rlst, Neighbor(rlst[i], n), tree[i]) && ParentNamed(rlst, i, parent[i])
  }

  /** The ring under new numbers; the entries may come in any order. */
  method RenumberRing(walk: map<nat, (nat, nat)>, rmap: map<nat, nat>, ghost rlst: seq<nat>)
    returns (ring: map<nat, (nat, nat)>)
    requires |rlst| > 0 && Lists(rlst, Below(|rlst|)) && Numbers(rmap, rlst)
    requires walk.Keys == Below(|rlst|) && forall i :: 0 <= i < |rlst| ==> RingAt(walk, rlst, i)
    ensures ring.Keys == Below(|rlst|) && forall i: nat :: i < |rlst| ==> ring[i] == Beside(i, |rlst|)
  {
    ghost var n := |rlst|;
    hide NoRepeats, Numbers, Beside;
    ring := map[];
    var todo := walk.Keys;
    while todo != {}
      invariant todo <= walk.Keys
      invariant forall i: nat :: i in ring <==> i < n && rlst[i] !in todo
      invariant forall i: nat :: i in ring ==> ring[i] == Beside(i, n)
    {
      SomeMember(todo);
      var k :| k in todo;
      NumberOf(rmap, rlst, k);
      RingNumbers(walk, rmap, rlst, k);
      ring := ring[rmap[k] := (rmap[walk[k].0], rmap[walk[k].1])];
      todo := todo - {k};
    }
    KeysAre(ring, Below(n));
  }

  lemma RingNumbers(walk: map<nat, (nat, nat)>, rmap: map<nat, nat>, rlst: seq<nat>, k: nat)
    requires |rlst| > 0 && Numbers(rmap, rlst) && k in rmap && RingAt(walk, rlst, rmap[k])
    ensures k in walk && walk[k].0 in rmap && walk[k].1 in rmap
    ensures (rmap[walk[k].0], rmap[walk[k].1]) == Beside(rmap[k], |rlst|)
  {
  }

  /** The tree under new numbers. */
  method RenumberTree(heap: map<nat, seq<nat>>, rmap: map<nat, nat>, ghost rlst: seq<nat>)
    returns (tree: map<nat, seq<nat>>)
    requires Lists(rlst, Below(|rlst|)) && Numbers(rmap, rlst)
    requires heap.Keys == Below(|rlst|) && forall k: nat :: k in heap ==> heap[k] == Neighbor(k, |rlst|)
    ensures tree.Keys == Below(|rlst|)
    ensures forall i: nat :: i < |rlst| ==> Renamed(rlst, Neighbor(rlst[i], |rlst|), tree[i])
  {
    hide Renamed, Neighbor, NoRepeats, Numbers;
    ghost var n := |rlst|;
    tree := map[];
    var todo := heap.Keys;
    while todo != {}
      invariant todo <= heap.Keys
      invariant forall i: nat :: i in tree <==> i < n && rlst[i] !in todo
      invariant forall i: nat :: i in tree ==> Renamed(rlst, Neighbor(rlst[i], n), tree[i])
    {
      SomeMember(todo);
      var k :| k in todo;
      NumberOf(rmap, rlst, k);
      NeighborLinks(k, n);
      var links := Rename(heap[k], rmap, rlst);
      tree := tree[rmap[k] := links];
      todo := todo - {k};
    }
    KeysAre(tree, Below(n));
  }

  method Rename(links: seq<nat>, rmap: map<nat, nat>, ghost rlst: seq<nat>) returns (named: seq<nat>)
    requires Lists(rlst, Below(|rlst|)) && Numbers(rmap, rlst)
    requires forall v :: v in links ==> v < |rlst|
    ensures Renamed(rlst, links, named)
  {
    named := [];
    for i := 0 to |links|
      invariant Renamed(rlst, links[..i], named)
    {
      assert links[i] in links;
      NumberOf(rmap, rlst, links[i]);
      named := named + [rmap[links[i]]];
    }
    assert links[..|links|] == links;
  }

  /** The number of the parent of rank k. */
  method NumberAbove(up: map<nat, int>, rmap: map<nat, nat>, ghost rlst: seq<nat>, k: nat) returns (p: int)
    requires Lists(rlst, Below(|rlst|)) && Numbers(rmap, rlst) && k < |rlst|
    requires k in up && up[k] == Parent(k)
    ensures k in rmap && rmap[k] < |rlst| && ParentNamed(rlst, rmap[k], p)
  {
    hide NoRepeats, Numbers;
    NumberOf(rmap, rlst, k);
    if k == 0 {
      return -1;
    }
    var above: nat := up[k];
    NumberOf(rmap, rlst, above);
    p := rmap[above];
  }

  /** The parents under new numbers. */
  method RenumberParents(up: map<nat, int>, rmap: map<nat, nat>, ghost rlst: seq<nat>) returns (parent: map<nat, int>)
    requires Lists(rlst, Below(|rlst|)) && Numbers(rmap, rlst)
    requires up.Keys == Below(|rlst|) && forall k: nat :: k in up ==> up[k] == Parent(k)
    ensures parent.Keys == Below(|rlst|)
    ensures forall i: nat :: i < |rlst| ==> ParentNamed(rlst, i, parent[i])
  {
    hide NoRepeats, Numbers, ParentNamed;
    ghost var n := |rlst|;
    parent := map[];
    var todo := up.Keys;
    while todo != {}
      invariant todo <= up.Keys
      invariant forall i: nat :: i in parent <==> i < n && rlst[i] !in todo
      invariant forall i: nat :: i in parent ==> ParentNamed(rlst, i, parent[i])
    {
      SomeMember(todo);
      var k :| k in todo;
      NumberOf(rmap, rlst, k);
      var p := NumberAbove(up, rmap, rlst, k);
      parent := parent[rmap[k] := p];
      todo := todo - {k};
    }
    KeysAre(parent, Below(n));
  }

  lemma NumberOf(rmap: map<nat, nat>, rlst: seq<nat>, k: nat)
    requires Lists(rlst, Below(|rlst|)) && Numbers(rmap, rlst) && k < |rlst|
    ensures k in rmap && rmap[k] < |rlst| && rlst[rmap[k]] == k
    ensures forall i: nat :: i < |rlst| && rlst[i] == k ==> i == rmap[k]
  {
    assert k in Below(|rlst|);
    assert k in rlst;
  }

  /**
   * The links handed to the workers. The ring is in rank order, and the tree
   * and the parents are those of the heap tree under a renumbering that fixes 0.
   */
  method GetLinkMap(nslave: nat)
    returns (tree: map<nat, seq<nat>>, parent: map<nat, int>, ring: map<nat, (nat, nat)>, rlst: seq<nat>)
    requires nslave > 0
    ensures |rlst| == nslave && rlst[0] == 0 && Lists(rlst, Below(nslave))
    ensures LinkMap(tree, parent, ring, rlst)
    ensures nslave > 1 ==> IsChild(rlst[nslave - 1], 0)
  {
    hide IsChild, Lists, Numbers, RingAt, Neighbor, Below, Renamed, ParentNamed;
    var heap, up := GetTree(nslave);
    BelowSize(nslave);
    HeapEntries(heap, up, nslave);
    var walk;
    walk, rlst := GetRing(heap, up);
    var rmap := Renumber(walk, nslave, rlst);
    ring := RenumberRing(walk, rmap, rlst);
    tree := RenumberTree(heap, rmap, rlst);
    parent := RenumberParents(up, rmap, rlst);
  }

  lemma HeapEntries(tree: map<nat, seq<nat>>, parent: map<nat, int>, n: nat)
    requires HeapTree(tree, parent, n)
    ensures forall k: nat :: k in tree ==> tree[k] == Neighbor(k, n)
    ensures forall k: nat :: k in parent ==> parent[k] == Parent(k)
    ensures |tree| == |Below(n)|
  {
  }

  // --------------------------------------------- what the workers are promised

  lemma LinksAt(tree: map<nat, seq<nat>>, parent: map<nat, int>, ring: map<nat, (nat, nat)>, rlst: seq<nat>, i: nat)
    requires LinkMap(tree, parent, ring, rlst) && Lists(rlst, Below(|rlst|)) && i < |rlst|
    ensures i in tree && i in parent && i in ring && rlst[i] < |rlst|
    ensures ring[i] == Beside(i, |rlst|)
    ensures Renamed(rlst, Neighbor(rlst[i], |rlst|), tree[i]) && ParentNamed(rlst, i, parent[i])
  {
    hide Neighbor, Renamed, ParentNamed, Beside;
    assert rlst[i] in rlst && i in Below(|rlst|);
  }

  /** On the ring rank i stands between rank i - 1 and rank i + 1, and the last rank before the first. */
  lemma RingInOrder(tree: map<nat, seq<nat>>, parent: map<nat, int>, ring: map<nat, (nat, nat)>, rlst: seq<nat>, i: nat)
    requires LinkMap(tree, parent, ring, rlst) && Lists(rlst, Below(|rlst|)) && i < |rlst|
    ensures i in ring && ring[i] == (if i == 0 then |rlst| - 1 else i - 1, if i == |rlst| - 1 then 0 else i + 1)
  {
    hide LinkMap, Lists, Beside, Renamed, ParentNamed, Neighbor, Below;
    LinksAt(tree, parent, ring, rlst, i);
    BesideIs(i, |rlst|);
  }

  /** The ring closes over a link of the tree: the last rank is a child of rank 0. */
  lemma ClosesOverTree(tree: map<nat, seq<nat>>, parent: map<nat, int>, ring: map<nat, (nat, nat)>, rlst: seq<nat>)
    requires LinkMap(tree, parent, ring, rlst) && Lists(rlst, Below(|rlst|)) && |rlst| > 1
    requires rlst[0] == 0 && IsChild(rlst[|rlst| - 1], 0)
    ensures |rlst| - 1 in parent && parent[|rlst| - 1] == 0
  {
    hide LinkMap, Below, Renamed, Neighbor;
    var n := |rlst|;
    LinksAt(tree, parent, ring, rlst, n - 1);
    var p := parent[n - 1];
    assert rlst[n - 1] != 0;
    assert Parent(rlst[n - 1]) == 0;
    assert rlst[p] == rlst[0];
  }

  /** A node of the heap tree, going up d times. */
  ghost function Ancestor(v: nat, d: nat): nat {
    if d == 0 || v == 0 then v else Ancestor(Parent(v), d - 1)
  }

  ghost function Pow2(d: nat): nat {
    if d == 0 then 1 else 2 * Pow2(d - 1)
  }

  /** The tree is shallow: from rank v the root is d steps up with 2 to the d at most v + 1. */
  lemma {:induction false} ShallowTree(v: nat) returns (d: nat)
    ensures Ancestor(v, d) == 0 && Pow2(d) <= v + 1
  {
    d := 0;
    if v > 0 {
      d := ShallowTree(Parent(v));
      d := d + 1;
    }
  }

  lemma BesideIs(i: nat, n: nat)
    requires i < n
    ensures Beside(i, n) == (if i == 0 then n - 1 else i - 1, if i == n - 1 then 0 else i + 1)
  {
    Wrapped(i + n - 1, n);
    Wrapped(i + 1, n);
  }

  lemma RenamedMember(rlst: seq<nat>, from: seq<nat>, to: seq<nat>, b: nat)
    requires NoRepeats(rlst) && Renamed(rlst, from, to) && b < |rlst|
    ensures b in to <==> rlst[b] in from
  {
    if b in to {
      var i :| 0 <= i < |to| && to[i] == b;
      assert from[i] == rlst[b];
    }
    if rlst[b] in from {
      var i :| 0 <= i < |from| && from[i] == rlst[b];
      assert rlst[to[i]] == rlst[b];
    }
  }

  lemma LinkedBoth(tree: map<nat, seq<nat>>, parent: map<nat, int>, ring: map<nat, (nat, nat)>, rlst: seq<nat>,
                   a: nat, b: nat)
    requires LinkMap(tree, parent, ring, rlst) && Lists(rlst, Below(|rlst|)) && a < |rlst| && b < |rlst|
    ensures a in tree && b in tree
    ensures b in tree[a] <==> TreeLinked(rlst[a], rlst[b], |rlst|)
  {
    hide LinkMap, Neighbor, TreeLinked, Renamed, NoRepeats, Below;
    LinksAt(tree, parent, ring, rlst, a);
    LinksAt(tree, parent, ring, rlst, b);
    NeighborLinks(rlst[a], |rlst|);
    RenamedMember(rlst, Neighbor(rlst[a], |rlst|), tree[a], b);
  }

  /** A rank lists another as its neighbour exactly when the other lists it. */
  lemma TreeSymmetric(tree: map<nat, seq<nat>>, parent: map<nat, int>, ring: map<nat, (nat, nat)>, rlst: seq<nat>,
                      a: nat, b: nat)
    requires LinkMap(tree, parent, ring, rlst) && Lists(rlst, Below(|rlst|)) && a < |rlst| && b < |rlst|
    ensures a in tree && b in tree
    ensures b in tree[a] <==> a in tree[b]
  {
    hide LinkMap, Lists, Below;
    LinkedBoth(tree, parent, ring, rlst, a, b);
    LinkedBoth(tree, parent, ring, rlst, b, a);
  }

  /** The rank reached after d steps to the parent, -1 beyond the root. */
  function Up(parent: map<nat, int>, a: int, d: nat): int
    decreases d
  {
    if d == 0 then a else if a >= 0 && (a as nat) in parent then Up(parent, parent[a as nat], d - 1) else -1
  }

  /** From every rank the parents, each of them a neighbour, lead to rank 0. */
  lemma {:induction false} LeadsToRoot(tree: map<nat, seq<nat>>, parent: map<nat, int>, ring: map<nat, (nat, nat)>,
                                       rlst: seq<nat>, a: nat)
    returns (d: nat)
    requires LinkMap(tree, parent, ring, rlst) && Lists(rlst, Below(|rlst|)) && a < |rlst| && rlst[0] == 0
    ensures a in tree && a in parent
    ensures parent[a] == -1 <==> a == 0
    ensures a != 0 ==> parent[a] >= 0 && parent[a] as nat in tree[a]
    ensures Up(parent, a, d) == 0
    decreases rlst[a]
  {
    hide LinkMap, Below, NoRepeats;
    LinksAt(tree, parent, ring, rlst, a);
    if a == 0 {
      d := 0;
    } else {
      OnlyFirst(rlst, a);
      var p: nat := parent[a];
      LinkedBoth(tree, parent, ring, rlst, a, p);
      var e := LeadsToRoot(tree, parent, ring, rlst, p);
      d := e + 1;
    }
  }

  lemma OnlyFirst(rlst: seq<nat>, a: nat)
    requires NoRepeats(rlst) && 0 < a < |rlst|
    ensures rlst[a] != rlst[0]
  {
  }
}
