/**
 * Start-up of the workers: each rank, as it starts, is told which of its
 * neighbours already wait for a connection and how many will connect to it
 * later. Connections succeed at the first attempt and no link exists before.
 */
module TrackerStart {
  import opened Sequences
  import opened Tracker

  /** The tree and ring neighbours of a rank, itself excluded. */
  function Links(tree: map<nat, seq<nat>>, ring: map<nat, (nat, nat)>, r: nat): set<nat>
    requires r in tree && r in ring
  {
    (set v | v in tree[r])
    + (if ring[r].0 != r then {ring[r].0} else {})
    + (if ring[r].1 != r then {ring[r].1} else {})
  }

  type Graph = map<nat, set<nat>>

  ghost predicate GraphOf(g: Graph, tree: map<nat, seq<nat>>, ring: map<nat, (nat, nat)>) {
    && (forall r :: r in g ==> r in tree && r in ring && g[r] == Links(tree, ring, r))
    && (forall r :: r in tree && r in ring ==> r in g)
  }

  /** Links run both ways, stay among the ranks and never lead back to the same rank. */
  ghost predicate Symmetric(g: Graph, n: nat) {
    && (forall a: nat :: a in g <==> a < n)
    && (forall a, b :: a in g && b in g[a] ==> b < n)
    && (forall a, b :: Linked(g, a, b) ==> Linked(g, b, a) && a != b)
  }

  ghost predicate Linked(g: Graph, a: nat, b: nat) {
    a in g && b in g && b in g[a]
  }

  lemma RingMutual(a: nat, b: nat, n: nat)
    requires a < n && b < n
    ensures b == (a + 1) % n <==> a == (b + n - 1) % n
    ensures (a + 1) % n < n && (a + n - 1) % n < n
  {
    RingNext(a, n);
    RingNext(b, n);
  }

  lemma Around(a: nat, n: nat)
    requires a < n
    ensures (a + n) % n == a
  {
  }

  lemma RingNext(a: nat, n: nat)
    requires a < n
    ensures (a + 1) % n == if a + 1 == n then 0 else a + 1
    ensures (a + n - 1) % n == if a == 0 then n - 1 else a - 1
  {
    Small(if a + 1 == n then 0 else a + 1, n);
    if a > 0 {
      Around(a - 1, n);
    } else {
      Small(n - 1, n);
    }
  }

  /** The links that the tracker computes are symmetric. */
  lemma LinkMapSymmetric(tree: map<nat, seq<nat>>, parent: map<nat, int>, ring: map<nat, (nat, nat)>, rlst: seq<nat>,
                         g: Graph)
    requires LinkMap(tree, parent, ring, rlst) && Lists(rlst, Below(|rlst|)) && GraphOf(g, tree, ring)
    ensures Symmetric(g, |rlst|)
  {
    hide LinkMap, Links, Lists, Below;
    var n := |rlst|;
    LinksCover(tree, parent, ring, rlst);
    forall a: nat
      ensures a in g <==> a < n
    {
      assert a in g <==> a in tree && a in ring;
    }
    forall a, b | a in g && b in g[a]
      ensures b < n
    {
      InsideAt(tree, parent, ring, rlst, a, b);
    }
    forall a, b | Linked(g, a, b)
      ensures Linked(g, b, a) && a != b
    {
      InsideAt(tree, parent, ring, rlst, a, b);
      MutualAt(tree, parent, ring, rlst, a, b);
    }
  }

  lemma LinksCover(tree: map<nat, seq<nat>>, parent: map<nat, int>, ring: map<nat, (nat, nat)>, rlst: seq<nat>)
    requires LinkMap(tree, parent, ring, rlst)
    ensures forall r: nat :: r in tree ==> r < |rlst|
    ensures forall r: nat :: r < |rlst| ==> r in tree && r in ring
  {
    hide Neighbor, Renamed, ParentNamed, Beside;
    forall r: nat | r < |rlst|
      ensures r in tree && r in ring
    {
      assert r in Below(|rlst|);
    }
    forall r: nat | r in tree
      ensures r < |rlst|
    {
      assert r in Below(|rlst|);
    }
  }

  lemma MutualAt(tree: map<nat, seq<nat>>, parent: map<nat, int>, ring: map<nat, (nat, nat)>, rlst: seq<nat>,
                 a: nat, b: nat)
    requires LinkMap(tree, parent, ring, rlst) && Lists(rlst, Below(|rlst|)) && a < |rlst| && b < |rlst|
    ensures a in tree && b in tree && a in ring && b in ring
    ensures b in Links(tree, ring, a) <==> a in Links(tree, ring, b)
  {
    hide LinkMap, Lists, Below, Renamed, ParentNamed, Neighbor;
    LinksAt(tree, parent, ring, rlst, a);
    LinksAt(tree, parent, ring, rlst, b);
    TreeSymmetric(tree, parent, ring, rlst, a, b);
    RingMutual(a, b, |rlst|);
    RingMutual(b, a, |rlst|);
  }

  lemma InsideAt(tree: map<nat, seq<nat>>, parent: map<nat, int>, ring: map<nat, (nat, nat)>, rlst: seq<nat>,
                 a: nat, b: nat)
    requires LinkMap(tree, parent, ring, rlst) && Lists(rlst, Below(|rlst|)) && a < |rlst|
    requires a in tree && a in ring && b in Links(tree, ring, a)
    ensures b < |rlst| && a != b
  {
    hide LinkMap, Lists, ParentNamed, Neighbor;
    LinksAt(tree, parent, ring, rlst, a);
    LinkedBoth(tree, parent, ring, rlst, a, a);
    RingMutual(a, a, |rlst|);
    if b in tree[a] {
      var i :| 0 <= i < |tree[a]| && tree[a][i] == b;
    }
  }

  // ------------------------------------------------------------- the protocol

  /** A link whose ends have both started. */
  ghost predicate Between(g: Graph, started: set<nat>, e: (nat, nat)) {
    e.0 in started && e.1 in started && e.0 in g && e.1 in g[e.0]
  }

  /** Every link between started ranks was announced exactly once, and nothing else was. */
  ghost predicate AnnouncedOnce(g: Graph, started: set<nat>, announced: seq<(nat, nat)>) {
    && (forall i :: 0 <= i < |announced| ==> Between(g, started, announced[i]))
    && (forall i, j :: 0 <= i < j < |announced| ==> !Same(announced[i], announced[j]))
    && (forall e :: Between(g, started, e) ==> e in announced || (e.1, e.0) in announced)
  }

  /** The same link, in either direction. */
  predicate Same(d: (nat, nat), e: (nat, nat)) {
    d == e || d == (e.1, e.0)
  }

  ghost predicate Waits(g: Graph, started: set<nat>, waitConn: set<nat>, waitAccept: map<nat, nat>, r: nat)
    requires r in g
  {
    && (r in waitAccept <==> r in started)
    && (r in started ==> waitAccept[r] == |g[r] - started|)
    && (r in waitConn <==> r in started && waitAccept[r] > 0)
  }

  /**
   * Each started rank waits for exactly its neighbours that have not started,
   * and is in waitConn while there are any.
   */
  ghost predicate AllWait(g: Graph, started: set<nat>, waitConn: set<nat>, waitAccept: map<nat, nat>) {
    && started <= g.Keys && waitConn <= g.Keys && waitAccept.Keys <= g.Keys
    && (forall r :: r in g ==> Waits(g, started, waitConn, waitAccept, r))
  }

  /** The waiting neighbours of a newcomer are its started neighbours: each of them misses it. */
  lemma WaitingNeighbour(g: Graph, n: nat, started: set<nat>, waitConn: set<nat>, waitAccept: map<nat, nat>,
                         rank: nat, r: nat)
    requires Symmetric(g, n) && rank in g && rank !in started && r in g[rank]
    requires r in g && Waits(g, started, waitConn, waitAccept, r)
    ensures r in waitConn <==> r in started
  {
    assert Linked(g, rank, r) && Linked(g, r, rank);
    if r in started {
      assert rank in g[r] - started;
    }
  }

  /** The newcomer is missed no longer, by exactly its neighbours. */
  lemma MissingStep(g: Graph, n: nat, started: set<nat>, rank: nat, r: nat)
    requires Symmetric(g, n) && rank in g && rank !in started && r in g
    ensures |g[r] - started| == |g[r] - (started + {rank})| + if r in g[rank] then 1 else 0
  {
    var before, after := g[r] - started, g[r] - (started + {rank});
    assert Linked(g, rank, r) <==> Linked(g, r, rank);
    if r in g[rank] {
      assert before == after + {rank} && rank !in after;
    } else {
      assert before == after;
    }
  }

  /** The counts after the newcomer's connections were accepted. */
  ghost predicate Accepted(before: map<nat, nat>, after: map<nat, nat>, conset: seq<nat>,
                           waitConn: set<nat>, waitConn': set<nat>) {
    && after.Keys == before.Keys
    && (forall r :: r in before ==> after[r] + (if r in conset then 1 else 0) == before[r])
    && (forall r :: r in waitConn' <==> r in waitConn && !(r in conset && r in after && after[r] == 0))
  }

  lemma StartKeepsWaits(g: Graph, n: nat, started: set<nat>, waitConn: set<nat>, before: map<nat, nat>,
                        conset: seq<nat>, waitConn': set<nat>, after: map<nat, nat>, rank: nat, r: nat)
    requires Symmetric(g, n) && rank in g && rank !in started && r in g && r != rank
    requires Waits(g, started, waitConn, before, r)
    requires Lists(conset, g[rank] * waitConn) && Accepted(before, after, conset, waitConn, waitConn')
    ensures Waits(g, started + {rank}, waitConn', after, r)
  {
    MissingStep(g, n, started, rank, r);
    if r in g[rank] {
      WaitingNeighbour(g, n, started, waitConn, before, rank, r);
    }
    hide Symmetric;
    assert r in conset <==> r in g[rank] * waitConn;
  }

  lemma NewcomerWaits(g: Graph, n: nat, started: set<nat>, waitConn: set<nat>, waitAccept: map<nat, nat>,
                      conset: seq<nat>, rank: nat)
    requires Symmetric(g, n) && rank in g && rank !in started
    requires AllWait(g, started, waitConn, waitAccept)
    requires Lists(conset, g[rank] * waitConn)
    ensures g[rank] * waitConn == g[rank] * started
    ensures |g[rank]| - |conset| == |g[rank] - (started + {rank})|
  {
    hide Lists, Waits;
    forall r | r in g[rank]
      ensures r in waitConn <==> r in started
    {
      WaitingNeighbour(g, n, started, waitConn, waitAccept, rank, r);
    }
    var links := g[rank];
    assert rank !in links by {
      assert Linked(g, rank, rank) ==> rank != rank;
    }
    hide AllWait, Symmetric;
    assert links * waitConn == links * started;
    ListsLength(conset, links * waitConn);
    assert links - (started + {rank}) == links - links * started;
  }

  lemma StartKeepsAll(g: Graph, n: nat, started: set<nat>, waitConn: set<nat>, before: map<nat, nat>,
                      conset: seq<nat>, waitConn': set<nat>, after: map<nat, nat>, rank: nat, mine: nat)
    requires Symmetric(g, n) && rank in g && rank !in started
    requires AllWait(g, started, waitConn, before)
    requires Lists(conset, g[rank] * waitConn) && Accepted(before, after, conset, waitConn, waitConn')
    requires mine == |g[rank] - (started + {rank})|
    ensures AllWait(g, started + {rank}, waitConn' + (if mine > 0 then {rank} else {}), after[rank := mine])
  {
    hide Symmetric, Lists, Accepted, Waits;
    var conn, acc := waitConn' + (if mine > 0 then {rank} else {}), after[rank := mine];
    forall r | r in g
      ensures Waits(g, started + {rank}, conn, acc, r)
    {
      assert Waits(g, started, waitConn, before, r);
      if r != rank {
        StartKeepsWaits(g, n, started, waitConn, before, conset, waitConn', after, rank, r);
        WaitsUnaffected(g, started + {rank}, waitConn', after, conn, acc, r);
      } else {
        RankWaits(g, started, waitConn, before, waitConn', after, conset, rank, mine);
      }
    }
    AcceptedKeys(g, waitConn, before, conset, waitConn', after);
  }

  lemma WaitsUnaffected(g: Graph, started: set<nat>, waitConn: set<nat>, waitAccept: map<nat, nat>,
                        waitConn': set<nat>, waitAccept': map<nat, nat>, r: nat)
    requires r in g && Waits(g, started, waitConn, waitAccept, r)
    requires r in waitConn <==> r in waitConn'
    requires r in waitAccept <==> r in waitAccept'
    requires r in waitAccept ==> waitAccept'[r] == waitAccept[r]
    ensures Waits(g, started, waitConn', waitAccept', r)
  {
  }

  lemma RankWaits(g: Graph, started: set<nat>, waitConn: set<nat>, before: map<nat, nat>, waitConn': set<nat>,
                  after: map<nat, nat>, conset: seq<nat>, rank: nat, mine: nat)
    requires rank in g && rank !in started && Waits(g, started, waitConn, before, rank)
    requires Accepted(before, after, conset, waitConn, waitConn')
    requires mine == |g[rank] - (started + {rank})|
    ensures Waits(g, started + {rank}, waitConn' + (if mine > 0 then {rank} else {}), after[rank := mine], rank)
  {
  }

  lemma AcceptedKeys(g: Graph, waitConn: set<nat>, before: map<nat, nat>, conset: seq<nat>, waitConn': set<nat>,
                     after: map<nat, nat>)
    requires Accepted(before, after, conset, waitConn, waitConn')
    ensures waitConn' <= waitConn && after.Keys == before.Keys
  {
  }

  ghost function Announcements(rank: nat, conset: seq<nat>): seq<(nat, nat)> {
    seq(|conset|, i requires 0 <= i < |conset| => (rank, conset[i]))
  }

  lemma StartAnnounces(g: Graph, n: nat, started: set<nat>, announced: seq<(nat, nat)>, conset: seq<nat>, rank: nat)
    requires Symmetric(g, n) && rank in g && rank !in started
    requires AnnouncedOnce(g, started, announced) && Lists(conset, g[rank] * started)
    ensures AnnouncedOnce(g, started + {rank}, announced + Announcements(rank, conset))
  {
    var more, all := announced + Announcements(rank, conset), started + {rank};
    forall i | 0 <= i < |more|
      ensures Between(g, all, more[i])
    {
      if i >= |announced| {
        assert conset[i - |announced|] in conset;
      }
    }
    forall e | Between(g, all, e)
      ensures e in more || (e.1, e.0) in more
    {
      AnnouncesLink(g, n, started, announced, conset, rank, e);
    }
    hide Symmetric;
    forall i, j | 0 <= i < j < |more|
      ensures !Same(more[i], more[j])
    {
      if i < |announced| {
        assert Between(g, started, announced[i]);
      } else {
        assert conset[j - |announced|] in conset;
      }
    }
  }

  lemma AnnouncesLink(g: Graph, n: nat, started: set<nat>, announced: seq<(nat, nat)>, conset: seq<nat>, rank: nat,
                      e: (nat, nat))
    requires Symmetric(g, n) && rank in g && rank !in started
    requires AnnouncedOnce(g, started, announced) && Lists(conset, g[rank] * started)
    requires Between(g, started + {rank}, e)
    ensures var more := announced + Announcements(rank, conset); e in more || (e.1, e.0) in more
  {
    var more := announced + Announcements(rank, conset);
    if e.0 != rank && e.1 != rank {
      assert Between(g, started, e);
    } else {
      var other := if e.0 == rank then e.1 else e.0;
      assert Linked(g, e.0, e.1) && Linked(g, e.1, e.0);
      assert other in g[rank] * started;
      assert other in conset;
      var i :| 0 <= i < |conset| && conset[i] == other;
      assert more[|announced| + i] == (rank, other);
    }
  }

  lemma AllPositive(g: Graph, started: set<nat>, waitConn: set<nat>, waitAccept: map<nat, nat>, conset: seq<nat>,
                    some: set<nat>)
    requires AllWait(g, started, waitConn, waitAccept) && Lists(conset, some * waitConn)
    ensures NoRepeats(conset)
    ensures forall r :: r in conset ==> r in waitAccept && waitAccept[r] > 0
  {
    forall r | r in conset
      ensures r in waitAccept && waitAccept[r] > 0
    {
      assert r in some * waitConn;
      assert Waits(g, started, waitConn, waitAccept, r);
    }
  }

  /** When all have started nobody waits. */
  lemma AllStarted(g: Graph, n: nat, started: set<nat>, waitConn: set<nat>, waitAccept: map<nat, nat>)
    requires Symmetric(g, n) && AllWait(g, started, waitConn, waitAccept)
    requires forall r :: r in g ==> r in started
    ensures waitConn == {} && forall r :: r in waitAccept ==> waitAccept[r] == 0
  {
    forall r | r in g
      ensures r in waitAccept && waitAccept[r] == 0 && r !in waitConn
    {
      assert g[r] - started == {};
    }
  }

  class RabitTracker {
    const n: nat
    const tree: map<nat, seq<nat>>
    const ring: map<nat, (nat, nat)>
    var waitConn: set<nat>
    var waitAccept: map<nat, nat>
    ghost const graph: Graph
    ghost var started: set<nat>
    ghost var announced: seq<(nat, nat)>

    ghost predicate Valid()
      reads this
    {
      && GraphOf(graph, tree, ring)
      && Symmetric(graph, n)
      && AllWait(graph, started, waitConn, waitAccept)
      && AnnouncedOnce(graph, started, announced)
    }

    constructor (nslave: nat)
      requires nslave > 0
      ensures Valid() && n == nslave && started == {} && announced == []
    {
      hide LinkMap, Symmetric, Lists, Below;
      var t, p, r, rlst := GetLinkMap(nslave);
      ghost var g := map v | v in t && v in r :: Links(t, r, v);
      LinkMapSymmetric(t, p, r, rlst, g);
      n, tree, ring, graph := nslave, t, r, g;
      waitConn, waitAccept := {}, map[];
      started, announced := {}, [];
    }

    /** The neighbours that already wait for connections, in any order. */
    method Connectable(badset: set<nat>) returns (conset: seq<nat>)
      ensures Lists(conset, badset * waitConn)
    {
      conset := [];
      var todo := badset;
      while todo != {}
        invariant todo <= badset && NoRepeats(conset)
        invariant forall r :: r in conset <==> r in badset && r !in todo && r in waitConn
      {
        SomeMember(todo);
        var r :| r in todo;
        if r in waitConn {
          conset := conset + [r];
        }
        todo := todo - {r};
      }
    }

    /** The waiting neighbours accept one connection each; those that wait no more leave. */
    method Accept(conset: seq<nat>)
      requires NoRepeats(conset)
      requires forall r :: r in conset ==> r in waitAccept && waitAccept[r] > 0
      modifies this`waitConn, this`waitAccept
      ensures Accepted(old(waitAccept), waitAccept, conset, old(waitConn), waitConn)
    {
      var rmset := [];
      for i := 0 to |conset|
        invariant waitConn == old(waitConn) && waitAccept.Keys == old(waitAccept).Keys
        invariant forall r :: r in waitAccept ==>
                    waitAccept[r] + (if r in conset[..i] then 1 else 0) == old(waitAccept)[r]
        invariant forall r :: r in rmset <==> r in conset[..i] && r in waitAccept && waitAccept[r] == 0
      {
        var r := conset[i];
        assert r in conset && r !in conset[..i];
        assert conset[..i + 1] == conset[..i] + [r];
        waitAccept := waitAccept[r := waitAccept[r] - 1];
        if waitAccept[r] == 0 {
          rmset := rmset + [r];
        }
      }
      assert conset[..|conset|] == conset;
      ghost var counts := waitAccept;
      for i := 0 to |rmset|
        invariant waitAccept == counts
        invariant forall r :: r in waitConn <==> r in old(waitConn) && r !in rmset[..i]
      {
        waitConn := waitConn - {rmset[i]};
        assert rmset[..i + 1] == rmset[..i] + [rmset[i]];
      }
      assert rmset[..|rmset|] == rmset;
    }

    /** A rank starts and is told which neighbours to connect to. */
    method AssignRank(rank: nat) returns (conset: seq<nat>)
      requires Valid() && rank < n && rank !in started
      modifies this
      ensures Valid() && started == old(started) + {rank}
      ensures rank in tree && rank in ring && Lists(conset, Links(tree, ring, rank) * old(started))
      ensures announced == old(announced) + Announcements(rank, conset)
    {
      hide AllWait, AnnouncedOnce, Accepted, Announcements, Lists, Links;
      assert rank in graph;
      var nnset := Links(tree, ring, rank);
      conset := Connectable(nnset);
      NewcomerWaits(graph, n, started, waitConn, waitAccept, conset, rank);
      AllPositive(graph, started, waitConn, waitAccept, conset, nnset);
      Accept(conset);
      var mine := |nnset| - |conset|;
      StartKeepsAll(graph, n, started, old(waitConn), old(waitAccept), conset, waitConn, waitAccept, rank, mine);
      StartAnnounces(graph, n, started, announced, conset, rank);
      waitAccept := waitAccept[rank := mine];
      started := started + {rank};
      announced := announced + Announcements(rank, conset);
      waitConn := waitConn + if mine > 0 then {rank} else {};
    }

    /** All ranks start, in any order: nobody is left waiting and every link was announced once. */
    method StartAll(order: seq<nat>)
      requires Valid() && started == {} && Lists(order, Below(n))
      modifies this
      ensures Valid() && (forall r: nat :: r in started <==> r < n)
      ensures waitConn == {} && forall r :: r in waitAccept ==> waitAccept[r] == 0
    {
      hide AllWait, AnnouncedOnce, Announcements, Links;
      for i := 0 to |order|
        invariant Valid() && forall r: nat :: r in started <==> r in order[..i]
      {
        assert order[i] in order && order[i] in Below(n);
        var conset := AssignRank(order[i]);
        assert order[..i + 1] == order[..i] + [order[i]];
      }
      assert order[..|order|] == order;
      AllStarted(graph, n, started, waitConn, waitAccept);
    }
  }
}
