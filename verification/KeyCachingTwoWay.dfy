/**
 * The key-caching filter on a connection with traffic in both directions. One
 * filter object per peer encodes what is sent to it and decodes what comes from
 * it, so each end has one cache for both directions. Everything here is under the
 * hypothesis that the packets of a wire are decoded in the order in which they were
 * sent; sends and receives interleave in any way.
 */
module KeyCachingTwoWay {
  import opened Options
  import opened Bytes
  import opened KeyCaching

  /** A message on a wire, together with the list its sender meant. */
  datatype Packet = Packet(msg: Message, key: seq<byte>)

  /** The caches of both ends, the wires from a to b and from b to a; ok until a list was lost or confused. */
  datatype Link = Link(a: Cache, b: Cache, ab: seq<Packet>, ba: seq<Packet>, ok: bool)

  datatype Act = Send(fromA: bool, m: Message) | Receive(atA: bool)

  function Sent(h: Hash, c: Cache, w: seq<Packet>, m: Message): seq<Packet> {
    w + [Packet(Encoded(h, c, m), m.key)]
  }

  /** Decoding the first packet gave the list that was meant. */
  predicate Right(h: Hash, c: Cache, p: Packet) {
    var r := Decode1(h, c, p.msg);
    r.Decoded? && r.msg.key == p.key
  }

  function CacheAfterReceive(h: Hash, c: Cache, p: Packet): Cache {
    var r := Decode1(h, c, p.msg);
    if r.Decoded? then r.cache else c
  }

  /** One step; a receive from an empty wire does nothing. */
  function Do(h: Hash, l: Link, act: Act): Link {
    match act
    case Send(true, m) => l.(a := CacheAfter(h, l.a, m), ab := Sent(h, l.a, l.ab, m))
    case Send(false, m) => l.(b := CacheAfter(h, l.b, m), ba := Sent(h, l.b, l.ba, m))
    case Receive(true) =>
      if l.ba == [] then l
      else l.(a := CacheAfterReceive(h, l.a, l.ba[0]), ba := l.ba[1..], ok := l.ok && Right(h, l.a, l.ba[0]))
    case Receive(false) =>
      if l.ab == [] then l
      else l.(b := CacheAfterReceive(h, l.b, l.ab[0]), ab := l.ab[1..], ok := l.ok && Right(h, l.b, l.ab[0]))
  }

  /** The connection after a sequence of steps, from empty caches. */
  function After(h: Hash, acts: seq<Act>): Link {
    if acts == [] then Link(map[], map[], [], [], true) else Do(h, After(h, acts[..|acts| - 1]), acts[|acts| - 1])
  }

  ghost predicate Within(acts: seq<Act>, ms: iset<Message>) {
    forall i :: 0 <= i < |acts| && acts[i].Send? ==> acts[i].m in ms
  }

  /** Whatever is sent from these messages, in either direction and any interleaving, arrives as it was meant. */
  ghost predicate Faithful(h: Hash, ms: iset<Message>) {
    forall acts :: Within(acts, ms) ==> After(h, acts).ok
  }

  /** The filter applies to the message. */
  predicate Filtered(m: Message) {
    m.conf.Some? && |m.key| >= MinLen
  }

  predicate Keeps(m: Message) {
    Filtered(m) && !Clears(m)
  }

  predicate Drops(m: Message) {
    Filtered(m) && Clears(m)
  }

  /**
   * Two messages that one signature covers do no harm: lists that are kept are the
   * same list, and a clearing message has another length than a kept list.
   */
  ghost predicate Compatible(h: Hash, m: Message, m': Message) {
    FastHash(h, m.key) == FastHash(h, m'.key) ==>
      && (Keeps(m) && Keeps(m') ==> m.key == m'.key)
      && (Keeps(m) && Drops(m') ==> |m.key| != |m'.key|)
  }

  ghost predicate Safe(h: Hash, ms: iset<Message>) {
    forall m, m' :: m in ms && m' in ms ==> Compatible(h, m, m')
  }

  // ---- the invariant ----

  /** The list is kept by some message under this signature. */
  ghost predicate Kept(h: Hash, ms: iset<Message>, s: Sig, key: seq<byte>) {
    exists m :: m in ms && Keeps(m) && m.key == key && FastHash(h, key) == s
  }

  ghost predicate SoundCache(h: Hash, ms: iset<Message>, c: Cache) {
    forall s :: s in c ==> Kept(h, ms, s, c[s])
  }

  /** A packet as Encode makes it: without signature, whole, or without its list. */
  ghost predicate Plain(p: Packet) {
    p.msg.key == p.key && (p.msg.conf.None? || p.msg.conf.value.signature.None?)
  }

  ghost predicate Whole(h: Hash, ms: iset<Message>, p: Packet, s: Sig) {
    && p.msg.conf.Some? && p.msg.conf.value.signature == Some(s) && p.msg.key == p.key && p.key != [] && FastHash(h, p.key) == s
    && (Clears(p.msg) || Kept(h, ms, s, p.key))
  }

  ghost predicate Bare(h: Hash, ms: iset<Message>, p: Packet, s: Sig) {
    && p.msg.conf.Some? && p.msg.conf.value.signature == Some(s) && p.msg.key == []
    && !Clears(p.msg) && Kept(h, ms, s, p.key)
  }

  ghost predicate WellMade(h: Hash, ms: iset<Message>, p: Packet) {
    Plain(p) || exists s :: Whole(h, ms, p, s) || Bare(h, ms, p, s)
  }

  /** One of the first n packets brings the list that is kept under s. */
  ghost predicate Brings(h: Hash, ms: iset<Message>, w: seq<Packet>, n: nat, s: Sig) {
    exists i :: 0 <= i < n && i < |w| && Whole(h, ms, w[i], s) && !Clears(w[i].msg)
  }

  /**
   * What the sender has, the receiver has or has ahead of it on the wire; a bare
   * packet finds its list; and the sender still has every kept list on the wire.
   */
  ghost predicate Half(h: Hash, ms: iset<Message>, sender: Cache, receiver: Cache, w: seq<Packet>) {
    && (forall s :: s in sender ==> s in receiver || Brings(h, ms, w, |w|, s))
    && (forall i :: 0 <= i < |w| ==> WellMade(h, ms, w[i]))
    && (forall i: nat, s :: i < |w| && Bare(h, ms, w[i], s) ==> s in receiver || Brings(h, ms, w, i, s))
    && (forall i: nat, s :: i < |w| && Whole(h, ms, w[i], s) && !Clears(w[i].msg) ==> s in sender)
  }

  ghost predicate Inv(h: Hash, ms: iset<Message>, l: Link) {
    && l.ok && SoundCache(h, ms, l.a) && SoundCache(h, ms, l.b)
    && Half(h, ms, l.a, l.b, l.ab) && Half(h, ms, l.b, l.a, l.ba)
  }

  lemma OneList(h: Hash, ms: iset<Message>, s: Sig, key: seq<byte>, key': seq<byte>)
    requires Safe(h, ms) && Kept(h, ms, s, key) && Kept(h, ms, s, key')
    ensures key == key'
  {
    var m :| m in ms && Keeps(m) && m.key == key && FastHash(h, key) == s;
    var m' :| m' in ms && Keeps(m') && m'.key == key' && FastHash(h, key') == s;
    assert Compatible(h, m, m');
  }

  /** What a message of the set does to a sound cache: a kept list is added, nothing is ever dropped. */
  lemma CacheGrows(h: Hash, ms: iset<Message>, c: Cache, m: Message)
    requires Safe(h, ms) && m in ms && SoundCache(h, ms, c)
    ensures CacheAfter(h, c, m) == if Keeps(m) then c[FastHash(h, m.key) := m.key] else c
    ensures SoundCache(h, ms, CacheAfter(h, c, m))
    ensures Filtered(m) && Hits(c, FastHash(h, m.key), m.key) ==> Keeps(m) && c[FastHash(h, m.key)] == m.key
  {
    hide FastHash;
    var s := FastHash(h, m.key);
    if Keeps(m) {
      assert Kept(h, ms, s, m.key);
    }
    if Filtered(m) && s in c {
      assert Kept(h, ms, s, c[s]);
      var k :| k in ms && Keeps(k) && k.key == c[s] && FastHash(h, c[s]) == s;
      assert Compatible(h, k, m);
    }
  }

  // ---- sending ----

  /** The packet of a message: its kind, and what it brings. */
  lemma PacketMade(h: Hash, ms: iset<Message>, c: Cache, m: Message)
    requires Safe(h, ms) && m in ms && SoundCache(h, ms, c)
    ensures var p, s := Packet(Encoded(h, c, m), m.key), FastHash(h, m.key);
            && (!Filtered(m) ==> Plain(p))
            && (Filtered(m) && !Hits(c, s, m.key) ==> Whole(h, ms, p, s) && (Clears(p.msg) <==> Drops(m)))
            && (Filtered(m) && Hits(c, s, m.key) ==> Bare(h, ms, p, s) && s in c)
  {
    CacheGrows(h, ms, c, m);
    hide FastHash;
    if Keeps(m) {
      assert Kept(h, ms, FastHash(h, m.key), m.key);
    }
  }

  lemma BringsMore(h: Hash, ms: iset<Message>, w: seq<Packet>, p: Packet, n: nat, s: Sig)
    requires Brings(h, ms, w, n, s)
    ensures Brings(h, ms, w + [p], n, s)
  {
    var i :| 0 <= i < n && i < |w| && Whole(h, ms, w[i], s) && !Clears(w[i].msg);
    assert (w + [p])[i] == w[i];
  }

  lemma KindsApart(h: Hash, ms: iset<Message>, p: Packet, s: Sig, s': Sig)
    requires Bare(h, ms, p, s)
    ensures !Plain(p) && !Whole(h, ms, p, s') && (Bare(h, ms, p, s') ==> s == s')
  {
    var m :| m in ms && Keeps(m) && m.key == p.key && FastHash(h, p.key) == s;
  }

  /** A send keeps the half in its own direction. */
  lemma SendKeepsOwn(h: Hash, ms: iset<Message>, c: Cache, other: Cache, w: seq<Packet>, m: Message)
    requires Safe(h, ms) && m in ms && SoundCache(h, ms, c) && Half(h, ms, c, other, w)
    ensures Half(h, ms, CacheAfter(h, c, m), other, Sent(h, c, w, m))
  {
    var p, s := Packet(Encoded(h, c, m), m.key), FastHash(h, m.key);
    CacheGrows(h, ms, c, m);
    PacketMade(h, ms, c, m);
    var c', w' := CacheAfter(h, c, m), Sent(h, c, w, m);
    hide FastHash, CacheAfter, Encoded, Whole, Bare, Plain, Safe, SoundCache, Kept;
    assert WellMade(h, ms, p);
    forall q | q in c'
      ensures q in other || Brings(h, ms, w', |w'|, q)
    {
      if q in c {
        if q !in other {
          BringsMore(h, ms, w, p, |w|, q);
          Widen(h, ms, w', |w|, |w'|, q);
        }
      } else {
        assert w'[|w|] == p && Whole(h, ms, w'[|w|], q) && !Clears(w'[|w|].msg);
      }
    }
    forall i: nat, q | i < |w'| && Bare(h, ms, w'[i], q)
      ensures q in other || Brings(h, ms, w', i, q)
    {
      if i < |w| {
        if q !in other {
          assert Brings(h, ms, w, i, q);
          BringsMore(h, ms, w, p, i, q);
        }
      } else {
        BareIsHit(h, ms, c, m, q);
        if q !in other {
          assert Brings(h, ms, w, |w|, q);
          BringsMore(h, ms, w, p, |w|, q);
        }
      }
    }
    forall i | 0 <= i < |w'|
      ensures WellMade(h, ms, w'[i])
    {
      assert i < |w| ==> WellMade(h, ms, w[i]);
    }
    forall i: nat, q | i < |w'| && Whole(h, ms, w'[i], q) && !Clears(w'[i].msg)
      ensures q in c'
    {
      if i < |w| {
        assert w'[i] == w[i];
      } else {
        WholeIsKept(h, ms, c, m, q);
      }
    }
  }

  /** A packet with its list, not clearing, was made from a message that keeps it. */
  lemma WholeIsKept(h: Hash, ms: iset<Message>, c: Cache, m: Message, q: Sig)
    requires Safe(h, ms) && m in ms && SoundCache(h, ms, c)
    requires var p := Packet(Encoded(h, c, m), m.key); Whole(h, ms, p, q) && !Clears(p.msg)
    ensures q in CacheAfter(h, c, m)
  {
    CacheGrows(h, ms, c, m);
    hide Kept, Safe, SoundCache;
  }

  lemma Widen(h: Hash, ms: iset<Message>, w: seq<Packet>, n: nat, n': nat, s: Sig)
    requires Brings(h, ms, w, n, s) && n <= n'
    ensures Brings(h, ms, w, n', s)
  {
  }

  /** A packet without its list was made from a hit. */
  lemma BareIsHit(h: Hash, ms: iset<Message>, c: Cache, m: Message, q: Sig)
    requires Safe(h, ms) && m in ms && SoundCache(h, ms, c) && Bare(h, ms, Packet(Encoded(h, c, m), m.key), q)
    ensures q in c
  {
    var p, s := Packet(Encoded(h, c, m), m.key), FastHash(h, m.key);
    PacketMade(h, ms, c, m);
    KindsApart(h, ms, p, q, s);
    hide FastHash, Whole, Kept, Safe;
  }

  /** A send keeps the half in the other direction: its cache only grows. */
  lemma SendKeepsOther(h: Hash, ms: iset<Message>, c: Cache, other: Cache, w: seq<Packet>, m: Message)
    requires Safe(h, ms) && m in ms && SoundCache(h, ms, c) && Half(h, ms, other, c, w)
    ensures Half(h, ms, other, CacheAfter(h, c, m), w)
  {
    CacheGrows(h, ms, c, m);
    hide FastHash, CacheAfter, Brings, WellMade, Bare, Safe, SoundCache;
  }

  // ---- receiving ----

  /** The first packet decodes as it was meant, and the receiver's cache only grows. */
  lemma FirstIsRight(h: Hash, ms: iset<Message>, c: Cache, sender: Cache, w: seq<Packet>)
    requires Safe(h, ms) && SoundCache(h, ms, c) && Half(h, ms, sender, c, w) && w != []
    ensures Right(h, c, w[0])
    ensures var c' := CacheAfterReceive(h, c, w[0]);
            && SoundCache(h, ms, c') && (forall s :: s in c ==> s in c')
            && forall s :: Whole(h, ms, w[0], s) && !Clears(w[0].msg) ==> s in c'
  {
    hide FastHash;
    var p := w[0];
    assert WellMade(h, ms, p);
    if !Plain(p) {
      var s :| Whole(h, ms, p, s) || Bare(h, ms, p, s);
      if Bare(h, ms, p, s) {
        KindsApart(h, ms, p, s, s);
        assert s in c || Brings(h, ms, w, 0, s);
        OneList(h, ms, s, c[s], p.key);
      }
    }
  }

  lemma BringsShifted(h: Hash, ms: iset<Message>, w: seq<Packet>, n: nat, s: Sig)
    requires w != [] && Brings(h, ms, w, n, s) && !(Whole(h, ms, w[0], s) && !Clears(w[0].msg)) && n > 0
    ensures Brings(h, ms, w[1..], n - 1, s)
  {
    var i :| 0 <= i < n && i < |w| && Whole(h, ms, w[i], s) && !Clears(w[i].msg);
    assert w[1..][i - 1] == w[i];
  }

  lemma ReceiveKeepsOwn(h: Hash, ms: iset<Message>, c: Cache, sender: Cache, w: seq<Packet>)
    requires Safe(h, ms) && SoundCache(h, ms, c) && Half(h, ms, sender, c, w) && w != []
    ensures Half(h, ms, sender, CacheAfterReceive(h, c, w[0]), w[1..])
  {
    FirstIsRight(h, ms, c, sender, w);
    hide Whole, Bare, WellMade, Safe, SoundCache, CacheAfterReceive, Right;
    var c', w' := CacheAfterReceive(h, c, w[0]), w[1..];
    forall s | s in sender
      ensures s in c' || Brings(h, ms, w', |w'|, s)
    {
      if s !in c' {
        BringsShifted(h, ms, w, |w|, s);
      }
    }
    forall i: nat, s | i < |w'| && Bare(h, ms, w'[i], s)
      ensures s in c' || Brings(h, ms, w', i, s)
    {
      assert w'[i] == w[i + 1];
      if s !in c' {
        assert Brings(h, ms, w, i + 1, s);
        BringsShifted(h, ms, w, i + 1, s);
      }
    }
    forall i | 0 <= i < |w'|
      ensures WellMade(h, ms, w'[i])
    {
      assert w'[i] == w[i + 1];
    }
  }

  lemma ReceiveKeepsOther(h: Hash, ms: iset<Message>, c: Cache, sender: Cache, w: seq<Packet>, back: seq<Packet>)
    requires Safe(h, ms) && SoundCache(h, ms, c) && Half(h, ms, sender, c, w) && w != [] && Half(h, ms, c, sender, back)
    ensures Half(h, ms, CacheAfterReceive(h, c, w[0]), sender, back)
  {
    FirstIsRight(h, ms, c, sender, w);
    var c' := CacheAfterReceive(h, c, w[0]);
    forall s | s in c' && s !in c
      ensures s in sender
    {
      NewIsWhole(h, ms, c, w[0], s);
    }
    hide Whole, Bare, WellMade, Safe, SoundCache, CacheAfterReceive, Right, Brings;
  }

  /** A list enters the receiver's cache only from a packet that brings it. */
  lemma NewIsWhole(h: Hash, ms: iset<Message>, c: Cache, p: Packet, s: Sig)
    requires WellMade(h, ms, p) && s in CacheAfterReceive(h, c, p) && s !in c
    ensures Whole(h, ms, p, s) && !Clears(p.msg)
  {
    hide FastHash, Kept;
  }

  // ---- every run ----

  lemma InvStep(h: Hash, ms: iset<Message>, l: Link, act: Act)
    requires Safe(h, ms) && Inv(h, ms, l) && (act.Send? ==> act.m in ms)
    ensures Inv(h, ms, Do(h, l, act))
  {
    hide Half, SoundCache, Safe, CacheAfter, CacheAfterReceive, Right, Sent;
    match act {
      case Send(true, m) =>
        CacheGrows(h, ms, l.a, m);
        SendKeepsOwn(h, ms, l.a, l.b, l.ab, m);
        SendKeepsOther(h, ms, l.a, l.b, l.ba, m);
      case Send(false, m) =>
        CacheGrows(h, ms, l.b, m);
        SendKeepsOwn(h, ms, l.b, l.a, l.ba, m);
        SendKeepsOther(h, ms, l.b, l.a, l.ab, m);
      case Receive(true) =>
        if l.ba != [] {
          FirstIsRight(h, ms, l.a, l.b, l.ba);
          ReceiveKeepsOwn(h, ms, l.a, l.b, l.ba);
          ReceiveKeepsOther(h, ms, l.a, l.b, l.ba, l.ab);
        }
      case Receive(false) =>
        if l.ab != [] {
          FirstIsRight(h, ms, l.b, l.a, l.ab);
          ReceiveKeepsOwn(h, ms, l.b, l.a, l.ab);
          ReceiveKeepsOther(h, ms, l.b, l.a, l.ab, l.ba);
        }
    }
  }

  lemma {:induction false} SafeRuns(h: Hash, ms: iset<Message>, acts: seq<Act>)
    requires Safe(h, ms) && Within(acts, ms)
    ensures Inv(h, ms, After(h, acts))
  {
    hide Safe;
    if acts != [] {
      var front := acts[..|acts| - 1];
      assert forall i :: 0 <= i < |front| ==> front[i] == acts[i];
      SafeRuns(h, ms, front);
      hide Inv;
      InvStep(h, ms, After(h, front), acts[|acts| - 1]);
    }
  }

  // ---- the runs that fail ----

  lemma Then(h: Hash, acts: seq<Act>, act: Act)
    ensures After(h, acts + [act]) == Do(h, After(h, acts), act)
  {
    assert (acts + [act])[..|acts|] == acts;
  }

  /** The packet of a list that is sent for the first time, and of one that the cache has. */
  function First(h: Hash, m: Message): Packet
    requires m.conf.Some?
  {
    Packet(m.(conf := Some(m.conf.value.(signature := Some(FastHash(h, m.key))))), m.key)
  }

  function Again(h: Hash, m: Message): Packet
    requires m.conf.Some?
  {
    Packet(m.(conf := Some(m.conf.value.(signature := Some(FastHash(h, m.key)))), key := []), m.key)
  }

  /** a sends a list that is kept, and b receives it. */
  lemma OneArrived(h: Hash, m: Message) returns (acts: seq<Act>)
    requires Keeps(m)
    ensures acts == [Send(true, m), Receive(false)]
    ensures var c := map[FastHash(h, m.key) := m.key]; After(h, acts) == Link(c, c, [], [], true)
  {
    hide FastHash;
    acts := [Send(true, m), Receive(false)];
    var s := FastHash(h, m.key);
    assert [] + [Send(true, m)] == [Send(true, m)] && [Send(true, m)] + [Receive(false)] == acts;
    Then(h, [], Send(true, m));
    Then(h, [Send(true, m)], Receive(false));
    assert map[][s := m.key] == map[s := m.key];
    assert Sent(h, map[], [], m) == [First(h, m)];
    assert [First(h, m)][1..] == [];
  }

  /** Two lists of one signature and one length: the second arrives as the first. */
  lemma SameLengthFails(h: Hash, m: Message, m': Message) returns (acts: seq<Act>)
    requires Keeps(m) && Filtered(m') && FastHash(h, m.key) == FastHash(h, m'.key) && |m.key| == |m'.key| && m.key != m'.key
    ensures acts == [Send(true, m), Receive(false), Send(true, m'), Receive(false)] && !After(h, acts).ok
  {
    hide FastHash;
    var s := FastHash(h, m.key);
    var c := map[s := m.key];
    var two := OneArrived(h, m);
    var three := two + [Send(true, m')];
    Then(h, two, Send(true, m'));
    assert Hits(c, s, m'.key);
    assert Sent(h, c, [], m') == [Again(h, m')];
    acts := three + [Receive(false)];
    Then(h, three, Receive(false));
  }

  /** A list that is kept and also cleared: the next packet without it finds nothing. */
  lemma ClearingFails(h: Hash, m: Message, m': Message) returns (acts: seq<Act>)
    requires Keeps(m) && Drops(m') && m.key == m'.key
    ensures acts == [Send(true, m), Receive(false), Send(false, m'), Send(true, m), Receive(false)] && !After(h, acts).ok
  {
    hide FastHash;
    var s := FastHash(h, m.key);
    var c := map[s := m.key];
    var two := OneArrived(h, m);
    var three := two + [Send(false, m')];
    Then(h, two, Send(false, m'));
    assert Hits(c, s, m.key) && c - {s} == map[];
    var l := After(h, three);
    assert l.b == map[] && l.a == c && l.ab == [];
    var four := three + [Send(true, m)];
    Then(h, three, Send(true, m));
    assert Sent(h, c, [], m) == [Again(h, m)];
    acts := four + [Receive(false)];
    Then(h, four, Receive(false));
  }

  /** Two messages cross, and each end has the other's list. */
  lemma Crossed(h: Hash, m: Message, m': Message)
    requires Keeps(m) && Keeps(m') && FastHash(h, m.key) == FastHash(h, m'.key)
    ensures After(h, [Send(true, m), Send(false, m'), Receive(true), Receive(false)])
         == Link(map[FastHash(h, m.key) := m'.key], map[FastHash(h, m.key) := m.key], [], [], true)
  {
    hide FastHash;
    var s := FastHash(h, m.key);
    var c, c' := map[s := m.key], map[s := m'.key];
    assert map[][s := m.key] == c && map[][s := m'.key] == c' && c[s := m'.key] == c' && c'[s := m.key] == c;
    assert [] + [Send(true, m)] == [Send(true, m)];
    Then(h, [], Send(true, m));
    assert Sent(h, map[], [], m) == [First(h, m)] && Sent(h, map[], [], m') == [First(h, m')];
    var two := [Send(true, m)] + [Send(false, m')];
    Then(h, [Send(true, m)], Send(false, m'));
    assert After(h, two) == Link(c, c', [First(h, m)], [First(h, m')], true);
    assert [First(h, m)][1..] == [] && [First(h, m')][1..] == [];
    hide After;
    var three := two + [Receive(true)];
    Then(h, two, Receive(true));
    assert After(h, three) == Link(c', c', [First(h, m)], [], true);
    Then(h, three, Receive(false));
    assert [Send(true, m), Send(false, m'), Receive(true), Receive(false)] == three + [Receive(false)];
  }

  /** Two lists of one signature and different lengths cross: the next hit delivers the wrong list. */
  lemma CrossingFails(h: Hash, m: Message, m': Message) returns (acts: seq<Act>)
    requires Keeps(m) && Keeps(m') && FastHash(h, m.key) == FastHash(h, m'.key) && |m.key| != |m'.key|
    ensures acts == [Send(true, m), Send(false, m'), Receive(true), Receive(false), Send(true, m'), Receive(false)]
    ensures !After(h, acts).ok
  {
    hide FastHash, After;
    var s := FastHash(h, m.key);
    var c' := map[s := m'.key];
    var four := [Send(true, m), Send(false, m'), Receive(true), Receive(false)];
    Crossed(h, m, m');
    var five := four + [Send(true, m')];
    Then(h, four, Send(true, m'));
    assert Hits(c', s, m'.key) && Sent(h, c', [], m') == [Again(h, m')];
    acts := five + [Receive(false)];
    Then(h, five, Receive(false));
  }

  lemma UnsafeFails(h: Hash, ms: iset<Message>, m: Message, m': Message) returns (acts: seq<Act>)
    requires m in ms && m' in ms && !Compatible(h, m, m')
    ensures Within(acts, ms) && !After(h, acts).ok
  {
    hide FastHash, After;
    if |m.key| == |m'.key| {
      if m.key == m'.key {
        acts := ClearingFails(h, m, m');
      } else {
        acts := SameLengthFails(h, m, m');
      }
    } else {
      acts := CrossingFails(h, m, m');
    }
  }

  /**
   * Every run over a set of messages is faithful if and only if no signature covers
   * two different kept lists, or a kept list and a clearing message of its length.
   */
  lemma FaithfulIffSafe(h: Hash, ms: iset<Message>)
    ensures Faithful(h, ms) <==> Safe(h, ms)
  {
    hide After, Compatible, Within;
    if Safe(h, ms) {
      forall acts | Within(acts, ms)
        ensures After(h, acts).ok
      {
        SafeRuns(h, ms, acts);
      }
    } else {
      var m, m' :| m in ms && m' in ms && !Compatible(h, m, m');
      var acts := UnsafeFails(h, ms, m, m');
    }
  }

  // ---- over lists ----

  /** All messages with one of these lists; those that clear only if clearing is allowed. */
  ghost function Over(keys: iset<seq<byte>>, clearing: bool): iset<Message> {
    iset m: Message | m.key in keys && (m.conf.Some? && m.conf.value.clearCache ==> clearing)
  }

  ghost predicate InjectiveOnLong(h: Hash, keys: iset<seq<byte>>) {
    forall a, b :: a in keys && b in keys && |a| >= MinLen && |b| >= MinLen && FastHash(h, a) == FastHash(h, b) ==> a == b
  }

  /**
   * Over a set of lists: the connection is faithful if and only if the signature is
   * injective on the lists of 64 bytes or more and, if messages may clear, there are
   * no such lists.
   */
  lemma FaithfulListsIff(h: Hash, keys: iset<seq<byte>>, clearing: bool)
    ensures Faithful(h, Over(keys, clearing)) <==>
              InjectiveOnLong(h, keys) && (clearing ==> forall k :: k in keys ==> |k| < MinLen)
  {
    var ms := Over(keys, clearing);
    FaithfulIffSafe(h, ms);
    hide FastHash, Faithful;
    forall a | a in keys && |a| >= MinLen
      ensures Pull(a) in ms && Keeps(Pull(a)) && (clearing ==> Push(a) in ms && Drops(Push(a)))
    {
    }
    forall k | k in keys && |k| >= MinLen
      ensures !Compatible(h, Pull(k), Push(k))
    {
    }
    if Safe(h, ms) {
      forall a, b | a in keys && b in keys && |a| >= MinLen && |b| >= MinLen && FastHash(h, a) == FastHash(h, b)
        ensures a == b
      {
        assert Compatible(h, Pull(a), Pull(b));
      }
    }
  }

  // ---- the flags of the callers ----

  /** A pull is a request that does not clear, its reply likewise; a push clears. */
  function Pull(key: seq<byte>): Message {
    Message(key, Some(Conf(None, false)), true, false)
  }

  function Reply(key: seq<byte>): Message {
    Message(key, Some(Conf(None, false)), false, false)
  }

  function Push(key: seq<byte>): Message {
    Message(key, Some(Conf(None, true)), true, true)
  }

  /**
   * A worker (a) pulls a list, gets it, pulls it again and pushes its gradient while
   * the second reply is under way: the push drops the list, and the reply, sent
   * without it, aborts the worker. The server (b) did nothing wrong.
   */
  lemma CallersRunFails(h: Hash, key: seq<byte>) returns (acts: seq<Act>)
    requires |key| >= MinLen
    ensures acts == [Send(true, Pull(key)), Receive(false), Send(false, Reply(key)), Receive(true),
                     Send(true, Pull(key)), Send(true, Push(key)), Receive(false), Send(false, Reply(key)), Receive(true)]
    ensures !After(h, acts).ok
    ensures var l := After(h, acts[..8]); l.ok && l.ba != [] && Decode1(h, l.a, l.ba[0].msg) == NoSuchKeys
    ensures After(h, acts[..6]).ab == [Again(h, Pull(key)), Again(h, Push(key))]
  {
    hide FastHash, After;
    var s := FastHash(h, key);
    var c := map[s := key];
    assert Hits(c, s, key);
    var two := OneArrived(h, Pull(key));
    var three := two + [Send(false, Reply(key))];
    Then(h, two, Send(false, Reply(key)));
    assert Sent(h, c, [], Reply(key)) == [Again(h, Reply(key))] && [Again(h, Reply(key))][1..] == [];
    var four := three + [Receive(true)];
    Then(h, three, Receive(true));
    assert After(h, four) == Link(c, c, [], [], true);
    acts := SecondPull(h, key, four);
    assert acts[..6] == four + [Send(true, Pull(key))] + [Send(true, Push(key))];
    assert acts[..8] == four + [Send(true, Pull(key))] + [Send(true, Push(key))] + [Receive(false)] + [Send(false, Reply(key))];
  }

  lemma SecondPull(h: Hash, key: seq<byte>, four: seq<Act>) returns (acts: seq<Act>)
    requires |key| >= MinLen
    requires var c := map[FastHash(h, key) := key]; After(h, four) == Link(c, c, [], [], true)
    ensures acts == four + [Send(true, Pull(key))] + [Send(true, Push(key))] + [Receive(false)] + [Send(false, Reply(key))] + [Receive(true)]
    ensures !After(h, acts).ok
    ensures var l := After(h, acts[..|four| + 4]); l.ok && l.ba != [] && Decode1(h, l.a, l.ba[0].msg) == NoSuchKeys
    ensures After(h, four + [Send(true, Pull(key))] + [Send(true, Push(key))]).ab == [Again(h, Pull(key)), Again(h, Push(key))]
  {
    hide FastHash, After;
    var s := FastHash(h, key);
    var c := map[s := key];
    assert Hits(c, s, key) && c - {s} == map[];
    var five := four + [Send(true, Pull(key))];
    Then(h, four, Send(true, Pull(key)));
    var p, q, r := Again(h, Pull(key)), Again(h, Push(key)), Again(h, Reply(key));
    assert Sent(h, c, [], Pull(key)) == [p];
    assert After(h, five) == Link(c, c, [p], [], true);
    var six := five + [Send(true, Push(key))];
    Then(h, five, Send(true, Push(key)));
    assert Sent(h, c, [p], Push(key)) == [p, q];
    assert After(h, six) == Link(map[], c, [p, q], [], true);
    var seven := six + [Receive(false)];
    Then(h, six, Receive(false));
    assert [p, q][1..] == [q];
    assert After(h, seven) == Link(map[], c, [q], [], true);
    var eight := seven + [Send(false, Reply(key))];
    Then(h, seven, Send(false, Reply(key)));
    assert Sent(h, c, [], Reply(key)) == [r];
    assert After(h, eight) == Link(map[], c, [q], [r], true);
    acts := eight + [Receive(true)];
    Then(h, eight, Receive(true));
    assert acts[..|four| + 4] == eight;
  }
}
