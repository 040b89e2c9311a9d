/**
 * The two-way connection when packets are not decoded in the order of sending. A
 * packet is decoded when it is picked, and picking skips a request whose awaited
 * times are not finished: a receive takes any packet of the wire.
 */
module KeyCachingPicked {
  import opened Options
  import opened Bytes
  import opened KeyCaching
  import opened KeyCachingTwoWay

  datatype Turn = Post(fromA: bool, m: Message) | Take(atA: bool, i: nat)

  function Without(w: seq<Packet>, i: nat): seq<Packet>
    requires i < |w|
  {
    w[..i] + w[i + 1..]
  }

  /** One step; taking a packet that is not there does nothing. */
  function DoAny(h: Hash, l: Link, turn: Turn): Link {
    match turn
    case Post(fromA, m) => Do(h, l, Send(fromA, m))
    case Take(true, i) =>
      if i >= |l.ba| then l
      else l.(a := CacheAfterReceive(h, l.a, l.ba[i]), ba := Without(l.ba, i), ok := l.ok && Right(h, l.a, l.ba[i]))
    case Take(false, i) =>
      if i >= |l.ab| then l
      else l.(b := CacheAfterReceive(h, l.b, l.ab[i]), ab := Without(l.ab, i), ok := l.ok && Right(h, l.b, l.ab[i]))
  }

  function AfterAny(h: Hash, turns: seq<Turn>): Link {
    if turns == [] then Link(map[], map[], [], [], true) else DoAny(h, AfterAny(h, turns[..|turns| - 1]), turns[|turns| - 1])
  }

  ghost predicate Only(turns: seq<Turn>, ms: iset<Message>) {
    forall i :: 0 <= i < |turns| && turns[i].Post? ==> turns[i].m in ms
  }

  /** Whatever is sent from these messages arrives as it was meant, in whatever order packets are taken. */
  ghost predicate FaithfulAnyOrder(h: Hash, ms: iset<Message>) {
    forall turns :: Only(turns, ms) ==> AfterAny(h, turns).ok
  }

  /** A packet that decodes as it was meant without any cache, and leaves none. */
  ghost predicate Alone(h: Hash, p: Packet) {
    Right(h, map[], p) && CacheAfterReceive(h, map[], p) == map[]
  }

  ghost predicate AllAlone(h: Hash, w: seq<Packet>) {
    forall i :: 0 <= i < |w| ==> Alone(h, w[i])
  }

  ghost predicate Cacheless(h: Hash, l: Link) {
    l.ok && l.a == map[] && l.b == map[] && AllAlone(h, l.ab) && AllAlone(h, l.ba)
  }

  lemma PostedAlone(h: Hash, m: Message)
    requires !Keeps(m)
    ensures CacheAfter(h, map[], m) == map[] && Alone(h, Packet(Encoded(h, map[], m), m.key))
  {
    hide FastHash;
  }

  lemma CachelessStep(h: Hash, l: Link, turn: Turn)
    requires Cacheless(h, l) && (turn.Post? ==> !Keeps(turn.m))
    ensures Cacheless(h, DoAny(h, l, turn))
  {
    hide Alone, CacheAfter, Encoded, CacheAfterReceive, Right;
    match turn {
      case Post(fromA, m) => PostedAlone(h, m);
      case Take(true, i) => if i < |l.ba| { TakenAlone(h, l.ba, i); }
      case Take(false, i) => if i < |l.ab| { TakenAlone(h, l.ab, i); }
    }
  }

  lemma TakenAlone(h: Hash, w: seq<Packet>, i: nat)
    requires i < |w| && AllAlone(h, w)
    ensures Right(h, map[], w[i]) && CacheAfterReceive(h, map[], w[i]) == map[] && AllAlone(h, Without(w, i))
  {
    assert Alone(h, w[i]);
    hide Alone;
  }

  lemma {:induction false} CachelessRuns(h: Hash, ms: iset<Message>, turns: seq<Turn>)
    requires Only(turns, ms) && forall m :: m in ms ==> !Keeps(m)
    ensures Cacheless(h, AfterAny(h, turns))
  {
    hide Cacheless, DoAny;
    if turns == [] {
      CachelessAtFirst(h);
    } else {
      var front := turns[..|turns| - 1];
      assert forall i :: 0 <= i < |front| ==> front[i] == turns[i];
      CachelessRuns(h, ms, front);
      CachelessStep(h, AfterAny(h, front), turns[|turns| - 1]);
    }
  }

  lemma CachelessAtFirst(h: Hash)
    ensures Cacheless(h, AfterAny(h, []))
  {
  }

  lemma ThenAny(h: Hash, turns: seq<Turn>, turn: Turn)
    ensures AfterAny(h, turns + [turn]) == DoAny(h, AfterAny(h, turns), turn)
  {
    assert (turns + [turn])[..|turns|] == turns;
  }

  lemma AnyAtFirst(h: Hash)
    ensures AfterAny(h, []) == Link(map[], map[], [], [], true)
  {
  }

  lemma PostedFirst(h: Hash, m: Message)
    requires Keeps(m)
    ensures DoAny(h, Link(map[], map[], [], [], true), Post(true, m))
         == Link(map[FastHash(h, m.key) := m.key], map[], [First(h, m)], [], true)
  {
    hide FastHash;
    assert [] + [First(h, m)] == [First(h, m)];
  }

  lemma PostedAgain(h: Hash, m: Message)
    requires Keeps(m)
    ensures var c := map[FastHash(h, m.key) := m.key];
            DoAny(h, Link(c, map[], [First(h, m)], [], true), Post(true, m)) == Link(c, map[], [First(h, m), Again(h, m)], [], true)
  {
    hide FastHash;
    var c := map[FastHash(h, m.key) := m.key];
    assert Hits(c, FastHash(h, m.key), m.key);
    assert [First(h, m)] + [Again(h, m)] == [First(h, m), Again(h, m)];
  }

  lemma SentTwice(h: Hash, m: Message) returns (two: seq<Turn>)
    requires Keeps(m)
    ensures two == [Post(true, m), Post(true, m)]
    ensures AfterAny(h, two) == Link(map[FastHash(h, m.key) := m.key], map[], [First(h, m), Again(h, m)], [], true)
  {
    hide FastHash, AfterAny, DoAny, First, Again;
    var one := [] + [Post(true, m)];
    two := one + [Post(true, m)];
    AnyAtFirst(h);
    ThenAny(h, [], Post(true, m));
    PostedFirst(h, m);
    ThenAny(h, one, Post(true, m));
    PostedAgain(h, m);
  }

  /** One list, sent twice and never cleared: if the first packet is skipped, the second finds no list. */
  lemma SkippedFails(h: Hash, m: Message) returns (turns: seq<Turn>)
    requires Keeps(m)
    ensures turns == [Post(true, m), Post(true, m), Take(false, 1)]
    ensures var l := AfterAny(h, turns[..2]); l.ok && |l.ab| == 2 && Decode1(h, l.b, l.ab[1].msg) == NoSuchKeys
    ensures !AfterAny(h, turns).ok
  {
    hide FastHash, AfterAny;
    var two := SentTwice(h, m);
    turns := two + [Take(false, 1)];
    ThenAny(h, two, Take(false, 1));
    assert turns[..2] == two;
  }

  /**
   * When packets may be decoded in any order, every run over a set of messages is
   * faithful if and only if no message of the set is kept in a cache.
   */
  lemma FaithfulAnyOrderIff(h: Hash, ms: iset<Message>)
    ensures FaithfulAnyOrder(h, ms) <==> forall m :: m in ms ==> !Keeps(m)
  {
    hide AfterAny, Keeps;
    if m :| m in ms && Keeps(m) {
      var turns := SkippedFails(h, m);
      assert Only(turns, ms);
    } else {
      forall turns | Only(turns, ms)
        ensures AfterAny(h, turns).ok
      {
        CachelessRuns(h, ms, turns);
      }
    }
  }

  /** The connection that decodes in order is the one that always takes the first packet. */
  lemma FirstInOrder(h: Hash, l: Link, atA: bool)
    ensures DoAny(h, l, Take(atA, 0)) == Do(h, l, Receive(atA))
  {
    if l.ba != [] {
      assert Without(l.ba, 0) == l.ba[1..];
    }
    if l.ab != [] {
      assert Without(l.ab, 0) == l.ab[1..];
    }
  }
}
