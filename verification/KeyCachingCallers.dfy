/**
 * What the trainers send over a connection that decodes in order: a worker (a)
 * counts, pulls and pushes lists, a server (b) answers the pulls it has received,
 * and only the pushes of gradients clear.
 */
module KeyCachingCallers {
  import opened Options
  import opened Bytes
  import opened KeyCaching
  import opened KeyCachingTwoWay

  /** waiting: what the worker pulled without an answer yet; owed: the pulls that the server has received and not answered. */
  datatype Talk = Talk(link: Link, waiting: multiset<seq<byte>>, owed: multiset<seq<byte>>)

  datatype Turn = Count(key: seq<byte>) | Ask(key: seq<byte>) | Report(key: seq<byte>) | Answer(key: seq<byte>) | Serve | Collect

  /** A push of feature counts does not clear. */
  function CountPush(key: seq<byte>): Message {
    Message(key, Some(Conf(None, false)), true, true)
  }

  function ActOf(turn: Turn): Act {
    match turn
    case Count(key) => Send(true, CountPush(key))
    case Ask(key) => Send(true, Pull(key))
    case Report(key) => Send(true, Push(key))
    case Answer(key) => Send(false, Reply(key))
    case Serve => Receive(false)
    case Collect => Receive(true)
  }

  predicate IsPull(p: Packet) {
    p.msg.request && !p.msg.push
  }

  predicate IsDrop(p: Packet) {
    p.msg.conf.Some? && Clears(p.msg)
  }

  function Waiting(t: Talk, turn: Turn): multiset<seq<byte>> {
    match turn
    case Ask(key) => t.waiting + multiset{key}
    case Collect => if t.link.ba == [] then t.waiting else t.waiting - multiset{t.link.ba[0].key}
    case _ => t.waiting
  }

  function Owed(t: Talk, turn: Turn): multiset<seq<byte>> {
    match turn
    case Serve => if t.link.ab == [] || !IsPull(t.link.ab[0]) then t.owed else t.owed + multiset{t.link.ab[0].key}
    case Answer(key) => t.owed - multiset{key}
    case _ => t.owed
  }

  function NextTalk(h: Hash, t: Talk, turn: Turn): Talk {
    Talk(Do(h, t.link, ActOf(turn)), Waiting(t, turn), Owed(t, turn))
  }

  function AfterTalk(h: Hash, turns: seq<Turn>): Talk {
    if turns == [] then Talk(Link(map[], map[], [], [], true), multiset{}, multiset{})
    else NextTalk(h, AfterTalk(h, turns[..|turns| - 1]), turns[|turns| - 1])
  }

  /** A server answers what it owes; a patient worker pushes a list only when no pull of it is unanswered. */
  predicate Allowed(t: Talk, turn: Turn, patient: bool) {
    && (turn.Answer? ==> turn.key in t.owed)
    && (turn.Report? && patient ==> turn.key !in t.waiting)
  }

  ghost predicate Uses(turn: Turn, keys: iset<seq<byte>>) {
    turn.Serve? || turn.Collect? || turn.key in keys
  }

  ghost predicate Played(h: Hash, turns: seq<Turn>, keys: iset<seq<byte>>, patient: bool) {
    turns == [] ||
    var front, turn := turns[..|turns| - 1], turns[|turns| - 1];
    Played(h, front, keys, patient) && Allowed(AfterTalk(h, front), turn, patient) && Uses(turn, keys)
  }

  /** Every talk over these lists delivers what was sent. */
  ghost predicate AllWell(h: Hash, keys: iset<seq<byte>>, patient: bool) {
    forall turns :: Played(h, turns, keys, patient) ==> AfterTalk(h, turns).link.ok
  }

  // ---- the invariant ----

  /** A packet of one of the lists, with its list or without. */
  ghost predicate Formed(h: Hash, keys: iset<seq<byte>>, p: Packet) {
    && p.key in keys && p.msg.conf.Some?
    && (match p.msg.conf.value.signature
        case None => p.msg.key == p.key && |p.key| < MinLen
        case Some(s) => s == FastHash(h, p.key) && |p.key| >= MinLen && (p.msg.key == [] || p.msg.key == p.key))
  }

  /** A reply never has its list, unless that is short, and does not clear. */
  ghost predicate FormedReply(h: Hash, keys: iset<seq<byte>>, p: Packet) {
    Formed(h, keys, p) && !IsDrop(p) && (|p.key| >= MinLen ==> p.msg.key == [])
  }

  /** Decoding w in order from cache c gives what was meant and ends with cache c'. */
  ghost predicate Plays(h: Hash, c: Cache, w: seq<Packet>, c': Cache)
    decreases |w|
  {
    if w == [] then c == c' else Right(h, c, w[0]) && Plays(h, CacheAfterReceive(h, c, w[0]), w[1..], c')
  }

  ghost function Pulls(w: seq<Packet>): multiset<seq<byte>> {
    if w == [] then multiset{} else Pulls(w[1..]) + if IsPull(w[0]) then multiset{w[0].key} else multiset{}
  }

  ghost function KeysOf(w: seq<Packet>): multiset<seq<byte>> {
    if w == [] then multiset{} else KeysOf(w[1..]) + multiset{w[0].key}
  }

  /** Every pull without an answer is on its way, or the server owes the answer, or that is on its way. */
  ghost predicate Balanced(waiting: multiset<seq<byte>>, ab: seq<Packet>, owed: multiset<seq<byte>>, ba: seq<Packet>) {
    forall k :: waiting[k] == Pulls(ab)[k] + owed[k] + KeysOf(ba)[k]
  }

  /** The cache has every long list of these. */
  ghost predicate HasAll(h: Hash, keys: iset<seq<byte>>, c: Cache, ks: multiset<seq<byte>>) {
    forall k :: k in ks ==> k in keys && (|k| >= MinLen ==> FastHash(h, k) in c)
  }

  /** Nothing of a list that a packet on the wire will drop is under way before that packet. */
  ghost predicate DropsAlone(ab: seq<Packet>, owed: multiset<seq<byte>>, ba: seq<Packet>) {
    forall i :: 0 <= i < |ab| && IsDrop(ab[i]) ==> ab[i].key !in owed && ab[i].key !in KeysOf(ba) && NoPull(ab, i, ab[i].key)
  }

  ghost predicate NoPull(ab: seq<Packet>, n: nat, k: seq<byte>)
    requires n <= |ab|
  {
    forall j :: 0 <= j < n && IsPull(ab[j]) ==> ab[j].key != k
  }

  ghost predicate AllFormed(h: Hash, keys: iset<seq<byte>>, w: seq<Packet>) {
    forall i :: 0 <= i < |w| ==> Formed(h, keys, w[i])
  }

  ghost predicate AllReplies(h: Hash, keys: iset<seq<byte>>, w: seq<Packet>) {
    forall i :: 0 <= i < |w| ==> FormedReply(h, keys, w[i])
  }

  ghost predicate TalkInv(h: Hash, keys: iset<seq<byte>>, t: Talk) {
    var l := t.link;
    && l.ok && Sound(h, l.a, keys) && Sound(h, l.b, keys) && AllFormed(h, keys, l.ab) && AllReplies(h, keys, l.ba)
    && Plays(h, l.b, l.ab, l.a) && Balanced(t.waiting, l.ab, t.owed, l.ba)
    && HasAll(h, keys, l.a, t.waiting) && HasAll(h, keys, l.b, t.owed) && DropsAlone(l.ab, t.owed, l.ba)
  }

  // ---- wires ----

  lemma {:induction false} PlaysOn(h: Hash, c: Cache, w: seq<Packet>, c': Cache, p: Packet)
    requires Plays(h, c, w, c') && Right(h, c', p)
    ensures Plays(h, c, w + [p], CacheAfterReceive(h, c', p))
    decreases |w|
  {
    hide Right, CacheAfterReceive;
    if w == [] {
      assert ([] + [p])[1..] == [];
    } else {
      PlaysOn(h, CacheAfterReceive(h, c, w[0]), w[1..], c', p);
      assert (w + [p])[1..] == w[1..] + [p];
    }
  }

  lemma {:induction false} PullsOn(w: seq<Packet>, p: Packet)
    ensures forall k :: Pulls(w + [p])[k] == Pulls(w)[k] + if IsPull(p) && k == p.key then 1 else 0
    ensures forall k :: KeysOf(w + [p])[k] == KeysOf(w)[k] + if k == p.key then 1 else 0
  {
    if w == [] {
      assert ([] + [p])[1..] == [];
    } else {
      PullsOn(w[1..], p);
      assert (w + [p])[1..] == w[1..] + [p];
    }
  }

  lemma {:induction false} PullCounted(w: seq<Packet>, j: nat)
    requires j < |w|
    ensures IsPull(w[j]) ==> w[j].key in Pulls(w)
    ensures w[j].key in KeysOf(w)
  {
    if j > 0 {
      PullCounted(w[1..], j - 1);
    }
  }

  lemma {:induction false} CountedIsThere(w: seq<Packet>, k: seq<byte>) returns (j: nat)
    requires k in KeysOf(w)
    ensures j < |w| && w[j].key == k
  {
    if w[0].key == k {
      j := 0;
    } else {
      j := CountedIsThere(w[1..], k);
      j := j + 1;
    }
  }

  // ---- the worker sends ----

  lemma InjectiveSeparates(h: Hash, keys: iset<seq<byte>>)
    requires InjectiveOnLong(h, keys)
    ensures Separates(h, keys)
  {
    hide FastHash;
  }

  /** The packet of a message, and what it does at either end. */
  lemma SentPacket(h: Hash, keys: iset<seq<byte>>, c: Cache, m: Message)
    requires InjectiveOnLong(h, keys) && Sound(h, c, keys) && m.key in keys && m.conf.Some?
    ensures var p := Packet(Encoded(h, c, m), m.key);
            && Formed(h, keys, p) && Right(h, c, p) && CacheAfterReceive(h, c, p) == CacheAfter(h, c, m)
            && Sound(h, CacheAfter(h, c, m), keys)
            && p.msg.request == m.request && p.msg.push == m.push && (IsDrop(p) <==> Clears(m))
  {
    hide InjectiveOnLong;
    InjectiveSeparates(h, keys);
    DecodeFollowsEncode(h, c, m, keys);
    hide FastHash, Sound, Separates;
  }

  lemma FormedOn(h: Hash, keys: iset<seq<byte>>, w: seq<Packet>, p: Packet)
    requires AllFormed(h, keys, w) && Formed(h, keys, p)
    ensures AllFormed(h, keys, w + [p])
  {
    hide Formed;
  }

  lemma AloneOn(t: Talk, p: Packet)
    requires DropsAlone(t.link.ab, t.owed, t.link.ba) && Balanced(t.waiting, t.link.ab, t.owed, t.link.ba)
    requires IsDrop(p) ==> p.key !in t.waiting
    ensures DropsAlone(t.link.ab + [p], t.owed, t.link.ba)
  {
    var w := t.link.ab;
    if IsDrop(p) {
      NothingUnderWay(t, p.key);
    }
    hide IsDrop, IsPull, Balanced, KeysOf, NoPull;
    forall i | 0 <= i < |w + [p]| && IsDrop((w + [p])[i])
      ensures NoPull(w + [p], i, (w + [p])[i].key)
    {
      NoPullStays(w, p, i, (w + [p])[i].key);
    }
  }

  lemma NoPullStays(w: seq<Packet>, p: Packet, n: nat, k: seq<byte>)
    requires n <= |w| && NoPull(w, n, k)
    ensures NoPull(w + [p], n, k)
  {
    hide IsPull;
  }

  lemma NothingUnderWay(t: Talk, k: seq<byte>)
    requires Balanced(t.waiting, t.link.ab, t.owed, t.link.ba) && k !in t.waiting
    ensures k !in t.owed && k !in KeysOf(t.link.ba) && NoPull(t.link.ab, |t.link.ab|, k)
  {
    assert t.waiting[k] == 0;
    forall j | 0 <= j < |t.link.ab| && IsPull(t.link.ab[j])
      ensures t.link.ab[j].key != k
    {
      PullCounted(t.link.ab, j);
    }
  }

  /** A send of the worker: a pull is added to what it waits for, and only what it does not wait for may be cleared. */
  lemma WorkerSends(h: Hash, keys: iset<seq<byte>>, t: Talk, m: Message, waiting: multiset<seq<byte>>)
    requires InjectiveOnLong(h, keys) && TalkInv(h, keys, t) && m.key in keys && m.conf.Some?
    requires waiting == if m.request && !m.push then t.waiting + multiset{m.key} else t.waiting
    requires Clears(m) ==> m.key !in t.waiting && m.push
    ensures TalkInv(h, keys, Talk(Do(h, t.link, Send(true, m)), waiting, t.owed))
  {
    var l := t.link;
    var p := Packet(Encoded(h, l.a, m), m.key);
    SentPacket(h, keys, l.a, m);
    PlaysOn(h, l.b, l.ab, l.a, p);
    FormedOn(h, keys, l.ab, p);
    AloneOn(t, p);
    BalancedOn(t, p, waiting);
    WaitingKept(h, keys, l.a, m, t.waiting, waiting);
    hide FastHash, CacheAfter, Encoded, AllFormed, AllReplies, Right, CacheAfterReceive, Plays, Sound, HasAll, IsPull, IsDrop,
      Balanced, DropsAlone, InjectiveOnLong, Clears;
  }

  lemma BalancedOn(t: Talk, p: Packet, waiting: multiset<seq<byte>>)
    requires Balanced(t.waiting, t.link.ab, t.owed, t.link.ba)
    requires waiting == if IsPull(p) then t.waiting + multiset{p.key} else t.waiting
    ensures Balanced(waiting, t.link.ab + [p], t.owed, t.link.ba)
  {
    PullsOn(t.link.ab, p);
    hide Pulls, KeysOf, IsPull;
  }

  /** The worker keeps what it waits for: a kept list stays with all the others, a cleared one leaves all others. */
  lemma WaitingKept(h: Hash, keys: iset<seq<byte>>, c: Cache, m: Message, before: multiset<seq<byte>>, after: multiset<seq<byte>>)
    requires InjectiveOnLong(h, keys) && m.key in keys && m.conf.Some? && HasAll(h, keys, c, before)
    requires forall k :: k in after ==> k in before || (k == m.key && !Clears(m))
    requires Clears(m) ==> m.key !in before
    ensures HasAll(h, keys, CacheAfter(h, c, m), after)
  {
    hide FastHash;
    forall k | k in after
      ensures k in keys && (|k| >= MinLen ==> FastHash(h, k) in CacheAfter(h, c, m))
    {
      if |m.key| >= MinLen && |k| >= MinLen && FastHash(h, k) == FastHash(h, m.key) {
        assert k == m.key;
      }
    }
  }

  // ---- the server receives ----

  lemma ServeKeeps(h: Hash, keys: iset<seq<byte>>, t: Talk)
    requires InjectiveOnLong(h, keys) && TalkInv(h, keys, t)
    ensures TalkInv(h, keys, NextTalk(h, t, Serve))
  {
    var l := t.link;
    if l.ab != [] {
      var p := l.ab[0];
      assert Formed(h, keys, p);
      Received(h, keys, l.b, p);
      OwedKept(h, keys, t);
      FormedRest(h, keys, l.ab);
      AloneRest(t);
      BalancedServe(t);
      hide FastHash, AllFormed, AllReplies, Right, CacheAfterReceive, Sound, HasAll, IsPull, IsDrop, Balanced, DropsAlone,
        InjectiveOnLong, Formed;
    }
  }

  lemma FormedRest(h: Hash, keys: iset<seq<byte>>, w: seq<Packet>)
    requires AllFormed(h, keys, w) && w != []
    ensures AllFormed(h, keys, w[1..])
  {
    hide Formed;
  }

  lemma AloneRest(t: Talk)
    requires t.link.ab != [] && DropsAlone(t.link.ab, t.owed, t.link.ba)
    ensures DropsAlone(t.link.ab[1..], Owed(t, Serve), t.link.ba)
  {
    hide IsDrop, IsPull, KeysOf;
    var w, rest := t.link.ab, t.link.ab[1..];
    forall i | 0 <= i < |rest| && IsDrop(rest[i])
      ensures rest[i].key !in Owed(t, Serve) && rest[i].key !in KeysOf(t.link.ba) && NoPull(rest, i, rest[i].key)
    {
      assert rest[i] == w[i + 1];
      assert NoPull(w, i + 1, w[i + 1].key);
      assert IsPull(w[0]) ==> w[0].key != w[i + 1].key;
      forall j | 0 <= j < i && IsPull(rest[j])
        ensures rest[j].key != rest[i].key
      {
        assert rest[j] == w[j + 1];
      }
    }
  }

  lemma BalancedServe(t: Talk)
    requires t.link.ab != [] && Balanced(t.waiting, t.link.ab, t.owed, t.link.ba)
    ensures Balanced(t.waiting, t.link.ab[1..], Owed(t, Serve), t.link.ba)
  {
    hide IsPull, KeysOf;
  }

  /** What a packet does to the server's cache. */
  lemma Received(h: Hash, keys: iset<seq<byte>>, c: Cache, p: Packet)
    requires Formed(h, keys, p) && Sound(h, c, keys) && Right(h, c, p)
    ensures Sound(h, CacheAfterReceive(h, c, p), keys)
    ensures |p.key| >= MinLen && !IsDrop(p) ==> FastHash(h, p.key) in CacheAfterReceive(h, c, p)
    ensures forall s :: s in c && (s == FastHash(h, p.key) ==> !IsDrop(p)) ==> s in CacheAfterReceive(h, c, p)
    ensures |p.key| < MinLen ==> CacheAfterReceive(h, c, p) == c
  {
    hide FastHash;
  }

  lemma OwedKept(h: Hash, keys: iset<seq<byte>>, t: Talk)
    requires InjectiveOnLong(h, keys) && TalkInv(h, keys, t) && t.link.ab != []
    ensures HasAll(h, keys, CacheAfterReceive(h, t.link.b, t.link.ab[0]), Owed(t, Serve))
  {
    var p := t.link.ab[0];
    assert Formed(h, keys, p);
    assert IsDrop(p) ==> p.key !in t.owed;
    assert IsPull(p) ==> !IsDrop(p);
    Received(h, keys, t.link.b, p);
    KeptAfter(h, keys, t.link.b, CacheAfterReceive(h, t.link.b, p), p, t.owed, Owed(t, Serve));
  }

  lemma KeptAfter(h: Hash, keys: iset<seq<byte>>, c: Cache, c': Cache, p: Packet, before: multiset<seq<byte>>, after: multiset<seq<byte>>)
    requires InjectiveOnLong(h, keys) && p.key in keys && HasAll(h, keys, c, before)
    requires |p.key| >= MinLen && !IsDrop(p) ==> FastHash(h, p.key) in c'
    requires forall s :: s in c && (s == FastHash(h, p.key) ==> !IsDrop(p)) ==> s in c'
    requires |p.key| < MinLen ==> c' == c
    requires forall k :: k in after ==> k in before || (k == p.key && !IsDrop(p))
    requires IsDrop(p) ==> p.key !in before
    ensures HasAll(h, keys, c', after)
  {
    hide FastHash, IsDrop;
    forall k | k in after
      ensures k in keys && (|k| >= MinLen ==> FastHash(h, k) in c')
    {
      if |p.key| >= MinLen && |k| >= MinLen && FastHash(h, k) == FastHash(h, p.key) {
        assert k == p.key;
      }
    }
  }

  // ---- the server answers, the worker collects ----

  lemma AnswerKeeps(h: Hash, keys: iset<seq<byte>>, t: Talk, k: seq<byte>)
    requires InjectiveOnLong(h, keys) && TalkInv(h, keys, t) && k in t.owed
    ensures TalkInv(h, keys, NextTalk(h, t, Answer(k)))
  {
    var l := t.link;
    var p := Packet(Encoded(h, l.b, Reply(k)), k);
    AnswerPacket(h, keys, l.b, k, t.owed);
    hide FastHash, CacheAfter, Encoded;
    RepliesOn(h, keys, l.ba, p);
    AloneAnswered(t, p);
    BalancedAnswered(t, p);
    OwedLess(h, keys, l.b, t.owed, k);
    hide Formed, FormedReply, AllFormed, AllReplies, Plays, Sound, HasAll, Balanced, DropsAlone, InjectiveOnLong;
  }

  /** The server has the list that it owes, so the reply goes without it. */
  lemma AnswerPacket(h: Hash, keys: iset<seq<byte>>, c: Cache, k: seq<byte>, owed: multiset<seq<byte>>)
    requires InjectiveOnLong(h, keys) && Sound(h, c, keys) && HasAll(h, keys, c, owed) && k in owed
    ensures FormedReply(h, keys, Packet(Encoded(h, c, Reply(k)), k)) && CacheAfter(h, c, Reply(k)) == c
  {
    hide FastHash;
    if |k| >= MinLen {
      assert c[FastHash(h, k)] == k;
    }
  }

  lemma RepliesOn(h: Hash, keys: iset<seq<byte>>, w: seq<Packet>, p: Packet)
    requires AllReplies(h, keys, w) && FormedReply(h, keys, p)
    ensures AllReplies(h, keys, w + [p])
  {
    hide FormedReply;
  }

  lemma AloneAnswered(t: Talk, p: Packet)
    requires DropsAlone(t.link.ab, t.owed, t.link.ba) && p.key in t.owed
    ensures DropsAlone(t.link.ab, t.owed - multiset{p.key}, t.link.ba + [p])
  {
    PullsOn(t.link.ba, p);
    hide IsDrop, IsPull, KeysOf, Pulls, NoPull;
  }

  lemma BalancedAnswered(t: Talk, p: Packet)
    requires Balanced(t.waiting, t.link.ab, t.owed, t.link.ba) && p.key in t.owed
    ensures Balanced(t.waiting, t.link.ab, t.owed - multiset{p.key}, t.link.ba + [p])
  {
    PullsOn(t.link.ba, p);
    hide KeysOf, Pulls;
  }

  lemma OwedLess(h: Hash, keys: iset<seq<byte>>, c: Cache, ks: multiset<seq<byte>>, k: seq<byte>)
    requires HasAll(h, keys, c, ks)
    ensures HasAll(h, keys, c, ks - multiset{k})
  {
    hide FastHash;
  }

  lemma CollectKeeps(h: Hash, keys: iset<seq<byte>>, t: Talk)
    requires InjectiveOnLong(h, keys) && TalkInv(h, keys, t)
    ensures TalkInv(h, keys, NextTalk(h, t, Collect))
  {
    var l := t.link;
    if l.ba != [] {
      var p := l.ba[0];
      AnswerExpected(h, keys, t);
      hide FastHash, AllFormed, AllReplies, Right, CacheAfterReceive, Plays, Sound, HasAll, Balanced, DropsAlone, FormedReply,
        InjectiveOnLong, KeysOf;
      Collected(h, keys, l.a, p, t.waiting);
      RepliesRest(h, keys, l.ba);
      AloneCollected(t);
      BalancedCollected(t);
      OwedLess(h, keys, l.a, t.waiting, p.key);
    }
  }

  /** A reply on the wire is one that the worker waits for. */
  lemma AnswerExpected(h: Hash, keys: iset<seq<byte>>, t: Talk)
    requires t.link.ba != [] && AllReplies(h, keys, t.link.ba) && Balanced(t.waiting, t.link.ab, t.owed, t.link.ba)
    ensures FormedReply(h, keys, t.link.ba[0]) && t.link.ba[0].key in t.waiting
  {
    hide FormedReply, Pulls;
    assert KeysOf(t.link.ba)[t.link.ba[0].key] > 0;
  }

  /** The worker has the list that it waits for. */
  lemma Collected(h: Hash, keys: iset<seq<byte>>, c: Cache, p: Packet, waiting: multiset<seq<byte>>)
    requires InjectiveOnLong(h, keys) && Sound(h, c, keys) && HasAll(h, keys, c, waiting) && p.key in waiting
    requires FormedReply(h, keys, p)
    ensures Right(h, c, p) && CacheAfterReceive(h, c, p) == c
  {
    hide FastHash;
    if |p.key| >= MinLen {
      assert c[FastHash(h, p.key)] == p.key;
    }
  }

  lemma RepliesRest(h: Hash, keys: iset<seq<byte>>, w: seq<Packet>)
    requires AllReplies(h, keys, w) && w != []
    ensures AllReplies(h, keys, w[1..])
  {
    hide FormedReply;
  }

  lemma AloneCollected(t: Talk)
    requires t.link.ba != [] && DropsAlone(t.link.ab, t.owed, t.link.ba)
    ensures DropsAlone(t.link.ab, t.owed, t.link.ba[1..])
  {
    hide IsDrop, IsPull, NoPull;
    forall k | k in KeysOf(t.link.ba[1..])
      ensures k in KeysOf(t.link.ba)
    {
    }
  }

  lemma BalancedCollected(t: Talk)
    requires t.link.ba != [] && Balanced(t.waiting, t.link.ab, t.owed, t.link.ba)
    ensures Balanced(t.waiting - multiset{t.link.ba[0].key}, t.link.ab, t.owed, t.link.ba[1..])
  {
    hide Pulls;
  }

  // ---- every talk ----

  lemma TalkStep(h: Hash, keys: iset<seq<byte>>, t: Talk, turn: Turn)
    requires InjectiveOnLong(h, keys) && TalkInv(h, keys, t) && Uses(turn, keys) && Allowed(t, turn, true)
    ensures TalkInv(h, keys, NextTalk(h, t, turn))
  {
    hide TalkInv, InjectiveOnLong, Do;
    match turn {
      case Count(key) => WorkerSends(h, keys, t, CountPush(key), t.waiting);
      case Ask(key) => WorkerSends(h, keys, t, Pull(key), t.waiting + multiset{key});
      case Report(key) => WorkerSends(h, keys, t, Push(key), t.waiting);
      case Answer(key) => AnswerKeeps(h, keys, t, key);
      case Serve => ServeKeeps(h, keys, t);
      case Collect => CollectKeeps(h, keys, t);
    }
  }

  lemma {:induction false} PatientTalks(h: Hash, keys: iset<seq<byte>>, turns: seq<Turn>)
    requires InjectiveOnLong(h, keys) && Played(h, turns, keys, true)
    ensures TalkInv(h, keys, AfterTalk(h, turns))
  {
    hide InjectiveOnLong, TalkInv, NextTalk, Uses, Allowed;
    if turns == [] {
      TalkStarts(h, keys);
    } else {
      var front := turns[..|turns| - 1];
      PatientTalks(h, keys, front);
      TalkStep(h, keys, AfterTalk(h, front), turns[|turns| - 1]);
    }
  }

  lemma TalkStarts(h: Hash, keys: iset<seq<byte>>)
    ensures TalkInv(h, keys, AfterTalk(h, []))
  {
  }

  // ---- the talks that fail ----

  ghost function Acts(turns: seq<Turn>): (acts: seq<Act>)
    ensures |acts| == |turns|
  {
    seq(|turns|, i requires 0 <= i < |turns| => ActOf(turns[i]))
  }

  lemma {:induction false} TalkIsRun(h: Hash, turns: seq<Turn>)
    ensures AfterTalk(h, turns).link == After(h, Acts(turns))
  {
    hide Do;
    if turns != [] {
      TalkIsRun(h, turns[..|turns| - 1]);
      assert Acts(turns)[..|turns| - 1] == Acts(turns[..|turns| - 1]);
    }
  }

  lemma PlayedOn(h: Hash, turns: seq<Turn>, turn: Turn, keys: iset<seq<byte>>, patient: bool)
    requires Played(h, turns, keys, patient) && Allowed(AfterTalk(h, turns), turn, patient) && Uses(turn, keys)
    ensures Played(h, turns + [turn], keys, patient)
  {
    assert (turns + [turn])[..|turns|] == turns;
  }

  lemma TalkOn(h: Hash, turns: seq<Turn>, turn: Turn)
    ensures AfterTalk(h, turns + [turn]) == NextTalk(h, AfterTalk(h, turns), turn)
  {
    assert (turns + [turn])[..|turns|] == turns;
  }

  /** What is owed stays owed until it is answered. */
  lemma StillOwed(h: Hash, turns: seq<Turn>, turn: Turn, k: seq<byte>)
    requires k in AfterTalk(h, turns).owed && !turn.Answer?
    ensures k in AfterTalk(h, turns + [turn]).owed
  {
    hide Do, AfterTalk;
    TalkOn(h, turns, turn);
  }

  /** A pull that the server takes from the wire is owed. */
  lemma NowOwed(h: Hash, turns: seq<Turn>)
    requires var ab := AfterTalk(h, turns).link.ab; ab != [] && IsPull(ab[0])
    ensures AfterTalk(h, turns).link.ab[0].key in AfterTalk(h, turns + [Serve]).owed
  {
    hide Do, AfterTalk, IsPull;
    TalkOn(h, turns, Serve);
  }

  /** The first pull and its arrival. */
  lemma FirstAsked(h: Hash, keys: iset<seq<byte>>, k: seq<byte>, patient: bool)
    requires k in keys
    ensures Played(h, [Ask(k)] + [Serve], keys, patient) && k in AfterTalk(h, [Ask(k)] + [Serve]).owed
  {
    hide FastHash;
    assert [] + [Ask(k)] == [Ask(k)];
    TalkOn(h, [], Ask(k));
    PlayedOn(h, [], Ask(k), keys, patient);
    PlayedOn(h, [Ask(k)], Serve, keys, patient);
    assert AfterTalk(h, [Ask(k)]).link.ab[0] == Packet(Encoded(h, map[], Pull(k)), k);
    NowOwed(h, [Ask(k)]);
  }

  /** Two lists of one signature and one length. */
  lemma ConfusedTalk(h: Hash, keys: iset<seq<byte>>, k: seq<byte>, k': seq<byte>) returns (turns: seq<Turn>)
    requires k in keys && k' in keys && k != k' && |k| == |k'| >= MinLen && FastHash(h, k) == FastHash(h, k')
    ensures Played(h, turns, keys, true) && !AfterTalk(h, turns).link.ok
  {
    hide FastHash, After, AfterTalk, Played;
    FirstAsked(h, keys, k, true);
    var two := [Ask(k)] + [Serve];
    PlayedOn(h, two, Ask(k'), keys, true);
    turns := two + [Ask(k')] + [Serve];
    PlayedOn(h, two + [Ask(k')], Serve, keys, true);
    var acts := SameLengthFails(h, Pull(k), Pull(k'));
    SameActs(h, turns, acts);
  }

  /** Two pulls of one signature and different lengths: both ends have the second list. */
  lemma Overwritten(h: Hash, m: Message, m': Message) returns (acts: seq<Act>)
    requires Keeps(m) && Keeps(m') && FastHash(h, m.key) == FastHash(h, m'.key) && |m.key| != |m'.key|
    ensures acts == [Send(true, m), Receive(false), Send(true, m'), Receive(false)]
    ensures var c := map[FastHash(h, m.key) := m'.key]; After(h, acts) == Link(c, c, [], [], true)
  {
    hide FastHash;
    var s := FastHash(h, m.key);
    var c, c' := map[s := m.key], map[s := m'.key];
    assert c[s := m'.key] == c';
    var two := OneArrived(h, m);
    var three := two + [Send(true, m')];
    Then(h, two, Send(true, m'));
    assert Sent(h, c, [], m') == [First(h, m')] && [First(h, m')][1..] == [];
    acts := three + [Receive(false)];
    Then(h, three, Receive(false));
  }

  /** The answer to the first pull takes the second list away from the server. */
  lemma TakenBack(h: Hash, m: Message, m': Message, back: Message) returns (acts: seq<Act>)
    requires Keeps(m) && Keeps(m') && FastHash(h, m.key) == FastHash(h, m'.key) && |m.key| != |m'.key|
    requires Keeps(back) && back.key == m.key
    ensures acts == [Send(true, m), Receive(false), Send(true, m'), Receive(false), Send(false, back), Send(true, m'), Receive(false)]
    ensures !After(h, acts).ok
  {
    hide FastHash;
    var s := FastHash(h, m.key);
    var c, c' := map[s := m.key], map[s := m'.key];
    assert c'[s := m.key] == c && Hits(c', s, m'.key);
    var four := Overwritten(h, m, m');
    hide After;
    var five := four + [Send(false, back)];
    Then(h, four, Send(false, back));
    var l := After(h, five);
    assert l.a == c' && l.b == c && l.ab == [] && l.ok;
    var six := five + [Send(true, m')];
    Then(h, five, Send(true, m'));
    assert Sent(h, c', [], m') == [Again(h, m')];
    acts := six + [Receive(false)];
    Then(h, six, Receive(false));
  }

  lemma CrossedTalk(h: Hash, keys: iset<seq<byte>>, k: seq<byte>, k': seq<byte>) returns (turns: seq<Turn>)
    requires k in keys && k' in keys && |k| != |k'| && |k| >= MinLen && |k'| >= MinLen && FastHash(h, k) == FastHash(h, k')
    ensures Played(h, turns, keys, true) && !AfterTalk(h, turns).link.ok
  {
    hide FastHash, After, Played, AfterTalk, NextTalk;
    var acts := TakenBack(h, Pull(k), Pull(k'), Reply(k));
    FirstAsked(h, keys, k, true);
    var two := [Ask(k)] + [Serve];
    PlayedOn(h, two, Ask(k'), keys, true);
    StillOwed(h, two, Ask(k'), k);
    var three := two + [Ask(k')];
    PlayedOn(h, three, Serve, keys, true);
    StillOwed(h, three, Serve, k);
    var four := three + [Serve];
    PlayedOn(h, four, Answer(k), keys, true);
    var five := four + [Answer(k)];
    PlayedOn(h, five, Ask(k'), keys, true);
    var six := five + [Ask(k')];
    PlayedOn(h, six, Serve, keys, true);
    turns := six + [Serve];
    SameActs(h, turns, acts);
  }

  lemma SameActs(h: Hash, turns: seq<Turn>, acts: seq<Act>)
    requires |acts| == |turns| && forall i :: 0 <= i < |acts| ==> acts[i] == ActOf(turns[i])
    ensures AfterTalk(h, turns).link == After(h, acts)
  {
    hide AfterTalk, After;
    TalkIsRun(h, turns);
    assert Acts(turns) == acts;
  }

  /**
   * When workers push a list only with no pull of it unanswered, every talk over a
   * set of lists is faithful if and only if signatures are injective on the lists
   * of 64 bytes or more.
   */
  lemma PatientIff(h: Hash, keys: iset<seq<byte>>)
    ensures AllWell(h, keys, true) <==> InjectiveOnLong(h, keys)
  {
    hide FastHash, AfterTalk, Played;
    if InjectiveOnLong(h, keys) {
      forall turns | Played(h, turns, keys, true)
        ensures AfterTalk(h, turns).link.ok
      {
        PatientTalks(h, keys, turns);
      }
    } else {
      var k, k' :| k in keys && k' in keys && |k| >= MinLen && |k'| >= MinLen && FastHash(h, k) == FastHash(h, k') && k != k';
      if |k| == |k'| {
        var turns := ConfusedTalk(h, keys, k, k');
      } else {
        var turns := CrossedTalk(h, keys, k, k');
      }
    }
  }

  /** The second pull is on its way when the gradient is pushed. */
  lemma ImpatientTalk(h: Hash, keys: iset<seq<byte>>, k: seq<byte>) returns (turns: seq<Turn>)
    requires k in keys && |k| >= MinLen
    ensures turns == [Ask(k), Serve, Answer(k), Collect, Ask(k), Report(k), Serve, Answer(k), Collect]
    ensures Played(h, turns, keys, false) && !AfterTalk(h, turns).link.ok
  {
    hide FastHash, After, Played, AfterTalk, NextTalk, Decode1;
    var acts := CallersRunFails(h, k);
    FirstAsked(h, keys, k, false);
    var two := [Ask(k)] + [Serve];
    PlayedOn(h, two, Answer(k), keys, false);
    var three := two + [Answer(k)];
    PlayedOn(h, three, Collect, keys, false);
    var four := three + [Collect];
    PlayedOn(h, four, Ask(k), keys, false);
    var five := four + [Ask(k)];
    PlayedOn(h, five, Report(k), keys, false);
    var six := five + [Report(k)];
    SameActs(h, six, acts[..6]);
    assert IsPull(Again(h, Pull(k)));
    NowOwed(h, six);
    turns := PushedTooSoon(h, keys, k, six);
    SameActs(h, turns, acts);
  }

  lemma PushedTooSoon(h: Hash, keys: iset<seq<byte>>, k: seq<byte>, six: seq<Turn>) returns (turns: seq<Turn>)
    requires k in keys && Played(h, six, keys, false) && k in AfterTalk(h, six + [Serve]).owed
    ensures turns == six + [Serve] + [Answer(k)] + [Collect] && Played(h, turns, keys, false)
  {
    hide Played, AfterTalk;
    PlayedOn(h, six, Serve, keys, false);
    PlayedOn(h, six + [Serve], Answer(k), keys, false);
    PlayedOn(h, six + [Serve] + [Answer(k)], Collect, keys, false);
    turns := six + [Serve] + [Answer(k)] + [Collect];
  }

  /** Without that rule every talk is faithful if and only if all lists are shorter than 64 bytes. */
  lemma ImpatientIff(h: Hash, keys: iset<seq<byte>>)
    ensures AllWell(h, keys, false) <==> forall k :: k in keys ==> |k| < MinLen
  {
    hide FastHash, After, AfterTalk, Played;
    if k :| k in keys && |k| >= MinLen {
      var turns := ImpatientTalk(h, keys, k);
    } else {
      FaithfulListsIff(h, keys, true);
      forall turns | Played(h, turns, keys, false)
        ensures AfterTalk(h, turns).link.ok
      {
        TalkIsRun(h, turns);
        PlayedWithin(h, turns, keys);
      }
    }
  }

  lemma {:induction false} PlayedWithin(h: Hash, turns: seq<Turn>, keys: iset<seq<byte>>)
    requires Played(h, turns, keys, false)
    ensures Within(Acts(turns), Over(keys, true))
  {
    hide AfterTalk, Allowed;
    if turns != [] {
      PlayedWithin(h, turns[..|turns| - 1], keys);
      assert forall i :: 0 <= i < |turns| - 1 ==> Acts(turns)[i] == Acts(turns[..|turns| - 1])[i];
    }
  }
}
