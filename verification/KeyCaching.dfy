/**
 * The key-caching filter: both ends of a link remember key lists by signature,
 * and a list that the other end already has is not sent again. Correctness is a
 * property of two replicas of one cache that never talk about the cache itself.
 */
module KeyCaching {
  import opened Options
  import opened Bytes

  type Sig = nat
  type Hash = seq<byte> -> bv64
  type Cache = map<Sig, seq<byte>>

  /** The filter's settings travel with the message. */
  datatype Conf = Conf(signature: Option<Sig>, clearCache: bool)

  datatype Message = Message(key: seq<byte>, conf: Option<Conf>, request: bool, push: bool)

  datatype Outcome = Decoded(msg: Message, cache: Cache) | BadSignature | NoSuchKeys

  const MinLen: nat := 64
  const MaxSigLen: nat := 4096

  /** Long lists are hashed at both ends only. */
  function FastHash(hash64: Hash, key: seq<byte>): Sig {
    if |key| < MaxSigLen then hash64(key) as nat
    else (hash64(key[..MaxSigLen / 2]) ^ hash64(key[|key| - MaxSigLen / 2..])) as nat
  }

  predicate IsDone(m: Message) {
    !m.request || m.push
  }

  predicate Clears(m: Message)
    requires m.conf.Some?
  {
    m.conf.value.clearCache && IsDone(m)
  }

  predicate Hits(c: Cache, s: Sig, key: seq<byte>) {
    s in c && |c[s]| == |key|
  }

  /** What one message does to the cache of either end. */
  function CacheAfter(h: Hash, c: Cache, m: Message): Cache {
    if m.conf.None? || |m.key| < MinLen then c
    else
      var s := FastHash(h, m.key);
      if Hits(c, s, m.key) then (if Clears(m) then c - {s} else c)
      else if Clears(m) then c else c[s := m.key]
  }

  /** What is put on the wire. */
  function Encoded(h: Hash, c: Cache, m: Message): Message {
    if m.conf.None? then m
    else if |m.key| < MinLen then m.(conf := Some(m.conf.value.(signature := None)))
    else
      var s := FastHash(h, m.key);
      m.(conf := Some(m.conf.value.(signature := Some(s))), key := if Hits(c, s, m.key) then [] else m.key)
  }

  class KeyCachingFilter {
    const hash64: Hash
    var cache: Cache

    constructor (hash64: Hash)
      ensures cache == map[] && this.hash64 == hash64
    {
      this.hash64, cache := hash64, map[];
    }

    method Encode(msg: Message) returns (out: Message)
      modifies this
      ensures out == Encoded(hash64, old(cache), msg)
      ensures cache == CacheAfter(hash64, old(cache), msg)
    {
      out := msg;
      if msg.conf.None? {
        return;
      }
      if |msg.key| < MinLen {
        out := out.(conf := Some(msg.conf.value.(signature := None)));
        return;
      }
      var sig := FastHash(hash64, msg.key);
      out := out.(conf := Some(msg.conf.value.(signature := Some(sig))));
      var clear := msg.conf.value.clearCache && IsDone(msg);
      if sig in cache && |cache[sig]| == |msg.key| {
        out := out.(key := []);
        if clear {
          cache := cache - {sig};
        }
      } else if !clear {
        cache := cache[sig := msg.key];
      }
    }

    method Decode(msg: Message) returns (r: Outcome)
      modifies this
      ensures r == Decode1(hash64, old(cache), msg)
      ensures cache == if r.Decoded? then r.cache else old(cache)
    {
      if msg.conf.None? || msg.conf.value.signature.None? {
        return Decoded(msg, cache);
      }
      var sig := msg.conf.value.signature.value;
      if msg.key != [] && FastHash(hash64, msg.key) != sig {
        return BadSignature;
      }
      var clear := msg.conf.value.clearCache && IsDone(msg);
      var out := msg;
      if msg.key != [] {
        if !clear {
          cache := cache[sig := msg.key];
        }
      } else {
        if sig !in cache {
          return NoSuchKeys;
        }
        out := out.(key := cache[sig]);
        if clear {
          cache := cache - {sig};
        }
      }
      return Decoded(out, cache);
    }
  }

  /** Decoding, as a function of the receiver's cache; the two aborts are outcomes. */
  function Decode1(h: Hash, c: Cache, m: Message): Outcome {
    if m.conf.None? || m.conf.value.signature.None? then Decoded(m, c)
    else
      var s := m.conf.value.signature.value;
      if m.key != [] then
        if FastHash(h, m.key) != s then BadSignature
        else Decoded(m, if Clears(m) then c else c[s := m.key])
      else if s !in c then NoSuchKeys
      else Decoded(m.(key := c[s]), if Clears(m) then c - {s} else c)
  }

  // ------------------------------------------------------------ the one-way link

  /** The sender's cache after some messages. */
  function Sender(h: Hash, msgs: seq<Message>): Cache {
    if msgs == [] then map[] else CacheAfter(h, Sender(h, msgs[..|msgs| - 1]), msgs[|msgs| - 1])
  }

  /** What those messages put on the wire. */
  function Wire(h: Hash, msgs: seq<Message>): (w: seq<Message>)
    ensures |w| == |msgs|
  {
    if msgs == [] then []
    else Wire(h, msgs[..|msgs| - 1]) + [Encoded(h, Sender(h, msgs[..|msgs| - 1]), msgs[|msgs| - 1])]
  }

  datatype Received = Got(cache: Cache, msgs: seq<Message>) | Aborted

  /** The receiver after decoding the wire in order, from an empty cache. */
  function Receiver(h: Hash, wire: seq<Message>): Received {
    if wire == [] then Got(map[], [])
    else
      match Receiver(h, wire[..|wire| - 1])
      case Aborted => Aborted
      case Got(c, got) =>
        match Decode1(h, c, wire[|wire| - 1])
        case Decoded(m, c') => Got(c', got + [m])
        case BadSignature => Aborted
        case NoSuchKeys => Aborted
  }

  ghost predicate SameKeys(sent: seq<Message>, got: seq<Message>) {
    |sent| == |got| && forall i :: 0 <= i < |sent| ==> sent[i].key == got[i].key
  }

  /** No two different lists of one length, long enough to be cached, have one signature. */
  ghost predicate Separates(h: Hash, keys: iset<seq<byte>>) {
    forall a, b :: a in keys && b in keys && |a| == |b| >= MinLen && FastHash(h, a) == FastHash(h, b) ==> a == b
  }

  ghost predicate KeysFrom(msgs: seq<Message>, keys: iset<seq<byte>>) {
    forall i :: 0 <= i < |msgs| ==> msgs[i].key in keys
  }

  /** The sender only hands on signatures it computed itself. */
  ghost predicate Sound(h: Hash, c: Cache, keys: iset<seq<byte>>) {
    forall s :: s in c ==> c[s] in keys && |c[s]| >= MinLen && FastHash(h, c[s]) == s
  }

  /** A receiver in step with the sender decodes the message and stays in step. */
  lemma DecodeFollowsEncode(h: Hash, c: Cache, m: Message, keys: iset<seq<byte>>)
    requires Sound(h, c, keys) && m.key in keys && Separates(h, keys)
    ensures Decode1(h, c, Encoded(h, c, m)).Decoded?
    ensures Decode1(h, c, Encoded(h, c, m)).msg.key == m.key
    ensures Decode1(h, c, Encoded(h, c, m)).cache == CacheAfter(h, c, m)
    ensures Sound(h, CacheAfter(h, c, m), keys)
  {
    hide FastHash;
    var s := FastHash(h, m.key);
    if m.conf.Some? && |m.key| >= MinLen && Hits(c, s, m.key) {
      assert c[s] == m.key;
    }
    SoundAfter(h, c, m, keys);
    hide Sound;
  }

  lemma SoundAfter(h: Hash, c: Cache, m: Message, keys: iset<seq<byte>>)
    requires Sound(h, c, keys) && m.key in keys
    ensures Sound(h, CacheAfter(h, c, m), keys)
  {
    hide FastHash;
    var after := CacheAfter(h, c, m);
    forall s | s in after
      ensures after[s] in keys && |after[s]| >= MinLen && FastHash(h, after[s]) == s
    {
      assert s in c || s == FastHash(h, m.key);
    }
  }

  lemma {:induction false} InStep(h: Hash, msgs: seq<Message>, keys: iset<seq<byte>>)
    requires KeysFrom(msgs, keys) && Separates(h, keys)
    ensures var r := Receiver(h, Wire(h, msgs));
            r.Got? && r.cache == Sender(h, msgs) && SameKeys(msgs, r.msgs) && Sound(h, Sender(h, msgs), keys)
  {
    hide Separates, Sound, FastHash, Decode1, Encoded, CacheAfter;
    if msgs == [] {
      Empty(h, keys);
    } else {
      hide Receiver, Wire, Sender;
      var front, m := msgs[..|msgs| - 1], msgs[|msgs| - 1];
      InStep(h, front, keys);
      DecodeFollowsEncode(h, Sender(h, front), m, keys);
      LastStep(h, msgs);
    }
  }

  lemma LastStep(h: Hash, msgs: seq<Message>)
    requires msgs != []
    ensures var front, m := msgs[..|msgs| - 1], msgs[|msgs| - 1];
            && Sender(h, msgs) == CacheAfter(h, Sender(h, front), m)
            && Receiver(h, Wire(h, msgs)) == match Receiver(h, Wire(h, front))
                 case Aborted => Aborted
                 case Got(c, got) =>
                   match Decode1(h, c, Encoded(h, Sender(h, front), m))
                   case Decoded(m', c') => Got(c', got + [m'])
                   case BadSignature => Aborted
                   case NoSuchKeys => Aborted
  {
    hide FastHash, Decode1, Encoded, CacheAfter;
    var wire := Wire(h, msgs);
    assert wire[..|wire| - 1] == Wire(h, msgs[..|msgs| - 1]);
  }

  lemma Empty(h: Hash, keys: iset<seq<byte>>)
    ensures Sound(h, map[], keys)
  {
  }

  lemma {:induction false} WirePrefix(h: Hash, msgs: seq<Message>, n: nat)
    requires n <= |msgs|
    ensures Wire(h, msgs)[..n] == Wire(h, msgs[..n])
  {
    if n < |msgs| {
      var front := msgs[..|msgs| - 1];
      WirePrefix(h, front, n);
      assert front[..n] == msgs[..n];
      assert Wire(h, msgs)[..n] == Wire(h, front)[..n];
    } else {
      assert msgs[..n] == msgs;
    }
  }

  /**
   * At any moment of a one-way link, n messages encoded and the first k of them
   * decoded: nothing aborted, the k lists are those sent, and the receiver's
   * cache is what the sender's was after k; with nothing in flight they agree.
   */
  lemma LinkFaithful(h: Hash, msgs: seq<Message>, k: nat, keys: iset<seq<byte>>)
    requires KeysFrom(msgs, keys) && Separates(h, keys) && k <= |msgs|
    ensures var r := Receiver(h, Wire(h, msgs)[..k]);
            r.Got? && SameKeys(msgs[..k], r.msgs) && r.cache == Sender(h, msgs[..k])
  {
    WirePrefix(h, msgs, k);
    InStep(h, msgs[..k], keys);
  }

  // ----------------------------------------------------------- when it fails

  function Plain(key: seq<byte>): Message {
    Message(key, Some(Conf(None, false)), true, true)
  }

  /** Two lists that the signature confuses: the second arrives as the first. */
  lemma ConfusedKeys(h: Hash, a: seq<byte>, b: seq<byte>)
    requires |a| == |b| >= MinLen && FastHash(h, a) == FastHash(h, b)
    ensures var r := Receiver(h, Wire(h, [Plain(a), Plain(b)]));
            r.Got? && |r.msgs| == 2 && r.msgs[1].key == a
  {
    hide FastHash;
    var s := FastHash(h, a);
    var one, two := [Plain(a)], [Plain(a), Plain(b)];
    assert two[..1] == one && one[..0] == [];
    assert map[][s := a] == map[s := a];
    assert Sender(h, one) == map[s := a];
    assert Hits(map[s := a], s, b);
    var first := Plain(a).(conf := Some(Conf(Some(s), false)));
    var second := first.(key := []);
    assert Wire(h, one) == [first];
    assert Encoded(h, map[s := a], Plain(b)) == second;
    assert Wire(h, two) == [first, second];
    var w := Wire(h, two);
    assert w[..1] == [first] && [first][..0] == [];
    assert Decode1(h, map[], first) == Decoded(first, map[s := a]);
    assert Receiver(h, [first]) == Got(map[s := a], [first]);
    assert Decode1(h, map[s := a], second) == Decoded(first, map[s := a]);
    assert Receiver(h, w) == Got(map[s := a], [first, first]);
  }

  /** Every run over these key lists is faithful exactly when signatures separate them. */
  lemma FaithfulIffSeparates(h: Hash, keys: iset<seq<byte>>)
    ensures Separates(h, keys) <==>
              forall msgs :: KeysFrom(msgs, keys) ==>
                Receiver(h, Wire(h, msgs)).Got? && SameKeys(msgs, Receiver(h, Wire(h, msgs)).msgs)
  {
    if Separates(h, keys) {
      forall msgs | KeysFrom(msgs, keys)
        ensures Receiver(h, Wire(h, msgs)).Got? && SameKeys(msgs, Receiver(h, Wire(h, msgs)).msgs)
      {
        InStep(h, msgs, keys);
      }
    } else {
      var a, b :| a in keys && b in keys && |a| == |b| >= MinLen && FastHash(h, a) == FastHash(h, b) && a != b;
      var msgs := [Plain(a), Plain(b)];
      ConfusedKeys(h, a, b);
      assert KeysFrom(msgs, keys) && msgs[1].key == b;
    }
  }

  /** Lists from 4096 bytes on that differ only between their ends are never told apart. */
  lemma MiddleIsNotHashed(h: Hash, a: seq<byte>, b: seq<byte>)
    requires |a| == |b| >= MaxSigLen && a != b
    requires a[..MaxSigLen / 2] == b[..MaxSigLen / 2]
    requires a[|a| - MaxSigLen / 2..] == b[|b| - MaxSigLen / 2..]
    ensures !Separates(h, iset{a, b})
    ensures var r := Receiver(h, Wire(h, [Plain(a), Plain(b)])); r.Got? && |r.msgs| == 2 && r.msgs[1].key != b
  {
    ConfusedKeys(h, a, b);
  }
}
