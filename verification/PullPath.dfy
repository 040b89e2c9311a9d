/** From slicing to reassembly: the slices of a sorted key list are what a pull puts back together. */
module PullPath {
  import opened Sequences
  import opened OrderedMatch
  import opened SliceMessage
  import opened SliceProperties
  import KVCache

  /** The key lists of the pieces that are sent, among the first i. */
  ghost function SentKeys(msg: Message, krs: seq<Range>, i: nat): seq<seq<Key>>
    requires Sliceable(msg, krs) && i <= |krs|
  {
    if i == 0 then []
    else
      var piece := PieceOf(msg, krs, i - 1, |msg.value|);
      SentKeys(msg, krs, i - 1) + (if piece.valid then [piece.key] else [])
  }

  lemma {:induction false} SentKeysJoin(msg: Message, krs: seq<Range>, i: nat)
    requires Sliceable(msg, krs) && InServers(msg, krs) && i <= |krs| && msg.key != []
    ensures Flatten(SentKeys(msg, krs, i)) == JoinedKeys(msg, krs, i)
    ensures forall j :: 0 <= j < |SentKeys(msg, krs, i)| ==> SentKeys(msg, krs, i)[j] != []
  {
    hide Pos, PieceOf, Flatten;
    if i == 0 {
      FlattenNothing<Key>();
    } else {
      SentKeysJoin(msg, krs, i - 1);
      var piece := PieceOf(msg, krs, i - 1, |msg.value|);
      KeysOfPiece(msg, krs, i - 1);
      ValidMeansKeys(msg, krs, i - 1);
      FlattenAppend(SentKeys(msg, krs, i - 1), piece.key);
      if !piece.valid {
        assert SentKeys(msg, krs, i) == SentKeys(msg, krs, i - 1);
        assert JoinedKeys(msg, krs, i) == JoinedKeys(msg, krs, i - 1);
      }
    }
  }

  lemma ValidMeansKeys(msg: Message, krs: seq<Range>, i: nat)
    requires Sliceable(msg, krs) && i < |krs| && msg.key != []
    ensures var piece := PieceOf(msg, krs, i, |msg.value|); piece.valid <==> piece.key != []
  {
    hide Pos, Segment;
  }

  /** A pull whose request was sliced over the servers, answered by each of them and reassembled in any arrival order
      yields the values of its keys in key order: the sent slices meet what ReceiveDynamic asks for. */
  lemma SlicesArePieces(msg: Message, krs: seq<Range>)
    requires Sliceable(msg, krs) && InServers(msg, krs) && msg.key != []
    requires Increasing(msg.key)
    ensures KVCache.PiecesOf(SentKeys(msg, krs, |krs|), msg.key)
  {
    hide Pos, PieceOf, Flatten, SentKeys, JoinedKeys;
    SentKeysJoin(msg, krs, |krs|);
    KeysPrefix(msg, krs, |krs|);
    AllPositions(msg, krs);
  }

  // ---- the whole pull ----

  /** The request of a pull has keys and no values. */
  function Request(range: Range, key: seq<Key>): Message {
    Message(range, key, [], false)
  }

  /** What a server with these answers replies to its piece; the sizes travel with dynamic lengths only. */
  function Reply(piece: seq<Key>, ans: KVCache.Answer, dynamic: bool): KVCache.Response {
    var r := KVCache.ReplyTo(piece, ans);
    if dynamic then r else r.(sizes := [])
  }

  ghost predicate Replied(replies: seq<KVCache.Response>, sent: seq<seq<Key>>, ans: KVCache.Answer, dynamic: bool) {
    |replies| == |sent| && forall i :: 0 <= i < |sent| ==> replies[i] == Reply(sent[i], ans, dynamic)
  }

  /** Every piece that is sent is answered by its server. */
  method AskServers(ghost msg: Message, ghost krs: seq<Range>, pieces: seq<Piece>, ans: KVCache.Answer, dynamic: bool)
    returns (replies: seq<KVCache.Response>)
    requires Sliceable(msg, krs) && |pieces| == |krs|
    requires forall i: nat {:trigger pieces[i]} :: i < |krs| ==> pieces[i] == PieceOf(msg, krs, i, |msg.value|)
    ensures Replied(replies, SentKeys(msg, krs, |krs|), ans, dynamic)
  {
    hide Sliceable, PieceOf, Reply;
    replies := [];
    for i := 0 to |pieces|
      invariant Replied(replies, SentKeys(msg, krs, i), ans, dynamic)
    {
      if pieces[i].valid {
        replies := replies + [Reply(pieces[i].key, ans, dynamic)];
      }
    }
  }

  /** The replies arrive in some order. */
  method Arrive(replies: seq<KVCache.Response>) returns (arrivals: seq<KVCache.Response>)
    ensures multiset(arrivals) == multiset(replies)
  {
    arrivals := [];
    var left := replies;
    while left != []
      invariant multiset(arrivals) + multiset(left) == multiset(replies)
      decreases |left|
    {
      var i :| 0 <= i < |left|;
      KVCache.RemoveOne(left, i);
      arrivals := arrivals + [left[i]];
      left := left[..i] + left[i + 1..];
    }
  }

  /**
   * Slices the request, lets the servers answer, and takes the replies as they
   * arrive. Not ok: the server ranges do not touch.
   */
  method AskAll(range: Range, key: seq<Key>, krs: seq<Range>, ans: KVCache.Answer, dynamic: bool)
    returns (ok: bool, arrivals: seq<KVCache.Response>, ghost sent: seq<seq<Key>>)
    requires Increasing(key) && key != [] && Ranges(krs) && krs != [] && InServers(Request(range, key), krs)
    ensures ok <==> Adjacent(krs)
    ensures ok ==> KVCache.PiecesOf(sent, key)
    ensures ok ==> exists replies :: Replied(replies, sent, ans, dynamic) && multiset(arrivals) == multiset(replies)
  {
    hide KVCache.PiecesOf, Replied, SentKeys, PieceOf, InServers;
    var msg := Request(range, key);
    var o := Slice(msg, krs);
    if !o.Sliced? {
      return false, [], [];
    }
    SlicesArePieces(msg, krs);
    sent := SentKeys(msg, krs, |krs|);
    var replies := AskServers(msg, krs, o.pieces, ans, dynamic);
    arrivals := Arrive(replies);
    ok := true;
  }

  /** A pull of dynamic lengths ends with the values and sizes of its keys in key order, whatever the servers and the order of arrival. */
  method PullDynamic(range: Range, key: seq<Key>, krs: seq<Range>, ans: KVCache.Answer)
    returns (ok: bool, p: KVCache.Progress, sizes: array<nat>)
    requires Increasing(key) && key != [] && Ranges(krs) && krs != [] && InServers(Request(range, key), krs)
    ensures ok <==> Adjacent(krs)
    ensures ok ==> p == KVCache.Complete(KVCache.Concat(key, ans))
    ensures ok ==> sizes.Length == |key| && forall j :: 0 <= j < |key| ==> sizes[j] == |ans(key[j])|
  {
    hide KVCache.PiecesOf, Replied, InServers, KVCache.Concat, KVCache.Replies;
    var arrivals; ghost var sent;
    ok, arrivals, sent := AskAll(range, key, krs, ans, true);
    if !ok {
      return false, KVCache.Failed, new nat[0];
    }
    ghost var replies :| Replied(replies, sent, ans, true) && multiset(arrivals) == multiset(replies);
    DynamicReplies(replies, sent, ans);
    p, sizes := KVCache.ReceiveDynamic(key, arrivals, sent, ans);
  }

  lemma DynamicReplies(replies: seq<KVCache.Response>, sent: seq<seq<Key>>, ans: KVCache.Answer)
    requires Replied(replies, sent, ans, true)
    ensures replies == KVCache.Replies(sent, ans)
  {
  }

  /** A pull of k values per key ends with the values of its keys in key order, whatever the servers and the order of arrival. */
  method PullFixed(range: Range, key: seq<Key>, krs: seq<Range>, k: nat, ans: KVCache.Answer)
    returns (ok: bool, val: array<KVCache.Value>)
    requires Increasing(key) && key != [] && Ranges(krs) && krs != [] && InServers(Request(range, key), krs)
    requires k > 0 && forall x :: x in key ==> |ans(x)| == k
    ensures ok <==> Adjacent(krs)
    ensures ok ==> KVCache.Answers(key, val[..], ans, k)
  {
    hide KVCache.PiecesOf, Replied, InServers, KVCache.Found, KVCache.Answers;
    var arrivals; ghost var sent;
    ok, arrivals, sent := AskAll(range, key, krs, ans, false);
    if !ok {
      return false, new KVCache.Value[0];
    }
    ghost var replies :| Replied(replies, sent, ans, false) && multiset(arrivals) == multiset(replies);
    forall t | 0 <= t < |arrivals|
      ensures Increasing(arrivals[t].key) && KVCache.Found(arrivals[t].key, key, |key|)
      ensures KVCache.Answers(arrivals[t].key, arrivals[t].data, ans, k)
    {
      FixedArrival(replies, arrivals, sent, key, ans, k, t);
    }
    forall x | x in key
      ensures exists t :: 0 <= t < |arrivals| && x in arrivals[t].key
    {
      var t := ArrivalFor(replies, arrivals, sent, key, ans, x);
    }
    ok, val := KVCache.ReceiveFixed(key, k, arrivals, ans);
  }

  lemma FixedArrival(replies: seq<KVCache.Response>, arrivals: seq<KVCache.Response>, sent: seq<seq<Key>>, key: seq<Key>,
                     ans: KVCache.Answer, k: nat, t: nat)
    requires Replied(replies, sent, ans, false) && multiset(arrivals) == multiset(replies) && KVCache.PiecesOf(sent, key)
    requires t < |arrivals| && forall x :: x in key ==> |ans(x)| == k
    ensures Increasing(arrivals[t].key) && KVCache.Found(arrivals[t].key, key, |key|)
    ensures KVCache.Answers(arrivals[t].key, arrivals[t].data, ans, k)
  {
    hide KVCache.Answers, KVCache.PiecesOf, KVCache.Concat;
    assert arrivals[t] in multiset(replies);
    var i :| 0 <= i < |replies| && replies[i] == arrivals[t];
    KVCache.PieceFound(sent, key, i);
    ConcatAnswers(sent[i], ans, k);
  }

  lemma ArrivalFor(replies: seq<KVCache.Response>, arrivals: seq<KVCache.Response>, sent: seq<seq<Key>>, key: seq<Key>,
                   ans: KVCache.Answer, x: Key) returns (t: nat)
    requires Replied(replies, sent, ans, false) && multiset(arrivals) == multiset(replies) && KVCache.PiecesOf(sent, key)
    requires x in key
    ensures t < |arrivals| && x in arrivals[t].key
  {
    var i := KVCache.PieceHolding(sent, key, x);
    assert replies[i] in multiset(arrivals);
    t :| 0 <= t < |arrivals| && arrivals[t] == replies[i];
  }

  /** With k values for every key, the concatenated answers have each answer in its place. */
  lemma {:induction false} ConcatAnswers(keys: seq<Key>, ans: KVCache.Answer, k: nat)
    requires forall i :: 0 <= i < |keys| ==> |ans(keys[i])| == k
    ensures KVCache.Answers(keys, KVCache.Concat(keys, ans), ans, k)
  {
    if keys != [] {
      ConcatAnswers(keys[1..], ans, k);
      var data, rest := KVCache.Concat(keys, ans), KVCache.Concat(keys[1..], ans);
      assert data == ans(keys[0]) + rest;
      NextSlot(|keys| - 1, k, 0);
      forall j: nat, c: nat | j < |keys| && c < k
        ensures Slot(j, k, c) < |data| && data[Slot(j, k, c)] == ans(keys[j])[c]
      {
        SlotInside(j, |keys|, k, c, |keys| * k);
        if j == 0 {
          assert Slot(0, k, c) == c;
        } else {
          NextSlot(j - 1, k, c);
          assert Slot(j - 1, k, c) < |rest|;
        }
      }
    }
  }

  lemma NextSlot(j: nat, k: nat, c: nat)
    ensures Slot(j + 1, k, c) == Slot(j, k, c) + k && (j + 1) * k == j * k + k
  {
  }
}
