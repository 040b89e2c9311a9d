/** Executor: the request engine of a customer. One engine thread scans the received messages, handles requests whose
    dependencies are met and runs callbacks; application threads submit and wait; nodes come and go. A step is one
    critical section or one call into user code. */
module Executor {
  import opened Options

  type NodeId = int
  type Time = nat

  /** A remote node, or one of the virtual group nodes. The trackers are the sets of finished timestamps. */
  datatype RemoteNode = RemoteNode(isGroup: bool, alive: bool, sent: set<Time>, recv: set<Time>, group: seq<NodeId>)

  datatype Message = Message(sender: NodeId, request: bool, time: Time, waits: seq<int>)

  datatype ReqInfo = ReqInfo(recver: NodeId, callback: bool)

  /** What the engine thread is doing with the message it picked. */
  datatype Engine =
    | NoMessage
    | Picked(msg: Message)
    | Processed(msg: Message)       // user code has returned, trackers not yet updated
    | Complete(msg: Message)        // the request of this response is complete, its callback is next

  datatype State = State(
    nodes: map<NodeId, RemoteNode>,
    inbox: seq<Message>,
    scan: Option<nat>,              // position of PickActiveMsg, which holds the inbox lock meanwhile
    engine: Engine,
    sentReqs: map<Time, ReqInfo>,
    time: Time,
    // history
    handled: seq<Message>,                   // requests given to ProcessRequest, in order
    queued: set<(NodeId, Time)>,             // request slices handed to the network
    replied: set<(NodeId, Time)>,            // responses processed
    empty: set<(NodeId, Time)>,              // slices found empty
    awaited: map<Time, set<NodeId>>,         // live receivers when a request was found complete
    ran: seq<Time>                           // callbacks run, in order
  )

  predicate IsSingle(nodes: map<NodeId, RemoteNode>, id: NodeId) {
    id in nodes && !nodes[id].isGroup
  }

  ghost predicate Init(s: State) {
    && (forall id :: id in s.nodes ==> s.nodes[id] == RemoteNode(true, true, {}, {}, []))
    && s.inbox == [] && s.scan == None && s.engine == NoMessage && s.sentReqs == map[] && s.time == 0
    && s.handled == [] && s.queued == {} && s.replied == {} && s.empty == {} && s.awaited == map[] && s.ran == []
  }

  // ---- trackers ----

  function FinishSent(nodes: map<NodeId, RemoteNode>, id: NodeId, ts: Time): map<NodeId, RemoteNode> {
    if id in nodes then nodes[id := nodes[id].(sent := nodes[id].sent + {ts})] else nodes
  }

  function FinishRecv(nodes: map<NodeId, RemoteNode>, id: NodeId, ts: Time): map<NodeId, RemoteNode> {
    if id in nodes then nodes[id := nodes[id].(recv := nodes[id].recv + {ts})] else nodes
  }

  // ---- Submit ----

  /** Marks the members with an empty slice as finished. */
  function FinishEmpty(nodes: map<NodeId, RemoteNode>, group: seq<NodeId>, valid: seq<bool>, ts: Time): map<NodeId, RemoteNode>
    requires |group| == |valid|
  {
    if group == [] then nodes
    else FinishEmpty(if valid[0] then nodes else FinishSent(nodes, group[0], ts), group[1..], valid[1..], ts)
  }

  ghost predicate SubmitStep(s: State, t: State, recver: NodeId, valid: seq<bool>, callback: bool) {
    && recver in s.nodes && |valid| == |s.nodes[recver].group|
    && var group, ts := s.nodes[recver].group, s.time;
       t == s.(time := ts + 1, sentReqs := s.sentReqs[ts := ReqInfo(recver, callback)],
               nodes := FinishEmpty(s.nodes, group, valid, ts),
               empty := s.empty + (set i | 0 <= i < |group| && !valid[i] :: (group[i], ts)),
               queued := s.queued + (set i | 0 <= i < |group| && valid[i] :: (group[i], ts)))
  }

  // ---- receiving ----

  /** The network may duplicate, delay and reorder, but a response comes from a node that was sent the request. */
  ghost predicate AcceptStep(s: State, t: State, msg: Message) {
    && s.scan.None? && (msg.sender in s.nodes ==> !s.nodes[msg.sender].isGroup)
    && (!msg.request ==> (msg.sender, msg.time) in s.queued)
    && t == s.(inbox := s.inbox + [msg])
  }

  function Erase(inbox: seq<Message>, i: nat): seq<Message>
    requires i < |inbox|
  {
    inbox[..i] + inbox[i + 1..]
  }

  predicate Twice(node: RemoteNode, msg: Message) {
    if msg.request then msg.time in node.recv else msg.time in node.sent
  }

  predicate WaitsMet(node: RemoteNode, msg: Message) {
    forall w :: w in msg.waits ==> w < 0 || w in node.recv
  }

  ghost predicate BeginScanStep(s: State, t: State) {
    s.engine == NoMessage && s.scan.None? && t == s.(scan := Some(0))
  }

  /** One iteration of the loop of PickActiveMsg. */
  ghost predicate ScanStep(s: State, t: State) {
    && s.scan.Some?
    && if s.scan.value >= |s.inbox| then t == s.(scan := None)      // nothing to pick: sleep
       else
         var i, msg := s.scan.value, s.inbox[s.scan.value];
         if msg.sender !in s.nodes then t == s                      // not known yet: try again
         else
           var node := s.nodes[msg.sender];
           if !node.alive || Twice(node, msg) then t == s.(inbox := Erase(s.inbox, i))
           else if msg.request && !WaitsMet(node, msg) then t == s.(scan := Some(i + 1))
           else t == s.(inbox := Erase(s.inbox, i), scan := None, engine := Picked(msg))
  }

  // ---- ProcessActiveMsg ----

  /** The customer's ProcessRequest or ProcessResponse. */
  ghost predicate UserCodeStep(s: State, t: State) {
    && s.engine.Picked?
    && t == s.(engine := Processed(s.engine.msg),
               handled := if s.engine.msg.request then s.handled + [s.engine.msg] else s.handled)
  }

  /** FinishRecvReq for a handled request. */
  ghost predicate FinishRequestStep(s: State, t: State) {
    && s.engine.Processed? && s.engine.msg.request
    && t == s.(engine := NoMessage, nodes := FinishRecv(s.nodes, s.engine.msg.sender, s.engine.msg.time))
  }

  ghost predicate AllReplied(nodes: map<NodeId, RemoteNode>, group: seq<NodeId>, ts: Time) {
    forall r :: r in group && r in nodes && nodes[r].alive ==> ts in nodes[r].sent
  }

  ghost function Live(nodes: map<NodeId, RemoteNode>, group: seq<NodeId>): set<NodeId> {
    set r | r in group && r in nodes && nodes[r].alive
  }

  /** The critical section of a response: mark the sender, then see whether the whole request is complete. */
  ghost predicate FinishResponseStep(s: State, t: State) {
    && s.engine.Processed? && !s.engine.msg.request
    && var msg := s.engine.msg;
       var nodes := FinishSent(s.nodes, msg.sender, msg.time);
       var s1 := s.(nodes := nodes, replied := s.replied + {(msg.sender, msg.time)});
       && msg.time in s.sentReqs
       && var recver := s.sentReqs[msg.time].recver;
          if recver != msg.sender && recver in nodes && nodes[recver].isGroup then
            if AllReplied(nodes, nodes[recver].group, msg.time) then
              t == s1.(engine := Complete(msg), nodes := FinishSent(nodes, recver, msg.time),
                       awaited := Recorded(s, msg.time, Live(nodes, nodes[recver].group)))
            else t == s1.(engine := NoMessage)
          else t == s1.(engine := Complete(msg), awaited := Recorded(s, msg.time, {recver}))
  }

  /** The receivers a completed request is recorded with; once its callback has been run the record stays. */
  ghost function Recorded(s: State, ts: Time, receivers: set<NodeId>): map<Time, set<NodeId>> {
    if ts in s.ran then s.awaited else s.awaited[ts := receivers]
  }

  ghost predicate CallbackStep(s: State, t: State) {
    && s.engine.Complete? && s.engine.msg.time in s.sentReqs
    && var ts := s.engine.msg.time;
       t == if s.sentReqs[ts].callback
            then s.(engine := NoMessage, ran := s.ran + [ts], sentReqs := s.sentReqs[ts := s.sentReqs[ts].(callback := false)])
            else s.(engine := NoMessage)
  }

  // ---- waiting, adding and removing ----

  /** The side effect of CheckFinished on a group: members are marked up to the first live unfinished one. */
  function MarkGroup(nodes: map<NodeId, RemoteNode>, group: seq<NodeId>, ts: Time, sent: bool): map<NodeId, RemoteNode> {
    if group == [] then nodes
    else if group[0] !in nodes then MarkGroup(nodes, group[1..], ts, sent)
    else
      var node := nodes[group[0]];
      if node.alive && ts !in (if sent then node.sent else node.recv) then nodes
      else MarkGroup(if sent then FinishSent(nodes, group[0], ts) else FinishRecv(nodes, group[0], ts), group[1..], ts, sent)
  }

  ghost predicate WaitStep(s: State, t: State, id: NodeId, ts: Time, sent: bool) {
    && id in s.nodes && s.nodes[id].isGroup
    && t == s.(nodes := MarkGroup(s.nodes, s.nodes[id].group, ts, sent))
  }

  /** The group without the first entry of id. */
  function Without(group: seq<NodeId>, id: NodeId): (g: seq<NodeId>)
    ensures forall r :: r in g ==> r in group
  {
    if group == [] then [] else if group[0] == id then group[1..] else [group[0]] + Without(group[1..], id)
  }

  /** Where the key ranges put a member inside a group is of no concern here: groups are compared as multisets. */
  ghost predicate Left(before: seq<NodeId>, after: seq<NodeId>, id: NodeId) {
    multiset(after) == multiset(Without(before, id))
  }

  ghost predicate Rejoined(before: seq<NodeId>, after: seq<NodeId>, id: NodeId) {
    multiset(after) == multiset(Without(before, id)) + multiset{id}
  }

  /** A node joins, or is announced again while alive: it leaves all groups, enters those of its role, and its own group. */
  ghost predicate AddNodeStep(s: State, t: State, id: NodeId, roles: set<NodeId>, nodes: map<NodeId, RemoteNode>) {
    && (id in s.nodes ==> !s.nodes[id].isGroup && s.nodes[id].alive)
    && nodes.Keys == s.nodes.Keys + {id}
    && nodes[id] == (if id in s.nodes then s.nodes[id].(group := s.nodes[id].group + [id])
                     else RemoteNode(false, true, {}, {}, [id]))
    && (forall g :: g in s.nodes && g != id ==>
          && nodes[g] == s.nodes[g].(group := nodes[g].group)
          && (if !s.nodes[g].isGroup then nodes[g].group == s.nodes[g].group
              else if g in roles then Rejoined(s.nodes[g].group, nodes[g].group, id)
              else Left(s.nodes[g].group, nodes[g].group, id)))
    && t == s.(nodes := nodes)
  }

  ghost predicate RemoveNodeStep(s: State, t: State, id: NodeId, nodes: map<NodeId, RemoteNode>) {
    && IsSingle(s.nodes, id) && nodes.Keys == s.nodes.Keys && nodes[id] == s.nodes[id].(alive := false)
    && (forall g :: g in s.nodes && g != id ==>
          && nodes[g] == s.nodes[g].(group := nodes[g].group)
          && (if s.nodes[g].isGroup then Left(s.nodes[g].group, nodes[g].group, id) else nodes[g].group == s.nodes[g].group))
    && t == s.(nodes := nodes)
  }

  datatype Action =
    | Submit(recver: NodeId, valid: seq<bool>, callback: bool)
    | Accept(msg: Message)
    | BeginScan | Scan | UserCode | FinishRequest | FinishResponse | Callback
    | Wait(id: NodeId, ts: Time, sent: bool)
    | AddNode(node: NodeId, roles: set<NodeId>, nodes: map<NodeId, RemoteNode>)
    | RemoveNode(gone: NodeId, nodes': map<NodeId, RemoteNode>)

  ghost predicate Step(s: State, t: State, a: Action) {
    match a
    case Submit(recver, valid, callback) => SubmitStep(s, t, recver, valid, callback)
    case Accept(msg) => AcceptStep(s, t, msg)
    case BeginScan => BeginScanStep(s, t)
    case Scan => ScanStep(s, t)
    case UserCode => UserCodeStep(s, t)
    case FinishRequest => FinishRequestStep(s, t)
    case FinishResponse => FinishResponseStep(s, t)
    case Callback => CallbackStep(s, t)
    case Wait(id, ts, sent) => WaitStep(s, t, id, ts, sent)
    case AddNode(id, roles, nodes) => AddNodeStep(s, t, id, roles, nodes)
    case RemoveNode(id, nodes) => RemoveNodeStep(s, t, id, nodes)
  }

  ghost predicate Run(states: seq<State>, actions: seq<Action>) {
    && |states| == |actions| + 1 && Init(states[0])
    && forall i :: 0 <= i < |actions| ==> Step(states[i], states[i + 1], actions[i])
  }

  // ---- requests: at most once, dependencies first ----

  ghost predicate Handled(log: seq<Message>, sender: NodeId, ts: Time) {
    exists i :: 0 <= i < |log| && log[i].sender == sender && log[i].time == ts
  }

  ghost predicate HandledOnce(log: seq<Message>) {
    forall i, j :: 0 <= i < j < |log| ==> log[i].sender != log[j].sender || log[i].time != log[j].time
  }

  /** Every request in the log comes after the requests of the same sender that it waits for. */
  ghost predicate AfterWaits(log: seq<Message>) {
    forall j, w :: 0 <= j < |log| && w in log[j].waits && w >= 0 ==> Handled(log[..j], log[j].sender, w)
  }

  /** For live single nodes a finished received timestamp was handled. */
  ghost predicate RecvMeansHandled(s: State) {
    forall id, ts: Time :: IsSingle(s.nodes, id) && s.nodes[id].alive && ts in s.nodes[id].recv ==> Handled(s.handled, id, ts)
  }

  /** A handled request is marked, except while the engine is about to mark it. */
  ghost predicate HandledMeansRecv(s: State) {
    forall i :: 0 <= i < |s.handled| ==>
      var m := s.handled[i];
      m.sender in s.nodes && !s.nodes[m.sender].isGroup &&
      (m.time in s.nodes[m.sender].recv || (m.request && s.engine == Processed(m)))
  }

  ghost predicate EngineReady(s: State) {
    && (s.engine.Picked? && s.engine.msg.request ==>
          && IsSingle(s.nodes, s.engine.msg.sender)
          && !Handled(s.handled, s.engine.msg.sender, s.engine.msg.time)
          && forall w :: w in s.engine.msg.waits && w >= 0 ==> Handled(s.handled, s.engine.msg.sender, w))
    && (s.engine.Processed? && s.engine.msg.request ==>
          IsSingle(s.nodes, s.engine.msg.sender) && Handled(s.handled, s.engine.msg.sender, s.engine.msg.time))
    && (s.scan.Some? ==> s.engine == NoMessage)
  }

  ghost predicate SendersSingle(s: State) {
    forall i :: 0 <= i < |s.inbox| ==> s.inbox[i].sender in s.nodes ==> !s.nodes[s.inbox[i].sender].isGroup
  }

  ghost predicate RequestInv(s: State) {
    && HandledOnce(s.handled) && AfterWaits(s.handled) && RecvMeansHandled(s) && HandledMeansRecv(s)
    && EngineReady(s) && SendersSingle(s)
  }

  // ---- callbacks: at most once, complete requests only ----

  /** For live single nodes a finished sent timestamp was replied to or had an empty slice. */
  ghost predicate SentMeansAnswered(s: State) {
    forall id, ts: Time :: IsSingle(s.nodes, id) && s.nodes[id].alive && ts in s.nodes[id].sent ==>
      (id, ts) in s.replied || (id, ts) in s.empty
  }

  ghost predicate OwnGroups(s: State) {
    forall id, r {:trigger r in s.nodes[id].group} :: IsSingle(s.nodes, id) && r in s.nodes[id].group ==> r == id
  }

  ghost predicate GroupsOfSingles(s: State) {
    forall id, r {:trigger r in s.nodes[id].group} ::
      id in s.nodes && r in s.nodes[id].group ==> IsSingle(s.nodes, r)
  }

  /** A response can only come from the receiver itself or, for a group, from a single node. */
  ghost predicate QueuedToReceiver(s: State) {
    forall id, ts: Time :: (id, ts) in s.queued ==>
      ts in s.sentReqs && s.sentReqs[ts].recver in s.nodes && IsSingle(s.nodes, id) &&
      (!s.nodes[s.sentReqs[ts].recver].isGroup ==> s.sentReqs[ts].recver == id)
  }

  ghost predicate ResponsesQueued(s: State) {
    && (forall i :: 0 <= i < |s.inbox| && !s.inbox[i].request ==> (s.inbox[i].sender, s.inbox[i].time) in s.queued)
    && (!s.engine.NoMessage? && !s.engine.msg.request ==> (s.engine.msg.sender, s.engine.msg.time) in s.queued)
    && (s.engine.Complete? ==> !s.engine.msg.request && s.engine.msg.time in s.awaited)
  }

  ghost predicate AwaitedAnswered(s: State) {
    forall ts, r :: ts in s.awaited && r in s.awaited[ts] ==> (r, ts) in s.replied || (r, ts) in s.empty
  }

  ghost predicate RanOnce(s: State) {
    && (forall i, j :: 0 <= i < j < |s.ran| ==> s.ran[i] != s.ran[j])
    && (forall i :: 0 <= i < |s.ran| ==> s.ran[i] in s.awaited && s.ran[i] in s.sentReqs && !s.sentReqs[s.ran[i]].callback)
    && (forall ts :: ts in s.sentReqs ==> ts < s.time)
  }

  ghost predicate CallbackInv(s: State) {
    && SentMeansAnswered(s) && OwnGroups(s) && GroupsOfSingles(s) && QueuedToReceiver(s) && ResponsesQueued(s)
    && AwaitedAnswered(s) && RanOnce(s)
  }

  // ---- effects on the trackers ----

  lemma {:induction false} FinishEmptyEffect(nodes: map<NodeId, RemoteNode>, group: seq<NodeId>, valid: seq<bool>, ts: Time)
    requires |group| == |valid|
    ensures var after := FinishEmpty(nodes, group, valid, ts);
      && after.Keys == nodes.Keys
      && forall id :: id in nodes ==>
           && after[id] == nodes[id].(sent := after[id].sent)
           && nodes[id].sent <= after[id].sent <= nodes[id].sent + {ts}
           && (after[id].sent != nodes[id].sent ==> exists i :: 0 <= i < |group| && !valid[i] && group[i] == id)
  {
    if group != [] {
      var nodes1 := if valid[0] then nodes else FinishSent(nodes, group[0], ts);
      FinishEmptyEffect(nodes1, group[1..], valid[1..], ts);
      var after := FinishEmpty(nodes, group, valid, ts);
      forall id | id in nodes && after[id].sent != nodes[id].sent
        ensures exists i :: 0 <= i < |group| && !valid[i] && group[i] == id
      {
        if after[id].sent != nodes1[id].sent {
          var i :| 0 <= i < |group[1..]| && !valid[1..][i] && group[1..][i] == id;
          assert !valid[i + 1] && group[i + 1] == id;
        } else {
          assert !valid[0] && group[0] == id;
        }
      }
    }
  }

  /** Waiting marks dead members only. */
  lemma {:induction false} MarkGroupEffect(nodes: map<NodeId, RemoteNode>, group: seq<NodeId>, ts: Time, sent: bool)
    ensures var after := MarkGroup(nodes, group, ts, sent);
      && after.Keys == nodes.Keys
      && forall id :: id in nodes ==>
           && after[id] == nodes[id].(sent := after[id].sent, recv := after[id].recv)
           && nodes[id].recv <= after[id].recv && nodes[id].sent <= after[id].sent
           && (nodes[id].alive ==> after[id] == nodes[id])
  {
    if group != [] {
      if group[0] !in nodes {
        MarkGroupEffect(nodes, group[1..], ts, sent);
      } else {
        var node := nodes[group[0]];
        if !(node.alive && ts !in (if sent then node.sent else node.recv)) {
          var nodes1 := if sent then FinishSent(nodes, group[0], ts) else FinishRecv(nodes, group[0], ts);
          if node.alive {
            assert node.sent + {ts} == node.sent || !sent;
            assert node.recv + {ts} == node.recv || sent;
          }
          MarkGroupEffect(nodes1, group[1..], ts, sent);
        }
      }
    }
  }

  lemma LeftSubset(before: seq<NodeId>, after: seq<NodeId>, id: NodeId, r: NodeId)
    requires Left(before, after, id) || Rejoined(before, after, id)
    requires r in after
    ensures r in before || r == id
  {
    assert multiset(after)[r] > 0;
    assert r in Without(before, id) || r == id;
  }

  // ---- requests ----

  /** No live node has a received timestamp that it did not have before, and no node changes its kind. */
  ghost predicate RecvKept(s: State, t: State) {
    && (forall id :: id in s.nodes ==>
          && id in t.nodes && t.nodes[id].isGroup == s.nodes[id].isGroup
          && s.nodes[id].recv <= t.nodes[id].recv
          && (t.nodes[id].alive ==> s.nodes[id].alive && t.nodes[id].recv == s.nodes[id].recv))
    && (forall id :: id in t.nodes && id !in s.nodes ==> !t.nodes[id].isGroup && t.nodes[id].recv == {})
  }

  lemma RequestFrame(s: State, t: State)
    requires RequestInv(s) && RecvKept(s, t)
    requires t.handled == s.handled && t.inbox == s.inbox && t.scan == s.scan
    requires t.engine == s.engine || ((s.engine.NoMessage? || !s.engine.msg.request) && (t.engine.NoMessage? || !t.engine.msg.request))
    requires t.scan.Some? ==> t.engine == NoMessage
    ensures RequestInv(t)
  {
  }

  lemma ErasedSubset(inbox: seq<Message>, i: nat, j: nat)
    requires i < |inbox| && j < |Erase(inbox, i)|
    ensures Erase(inbox, i)[j] in inbox
  {
  }

  lemma RequestScan(s: State, t: State)
    requires RequestInv(s) && ScanStep(s, t)
    ensures RequestInv(t)
  {
    if s.scan.value < |s.inbox| {
      var i, msg := s.scan.value, s.inbox[s.scan.value];
      if t.inbox != s.inbox {
        forall j | 0 <= j < |t.inbox|
          ensures t.inbox[j].sender in t.nodes ==> !t.nodes[t.inbox[j].sender].isGroup
        {
          ErasedSubset(s.inbox, i, j);
        }
      }
      if t.engine.Picked? && msg.request {
        PickedFresh(s, msg);
      }
    }
  }

  /** A picked request was not handled before, and everything it waits for was. */
  lemma PickedFresh(s: State, msg: Message)
    requires RecvMeansHandled(s) && HandledMeansRecv(s) && s.engine == NoMessage
    requires IsSingle(s.nodes, msg.sender) && msg.request
    requires s.nodes[msg.sender].alive && !Twice(s.nodes[msg.sender], msg) && WaitsMet(s.nodes[msg.sender], msg)
    ensures !Handled(s.handled, msg.sender, msg.time)
    ensures forall w :: w in msg.waits && w >= 0 ==> Handled(s.handled, msg.sender, w)
  {
  }

  lemma RequestUserCode(s: State, t: State)
    requires RequestInv(s) && UserCodeStep(s, t)
    ensures RequestInv(t)
  {
    if s.engine.msg.request {
      var msg := s.engine.msg;
      HandledGrows(s.handled, msg);
      assert t.handled[|s.handled|] == msg;
      forall j, w | 0 <= j < |t.handled| && w in t.handled[j].waits && w >= 0
        ensures Handled(t.handled[..j], t.handled[j].sender, w)
      {
        if j < |s.handled| {
          assert t.handled[..j] == s.handled[..j];
        } else {
          assert t.handled[..j] == s.handled;
        }
      }
    } else {
      RequestFrame(s, t);
    }
  }

  lemma HandledGrows(log: seq<Message>, msg: Message)
    ensures forall id, ts: Time :: Handled(log, id, ts) ==> Handled(log + [msg], id, ts)
  {
    forall id, ts: Time | Handled(log, id, ts)
      ensures Handled(log + [msg], id, ts)
    {
      var i :| 0 <= i < |log| && log[i].sender == id && log[i].time == ts;
      assert (log + [msg])[i] == log[i];
    }
  }

  lemma RequestFinish(s: State, t: State)
    requires RequestInv(s) && FinishRequestStep(s, t)
    ensures RequestInv(t)
  {
  }

  lemma RequestAccept(s: State, t: State, msg: Message)
    requires RequestInv(s) && AcceptStep(s, t, msg)
    ensures RequestInv(t)
  {
  }

  lemma RequestKept(s: State, t: State, a: Action)
    requires RequestInv(s) && Step(s, t, a)
    ensures RequestInv(t)
  {
    hide RequestInv, SubmitStep, AcceptStep, BeginScanStep, ScanStep, UserCodeStep, FinishRequestStep, FinishResponseStep,
      CallbackStep, WaitStep, AddNodeStep, RemoveNodeStep;
    match a {
      case Submit(recver, valid, callback) => RequestSubmit(s, t, recver, valid, callback);
      case Accept(msg) => RequestAccept(s, t, msg);
      case BeginScan => RequestIdle(s, t);
      case Scan => RequestScan(s, t);
      case UserCode => RequestUserCode(s, t);
      case FinishRequest => RequestFinish(s, t);
      case FinishResponse => RequestFinishResponse(s, t);
      case Callback => RequestCallback(s, t);
      case Wait(id, ts, sent) => RequestWait(s, t, id, ts, sent);
      case AddNode(id, roles, nodes) => RequestAddNode(s, t, id, roles, nodes);
      case RemoveNode(id, nodes) => RequestRemoveNode(s, t, id, nodes);
    }
  }

  lemma RequestSubmit(s: State, t: State, recver: NodeId, valid: seq<bool>, callback: bool)
    requires RequestInv(s) && SubmitStep(s, t, recver, valid, callback)
    ensures RequestInv(t)
  {
    hide RequestInv;
    FinishEmptyEffect(s.nodes, s.nodes[recver].group, valid, s.time);
    ScanIdle(s);
    RequestFrame(s, t);
  }

  lemma RequestFinishResponse(s: State, t: State)
    requires RequestInv(s) && FinishResponseStep(s, t)
    ensures RequestInv(t)
  {
    hide RequestInv;
    ScanIdle(s);
    RequestFrame(s, t);
  }

  lemma RequestWait(s: State, t: State, id: NodeId, ts: Time, sent: bool)
    requires RequestInv(s) && WaitStep(s, t, id, ts, sent)
    ensures RequestInv(t)
  {
    hide RequestInv;
    MarkGroupEffect(s.nodes, s.nodes[id].group, ts, sent);
    ScanIdle(s);
    RequestFrame(s, t);
  }

  lemma RequestAddNode(s: State, t: State, id: NodeId, roles: set<NodeId>, nodes: map<NodeId, RemoteNode>)
    requires RequestInv(s) && AddNodeStep(s, t, id, roles, nodes)
    ensures RequestInv(t)
  {
    hide RequestInv;
    ScanIdle(s);
    RequestFrame(s, t);
  }

  lemma RequestRemoveNode(s: State, t: State, id: NodeId, nodes: map<NodeId, RemoteNode>)
    requires RequestInv(s) && RemoveNodeStep(s, t, id, nodes)
    ensures RequestInv(t)
  {
    hide RequestInv;
    ScanIdle(s);
    RequestFrame(s, t);
  }

  lemma ScanIdle(s: State)
    requires RequestInv(s)
    ensures s.scan.Some? ==> s.engine == NoMessage
  {
  }

  lemma RequestIdle(s: State, t: State)
    requires RequestInv(s) && BeginScanStep(s, t)
    ensures RequestInv(t)
  {
  }

  lemma RequestCallback(s: State, t: State)
    requires RequestInv(s) && CallbackStep(s, t)
    ensures RequestInv(t)
  {
  }

  // ---- callbacks ----

  /** What the callback invariant asks of a change of nodes alone. */
  ghost predicate SentKept(s: State, t: State) {
    && (forall id :: id in s.nodes ==>
          && id in t.nodes && t.nodes[id].isGroup == s.nodes[id].isGroup
          && (!t.nodes[id].isGroup && t.nodes[id].alive ==> s.nodes[id].alive && t.nodes[id].sent == s.nodes[id].sent))
    && (forall id :: id in t.nodes && id !in s.nodes ==> !t.nodes[id].isGroup && t.nodes[id].sent == {})
  }

  lemma CallbackNodes(s: State, t: State)
    requires CallbackInv(s) && SentKept(s, t) && OwnGroups(t) && GroupsOfSingles(t)
    requires t == s.(nodes := t.nodes)
    ensures CallbackInv(t)
  {
  }

  lemma CallbackAddNode(s: State, t: State, id: NodeId, roles: set<NodeId>, nodes: map<NodeId, RemoteNode>)
    requires CallbackInv(s) && AddNodeStep(s, t, id, roles, nodes)
    ensures CallbackInv(t)
  {
    forall g, r | g in t.nodes && r in t.nodes[g].group
      ensures IsSingle(t.nodes, r) && (IsSingle(t.nodes, g) ==> r == g)
    {
      if g != id && s.nodes[g].isGroup {
        LeftSubset(s.nodes[g].group, nodes[g].group, id, r);
      }
    }
    CallbackNodes(s, t);
  }

  lemma CallbackRemoveNode(s: State, t: State, id: NodeId, nodes: map<NodeId, RemoteNode>)
    requires CallbackInv(s) && RemoveNodeStep(s, t, id, nodes)
    ensures CallbackInv(t)
  {
    forall g, r | g in t.nodes && r in t.nodes[g].group
      ensures IsSingle(t.nodes, r) && (IsSingle(t.nodes, g) ==> r == g)
    {
      if g != id && s.nodes[g].isGroup {
        LeftSubset(s.nodes[g].group, nodes[g].group, id, r);
      }
    }
    CallbackNodes(s, t);
  }

  lemma CallbackWait(s: State, t: State, id: NodeId, ts: Time, sent: bool)
    requires CallbackInv(s) && WaitStep(s, t, id, ts, sent)
    ensures CallbackInv(t)
  {
    MarkGroupEffect(s.nodes, s.nodes[id].group, ts, sent);
    CallbackNodes(s, t);
  }

  lemma CallbackSubmit(s: State, t: State, recver: NodeId, valid: seq<bool>, callback: bool)
    requires CallbackInv(s) && SubmitStep(s, t, recver, valid, callback)
    ensures CallbackInv(t)
  {
    FinishEmptyEffect(s.nodes, s.nodes[recver].group, valid, s.time);
    assert SentMeansAnswered(t) by { SubmitAnswered(s, t, recver, valid, callback); }
    assert s.time !in s.sentReqs;
    assert QueuedToReceiver(t) by { SubmitQueued(s, t, recver, valid, callback); }
  }

  lemma SubmitAnswered(s: State, t: State, recver: NodeId, valid: seq<bool>, callback: bool)
    requires SentMeansAnswered(s) && SubmitStep(s, t, recver, valid, callback)
    ensures SentMeansAnswered(t)
  {
    var group := s.nodes[recver].group;
    FinishEmptyEffect(s.nodes, group, valid, s.time);
    forall id, ts: Time | IsSingle(t.nodes, id) && t.nodes[id].alive && ts in t.nodes[id].sent
      ensures (id, ts) in t.replied || (id, ts) in t.empty
    {
      if ts !in s.nodes[id].sent {
        var i :| 0 <= i < |group| && !valid[i] && group[i] == id;
        assert (group[i], s.time) in t.empty;
      }
    }
  }

  lemma SubmitQueued(s: State, t: State, recver: NodeId, valid: seq<bool>, callback: bool)
    requires CallbackInv(s) && SubmitStep(s, t, recver, valid, callback)
    ensures QueuedToReceiver(t)
  {
    var group := s.nodes[recver].group;
    FinishEmptyEffect(s.nodes, group, valid, s.time);
    forall id, ts: Time | (id, ts) in t.queued
      ensures ts in t.sentReqs && t.sentReqs[ts].recver in t.nodes && IsSingle(t.nodes, id)
      ensures !t.nodes[t.sentReqs[ts].recver].isGroup ==> t.sentReqs[ts].recver == id
    {
      if (id, ts) in s.queued {
        assert ts < s.time;
      } else {
        assert ts == s.time && id in group;
        assert IsSingle(s.nodes, id);
      }
    }
  }

  lemma CallbackAccept(s: State, t: State, msg: Message)
    requires CallbackInv(s) && AcceptStep(s, t, msg)
    ensures CallbackInv(t)
  {
  }

  lemma CallbackScan(s: State, t: State)
    requires CallbackInv(s) && ScanStep(s, t)
    ensures CallbackInv(t)
  {
    if s.scan.value < |s.inbox| && t.inbox != s.inbox {
      forall j | 0 <= j < |t.inbox| && !t.inbox[j].request
        ensures (t.inbox[j].sender, t.inbox[j].time) in t.queued
      {
        ErasedSubset(s.inbox, s.scan.value, j);
      }
    }
  }

  /** A change of the engine's phase alone, or of the received side. */
  lemma CallbackPhase(s: State, t: State)
    requires CallbackInv(s) && (BeginScanStep(s, t) || UserCodeStep(s, t) || FinishRequestStep(s, t))
    ensures CallbackInv(t)
  {
  }

  lemma CallbackFinishResponse(s: State, t: State)
    requires CallbackInv(s) && FinishResponseStep(s, t)
    ensures CallbackInv(t)
  {
    assert SentMeansAnswered(t);
    assert AwaitedAnswered(t) by { ResponseAwaited(s, t); }
  }

  /** A request is found complete only when all live receivers have replied or had an empty slice. */
  lemma ResponseAwaited(s: State, t: State)
    requires CallbackInv(s) && FinishResponseStep(s, t) && SentMeansAnswered(t)
    ensures AwaitedAnswered(t)
  {
    var msg := s.engine.msg;
    var nodes, recver := FinishSent(s.nodes, msg.sender, msg.time), s.sentReqs[msg.time].recver;
    assert (msg.sender, msg.time) in s.queued;
    forall ts, r | ts in t.awaited && r in t.awaited[ts]
      ensures (r, ts) in t.replied || (r, ts) in t.empty
    {
      if ts == msg.time && t.engine.Complete? && ts !in s.ran {
        if recver != msg.sender && nodes[recver].isGroup {
          assert r in nodes[recver].group && nodes[r].alive;
          assert IsSingle(s.nodes, r);
          assert ts in t.nodes[r].sent;
        }
      }
    }
  }

  lemma CallbackRun(s: State, t: State)
    requires CallbackInv(s) && CallbackStep(s, t)
    ensures CallbackInv(t)
  {
  }

  lemma CallbackKept(s: State, t: State, a: Action)
    requires CallbackInv(s) && Step(s, t, a)
    ensures CallbackInv(t)
  {
    hide CallbackInv, SubmitStep, AcceptStep, BeginScanStep, ScanStep, UserCodeStep, FinishRequestStep, FinishResponseStep,
      CallbackStep, WaitStep, AddNodeStep, RemoveNodeStep;
    match a {
      case Submit(recver, valid, callback) => CallbackSubmit(s, t, recver, valid, callback);
      case Accept(msg) => CallbackAccept(s, t, msg);
      case BeginScan => CallbackPhase(s, t);
      case Scan => CallbackScan(s, t);
      case UserCode => CallbackPhase(s, t);
      case FinishRequest => CallbackPhase(s, t);
      case FinishResponse => CallbackFinishResponse(s, t);
      case Callback => CallbackRun(s, t);
      case Wait(id, ts, sent) => CallbackWait(s, t, id, ts, sent);
      case AddNode(id, roles, nodes) => CallbackAddNode(s, t, id, roles, nodes);
      case RemoveNode(id, nodes) => CallbackRemoveNode(s, t, id, nodes);
    }
  }

  lemma {:induction false} RunKeeps(states: seq<State>, actions: seq<Action>, i: nat)
    requires Run(states, actions) && i < |states|
    ensures RequestInv(states[i]) && CallbackInv(states[i])
  {
    hide RequestInv, CallbackInv, Step, Init;
    if i == 0 {
      InitInv(states[0]);
    } else {
      RunKeeps(states, actions, i - 1);
      assert Step(states[i - 1], states[i - 1 + 1], actions[i - 1]);
      RequestKept(states[i - 1], states[i], actions[i - 1]);
      CallbackKept(states[i - 1], states[i], actions[i - 1]);
    }
  }

  lemma InitInv(s: State)
    requires Init(s)
    ensures RequestInv(s) && CallbackInv(s)
  {
  }

  /** In every run a request is handled at most once, and only after every timestamp of the same sender it waits for. */
  lemma RequestsOnceAndInOrder(states: seq<State>, actions: seq<Action>, i: nat)
    requires Run(states, actions) && i < |states|
    ensures HandledOnce(states[i].handled) && AfterWaits(states[i].handled)
  {
    hide Step, Init, CallbackInv;
    RunKeeps(states, actions, i);
  }

  /** In every run a callback runs at most once, and only for a request whose live receivers, at the moment the engine
      found it complete, had all replied or had an empty slice. */
  lemma CallbacksOnceAndComplete(states: seq<State>, actions: seq<Action>, i: nat)
    requires Run(states, actions) && i < |states|
    ensures var s := states[i];
      && (forall a, b :: 0 <= a < b < |s.ran| ==> s.ran[a] != s.ran[b])
      && (forall a :: 0 <= a < |s.ran| ==> s.ran[a] in s.awaited)
      && (forall a, r :: 0 <= a < |s.ran| && r in s.awaited[s.ran[a]] ==>
            (r, s.ran[a]) in s.replied || (r, s.ran[a]) in s.empty)
  {
    hide Step, Init, RequestInv;
    RunKeeps(states, actions, i);
  }
}
