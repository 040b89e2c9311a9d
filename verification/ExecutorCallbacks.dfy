/**
 * When a callback can start at all, and what a message of an unknown sender does
 * to the engine.
 */
module ExecutorCallbacks {
  import opened Options
  import opened Executor

  // ---- who can still bring a request to its end ----

  /** A live node that was sent a slice of the request and has not answered it. */
  ghost predicate Unanswered(s: State, ts: Time, r: NodeId) {
    IsSingle(s.nodes, r) && s.nodes[r].alive && (r, ts) in s.queued && ts !in s.nodes[r].sent
  }

  /** The engine is busy with a response to the request. */
  ghost predicate EngineOn(s: State, ts: Time) {
    !s.engine.NoMessage? && !s.engine.msg.request && s.engine.msg.time == ts
  }

  /** Some live node owes an answer to the request. */
  ghost predicate Owed(s: State, ts: Time) {
    exists r :: Unanswered(s, ts, r)
  }

  ghost predicate CanStart(s: State, ts: Time) {
    EngineOn(s, ts) || Owed(s, ts)
  }

  /** Once nobody can bring the request to its end, nobody ever can, and its callback does not start. */
  ghost predicate Over(s: State, t: State, ts: Time) {
    !CanStart(t, ts) && (ts in t.ran <==> ts in s.ran) && s.time <= t.time
  }

  /** A step that leaves the trackers of live nodes alone, or lets them grow. */
  ghost predicate SentGrows(s: State, t: State) {
    && (forall id :: IsSingle(t.nodes, id) && t.nodes[id].alive && id in s.nodes ==>
          IsSingle(s.nodes, id) && s.nodes[id].alive && s.nodes[id].sent <= t.nodes[id].sent)
  }

  lemma OverNodes(s: State, t: State, ts: Time)
    requires CallbackInv(s) && !CanStart(s, ts) && SentGrows(s, t) && s.time <= t.time
    requires forall r :: (r, ts) in t.queued ==> (r, ts) in s.queued
    requires !EngineOn(t, ts) && (ts in t.ran <==> ts in s.ran)
    ensures Over(s, t, ts)
  {
    forall r
      ensures !Unanswered(t, ts, r)
    {
      assert !Unanswered(s, ts, r);
    }
  }

  lemma OverSubmit(s: State, t: State, recver: NodeId, valid: seq<bool>, callback: bool, ts: Time)
    requires CallbackInv(s) && !CanStart(s, ts) && ts < s.time && SubmitStep(s, t, recver, valid, callback)
    ensures Over(s, t, ts)
  {
    FinishEmptyEffect(s.nodes, s.nodes[recver].group, valid, s.time);
    OverNodes(s, t, ts);
  }

  lemma OverScan(s: State, t: State, ts: Time)
    requires RequestInv(s) && CallbackInv(s) && !CanStart(s, ts) && ScanStep(s, t)
    ensures Over(s, t, ts)
  {
    if s.scan.value < |s.inbox| {
      var msg := s.inbox[s.scan.value];
      assert !Unanswered(s, ts, msg.sender);
    }
    OverNodes(s, t, ts);
  }

  lemma OverEngine(s: State, t: State, ts: Time)
    requires CallbackInv(s) && !CanStart(s, ts)
    requires UserCodeStep(s, t) || FinishRequestStep(s, t) || FinishResponseStep(s, t) || CallbackStep(s, t) || BeginScanStep(s, t)
    ensures Over(s, t, ts)
  {
    OverNodes(s, t, ts);
  }

  lemma OverWait(s: State, t: State, id: NodeId, u: Time, sent: bool, ts: Time)
    requires CallbackInv(s) && !CanStart(s, ts) && WaitStep(s, t, id, u, sent)
    ensures Over(s, t, ts)
  {
    MarkGroupEffect(s.nodes, s.nodes[id].group, u, sent);
    OverNodes(s, t, ts);
  }

  lemma OverMembership(s: State, t: State, a: Action, ts: Time)
    requires CallbackInv(s) && !CanStart(s, ts) && Step(s, t, a) && (a.AddNode? || a.RemoveNode?)
    ensures Over(s, t, ts)
  {
    forall r
      ensures !Unanswered(t, ts, r)
    {
      assert !Unanswered(s, ts, r);
      assert (r, ts) in s.queued ==> IsSingle(s.nodes, r);
    }
  }

  lemma OverStep(s: State, t: State, a: Action, ts: Time)
    requires RequestInv(s) && CallbackInv(s) && !CanStart(s, ts) && ts < s.time && Step(s, t, a)
    ensures Over(s, t, ts)
  {
    match a {
      case Submit(recver, valid, callback) => OverSubmit(s, t, recver, valid, callback, ts);
      case Accept(msg) => OverNodes(s, t, ts);
      case Scan => OverScan(s, t, ts);
      case Wait(id, u, sent) => OverWait(s, t, id, u, sent, ts);
      case AddNode(_, _, _) => OverMembership(s, t, a, ts);
      case RemoveNode(_, _) => OverMembership(s, t, a, ts);
      case _ => OverEngine(s, t, ts);
    }
  }

  /**
   * From a moment when no live node owes an answer to a request and the engine is
   * not busy with one, its callback does not start any more.
   */
  lemma {:induction false} NeverStartsLater(states: seq<State>, actions: seq<Action>, i: nat, j: nat, ts: Time)
    requires Run(states, actions) && i <= j < |states| && ts < states[i].time && !CanStart(states[i], ts)
    ensures !CanStart(states[j], ts) && ts < states[j].time
    ensures ts in states[j].ran <==> ts in states[i].ran
    decreases j
  {
    hide RequestInv, CallbackInv, Step, Init, CanStart;
    if i < j {
      NeverStartsLater(states, actions, i, j - 1, ts);
      RunKeeps(states, actions, j - 1);
      assert Step(states[j - 1], states[j - 1 + 1], actions[j - 1]);
      OverStep(states[j - 1], states[j], actions[j - 1], ts);
    }
  }

  // ---- callbacks start for requests that reached somebody ----

  ghost predicate SentToSomeone(s: State, ts: Time) {
    exists r :: (r, ts) in s.queued
  }

  ghost predicate RanWereSent(s: State) {
    forall i :: 0 <= i < |s.ran| ==> SentToSomeone(s, s.ran[i])
  }

  lemma RanWereSentStep(s: State, t: State, a: Action)
    requires CallbackInv(s) && RanWereSent(s) && Step(s, t, a)
    ensures RanWereSent(t)
  {
    forall i | 0 <= i < |t.ran|
      ensures SentToSomeone(t, t.ran[i])
    {
      if i < |s.ran| {
        var r :| (r, s.ran[i]) in s.queued;
        assert (r, s.ran[i]) in t.queued;
      } else {
        assert (s.engine.msg.sender, t.ran[i]) in t.queued;
      }
    }
  }

  /** In every run a callback that has been run belongs to a request of which some node was sent a slice. */
  lemma {:induction false} CallbackWasSent(states: seq<State>, actions: seq<Action>, i: nat)
    requires Run(states, actions) && i < |states|
    ensures RanWereSent(states[i])
  {
    hide RequestInv, CallbackInv, Step;
    if i > 0 {
      CallbackWasSent(states, actions, i - 1);
      RunKeeps(states, actions, i - 1);
      assert Step(states[i - 1], states[i - 1 + 1], actions[i - 1]);
      RanWereSentStep(states[i - 1], states[i], actions[i - 1]);
    }
  }

  /** A request of which every slice is empty: its callback never starts. */
  lemma AllEmptyNeverStarts(states: seq<State>, actions: seq<Action>, i: nat, j: nat)
    requires Run(states, actions) && i < |actions| && i < j < |states| && actions[i].Submit?
    requires forall k :: 0 <= k < |actions[i].valid| ==> !actions[i].valid[k]
    ensures states[i].time !in states[j].ran
  {
    var s, t, ts := states[i], states[i + 1], states[i].time;
    RunKeeps(states, actions, i);
    RunKeeps(states, actions, i + 1);
    assert Step(s, t, actions[i]);
    assert SubmitStep(s, t, actions[i].recver, actions[i].valid, actions[i].callback);
    assert forall r :: (r, ts) !in s.queued;
    assert forall r :: (r, ts) !in t.queued;
    assert !CanStart(t, ts) && ts !in t.ran;
    hide Run, Step, CanStart;
    NeverStartsLater(states, actions, i + 1, j, ts);
  }

  /** The record of the receivers at the callback is never changed again. */
  lemma {:induction false} RecordFrozen(states: seq<State>, actions: seq<Action>, i: nat, j: nat, ts: Time)
    requires Run(states, actions) && i <= j < |states| && ts in states[i].ran
    ensures ts in states[j].ran && ts in states[i].awaited && ts in states[j].awaited
    ensures states[j].awaited[ts] == states[i].awaited[ts]
    decreases j
  {
    hide Step, Init, RequestInv;
    RunKeeps(states, actions, i);
    assert RanOnce(states[i]);
    hide CallbackInv;
    if i < j {
      RecordFrozen(states, actions, i, j - 1, ts);
      assert Step(states[j - 1], states[j - 1 + 1], actions[j - 1]);
      RecordStep(states[j - 1], states[j], actions[j - 1], ts);
    }
  }

  lemma RecordStep(s: State, t: State, a: Action, ts: Time)
    requires Step(s, t, a) && ts in s.ran && ts in s.awaited
    ensures ts in t.ran && ts in t.awaited && t.awaited[ts] == s.awaited[ts]
  {
  }

  // ---- a message of an unknown sender ----

  /** PickActiveMsg is at a message whose sender is not known; it holds the lock of the inbox. */
  ghost predicate Spinning(s: State) {
    s.scan.Some? && s.scan.value < |s.inbox| && s.inbox[s.scan.value].sender !in s.nodes
  }

  ghost predicate NothingMoves(s: State, t: State) {
    t.inbox == s.inbox && t.scan == s.scan && t.engine == s.engine && t.handled == s.handled && t.ran == s.ran
  }

  /**
   * Until the sender is added nothing is received, picked, handled or called back:
   * the engine repeats the same iteration.
   */
  lemma {:induction false} SpinsUntilAdded(states: seq<State>, actions: seq<Action>, i: nat, j: nat)
    requires Run(states, actions) && i <= j < |states| && Spinning(states[i])
    requires forall k :: i <= k < j ==>
               !(actions[k].AddNode? && actions[k].node == states[i].inbox[states[i].scan.value].sender)
    ensures Spinning(states[j]) && NothingMoves(states[i], states[j])
    decreases j
  {
    hide Step, Init, RequestInv, CallbackInv;
    if i < j {
      SpinsUntilAdded(states, actions, i, j - 1);
      RunKeeps(states, actions, j - 1);
      var s, t, a := states[j - 1], states[j - 1 + 1], actions[j - 1];
      assert Step(s, t, a);
      SpinStep(s, t, a);
    }
  }

  /** Such a state is reachable: a request is accepted before its sender is known. */
  lemma SpinningReachable() returns (states: seq<State>, actions: seq<Action>)
    ensures Run(states, actions) && Spinning(states[|states| - 1])
  {
    var msg := Message(1, true, 0, []);
    var s0 := State(map[], [], None, NoMessage, map[], 0, [], {}, {}, {}, map[], []);
    var s1 := s0.(inbox := [msg]);
    var s2 := s1.(scan := Some(0));
    assert Init(s0);
    assert Step(s0, s1, Accept(msg)) && Step(s1, s2, BeginScan);
    states, actions := [s0, s1, s2], [Accept(msg), BeginScan];
  }

  lemma SpinStep(s: State, t: State, a: Action)
    requires RequestInv(s) && Spinning(s) && Step(s, t, a)
    requires !(a.AddNode? && a.node == s.inbox[s.scan.value].sender)
    ensures Spinning(t) && NothingMoves(s, t)
  {
    match a {
      case Submit(recver, valid, _) => FinishEmptyEffect(s.nodes, s.nodes[recver].group, valid, s.time);
      case Wait(id, ts, sent) => MarkGroupEffect(s.nodes, s.nodes[id].group, ts, sent);
      case _ =>
    }
  }

  // ---- runs, step by step ----

  /** Nothing is in the inbox or in the engine. */
  ghost predicate Quiet(s: State) {
    s.inbox == [] && s.scan.None? && s.engine == NoMessage
  }

  lemma Extended(states: seq<State>, actions: seq<Action>, t: State, a: Action)
    requires Run(states, actions) && Step(states[|states| - 1], t, a)
    ensures Run(states + [t], actions + [a])
  {
    var states', actions' := states + [t], actions + [a];
    forall i | 0 <= i < |actions'|
      ensures Step(states'[i], states'[i + 1], actions'[i])
    {
      if i < |actions| {
        assert Step(states[i], states[i + 1], actions[i]);
      }
    }
  }

  lemma Extend(states: seq<State>, actions: seq<Action>, t: State, a: Action)
    returns (states': seq<State>, actions': seq<Action>)
    requires Run(states, actions) && Step(states[|states| - 1], t, a)
    ensures Run(states', actions') && states <= states' && states' != [] && states'[|states'| - 1] == t
  {
    Extended(states, actions, t, a);
    states', actions' := states + [t], actions + [a];
  }

  /** A response arrives, is picked and processed while nothing else is going on. */
  lemma Delivered(states: seq<State>, actions: seq<Action>, s: State, msg: Message)
    returns (states': seq<State>, actions': seq<Action>)
    requires Run(states, actions) && states[|states| - 1] == s && Quiet(s) && !msg.request
    requires Unanswered(s, msg.time, msg.sender)
    ensures Run(states', actions') && states <= states' && states' != []
    ensures states'[|states'| - 1] == s.(engine := Processed(msg))
  {
    hide Run;
    var s1 := s.(inbox := [msg]);
    assert Step(s, s1, Accept(msg));
    var s2 := s1.(scan := Some(0));
    assert Step(s1, s2, BeginScan);
    var s3 := s.(engine := Picked(msg));
    assert Erase([msg], 0) == [];
    assert Step(s2, s3, Scan);
    var s4 := s.(engine := Processed(msg));
    assert Step(s3, s4, UserCode);
    hide Step;
    states', actions' := Extend(states, actions, s1, Accept(msg));
    states', actions' := Extend(states', actions', s2, BeginScan);
    states', actions' := Extend(states', actions', s3, Scan);
    states', actions' := Extend(states', actions', s4, UserCode);
  }

  // ---- the member that leaves without an answer ----

  /**
   * A request to a group of two: one member answers, the other is removed. Every
   * live receiver has answered, and the callback will never start.
   */
  lemma RemovedLastMember() returns (states: seq<State>, actions: seq<Action>)
    ensures Run(states, actions)
    ensures var s := states[|states| - 1];
            && Quiet(s) && 0 in s.sentReqs && s.sentReqs[0].callback && 0 !in s.ran
            && s.sentReqs[0].recver in s.nodes && AllReplied(s.nodes, s.nodes[s.sentReqs[0].recver].group, 0)
            && s.replied != {}
            && !CanStart(s, 0)
  {
    hide Run, Step, AllReplied, Quiet;
    var s0 := GroupState([], map[]);
    StartsEmpty(s0);
    states, actions := [s0], [];
    var t, a := Joined1(s0);
    states, actions := Extend(states, actions, t, a);
    t, a := Joined2(t);
    states, actions := Extend(states, actions, t, a);
    BothSent(t, Sent());
    states, actions := Extend(states, actions, Sent(), Submit(-1, [true, true], true));
    states, actions := FirstAnswers(states, actions);
    SecondLeaves(FirstAnswered(), Abandoned());
    states, actions := Extend(states, actions, Abandoned(), RemoveNode(2, Abandoned().nodes));
    NothingOwed(Abandoned());
  }

  /** The request has been sent to both. */
  ghost function Sent(): State {
    GroupState([1, 2], map[1 := Single(1, {}), 2 := Single(2, {})])
      .(time := 1, sentReqs := map[0 := ReqInfo(-1, true)], queued := {(1, 0), (2, 0)})
  }

  ghost function FirstAnswered(): State {
    Sent().(nodes := GroupState([1, 2], map[1 := Single(1, {0}), 2 := Single(2, {})]).nodes, replied := {(1, 0)})
  }

  ghost function Abandoned(): State {
    FirstAnswered().(nodes := GroupState([1], map[1 := Single(1, {0}), 2 := Single(2, {}).(alive := false)]).nodes)
  }

  lemma SecondLeaves(s: State, t: State)
    requires s == FirstAnswered() && t == Abandoned()
    ensures Step(s, t, RemoveNode(2, t.nodes))
  {
    assert Without([1, 2], 2) == [1] by {
      assert [1, 2][1..] == [2] && [2][1..] == [];
      assert Without([2], 2) == [];
    }
    assert RemoveNodeStep(s, t, 2, t.nodes);
  }

  lemma NothingOwed(s: State)
    requires s == Abandoned()
    ensures Quiet(s) && 0 in s.sentReqs && s.sentReqs[0].callback && 0 !in s.ran && s.replied != {}
    ensures s.sentReqs[0].recver in s.nodes && AllReplied(s.nodes, s.nodes[s.sentReqs[0].recver].group, 0)
    ensures !CanStart(s, 0)
  {
    assert (1, 0) in s.replied;
  }

  /** The group node -1 with these members, and nothing going on. */
  ghost function GroupState(group: seq<NodeId>, singles: map<NodeId, RemoteNode>): State {
    State(map[-1 := RemoteNode(true, true, {}, {}, group)] + singles, [], None, NoMessage, map[], 0, [], {}, {}, {}, map[], [])
  }

  ghost function Single(id: NodeId, sent: set<Time>): RemoteNode {
    RemoteNode(false, true, sent, {}, [id])
  }

  lemma StartsEmpty(s: State)
    requires s == GroupState([], map[])
    ensures Run([s], [])
  {
  }

  lemma Joined1(s: State) returns (t: State, a: Action)
    requires s == GroupState([], map[])
    ensures Step(s, t, a) && t == GroupState([1], map[1 := Single(1, {})])
  {
    t := GroupState([1], map[1 := Single(1, {})]);
    a := AddNode(1, {-1}, t.nodes);
    assert multiset([1]) == multiset{1};
    assert AddNodeStep(s, t, 1, {-1}, t.nodes);
  }

  lemma Joined2(s: State) returns (t: State, a: Action)
    requires s == GroupState([1], map[1 := Single(1, {})])
    ensures Step(s, t, a) && t == GroupState([1, 2], map[1 := Single(1, {}), 2 := Single(2, {})])
  {
    t := GroupState([1, 2], map[1 := Single(1, {}), 2 := Single(2, {})]);
    a := AddNode(2, {-1}, t.nodes);
    assert Without([1], 2) == [1] && multiset([1, 2]) == multiset([1]) + multiset{2};
    assert AddNodeStep(s, t, 2, {-1}, t.nodes);
  }

  lemma {:induction false} AllValid(nodes: map<NodeId, RemoteNode>, group: seq<NodeId>, valid: seq<bool>, ts: Time)
    requires |group| == |valid| && forall i :: 0 <= i < |valid| ==> valid[i]
    ensures FinishEmpty(nodes, group, valid, ts) == nodes
  {
    if group != [] {
      AllValid(nodes, group[1..], valid[1..], ts);
    }
  }

  lemma BothSent(s: State, t: State)
    requires s == GroupState([1, 2], map[1 := Single(1, {}), 2 := Single(2, {})]) && t == Sent()
    ensures Step(s, t, Submit(-1, [true, true], true))
  {
    var group, valid := [1, 2], [true, true];
    AllValid(s.nodes, group, valid, 0);
    assert forall i :: 0 <= i < |valid| ==> valid[i];
    var sent := set i | 0 <= i < |group| && valid[i] :: (group[i], 0);
    assert (group[0], 0) in sent && (group[1], 0) in sent;
    assert sent == {(1, 0), (2, 0)};
    hide FinishEmpty;
  }

  /** Node 1 answers; node 2 still owes its answer, so the request is not complete. */
  lemma FirstAnswers(states: seq<State>, actions: seq<Action>) returns (states': seq<State>, actions': seq<Action>)
    requires Run(states, actions) && states[|states| - 1] == Sent()
    ensures Run(states', actions') && states' != [] && states'[|states'| - 1] == FirstAnswered()
  {
    hide Run;
    var s, t, msg := Sent(), FirstAnswered(), Message(1, false, 0, []);
    states', actions' := Delivered(states, actions, s, msg);
    NotYetComplete(s.(engine := Processed(msg)), t, msg);
    states', actions' := Extend(states', actions', t, FinishResponse);
  }

  lemma NotYetComplete(s: State, t: State, msg: Message)
    requires s == Sent().(engine := Processed(msg)) && msg == Message(1, false, 0, []) && t == FirstAnswered()
    ensures Step(s, t, FinishResponse)
  {
    var nodes := FinishSent(s.nodes, 1, 0);
    assert {} + {0} == {0} && {} + {(1, 0)} == {(1, 0)};
    assert nodes == t.nodes;
    assert 2 in nodes[-1].group && nodes[2].alive && 0 !in nodes[2].sent;
    assert !AllReplied(nodes, nodes[-1].group, 0);
  }
}
