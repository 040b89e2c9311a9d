/**
 * A callback that can still start does start in some continuation: the engine
 * comes to rest, the missing answer arrives and is picked, and the other members
 * that have not answered leave.
 */
module ExecutorProgress {
  import opened Options
  import opened Executor
  import opened ExecutorCallbacks

  ghost predicate Path(s: State, t: State, ss: seq<State>, acts: seq<Action>) {
    && |ss| == |acts| + 1 && ss[0] == s && ss[|acts|] == t
    && forall i :: 0 <= i < |acts| ==> Step(ss[i], ss[i + 1], acts[i])
  }

  ghost predicate Leads(s: State, t: State) {
    exists ss: seq<State>, acts: seq<Action> :: Path(s, t, ss, acts)
  }

  lemma Stays(s: State)
    ensures Leads(s, s)
  {
    assert Path(s, s, [s], []);
  }

  lemma OneStep(s: State, t: State, a: Action)
    requires Step(s, t, a)
    ensures Leads(s, t)
  {
    hide Step;
    assert Path(s, t, [s, t], [a]);
  }

  lemma Joins(s: State, t: State, u: State)
    requires Leads(s, t) && Leads(t, u)
    ensures Leads(s, u)
  {
    hide Step;
    var ss, acts :| Path(s, t, ss, acts);
    var ss', acts' :| Path(t, u, ss', acts');
    var all, both := ss + ss'[1..], acts + acts';
    forall i | 0 <= i < |both|
      ensures Step(all[i], all[i + 1], both[i])
    {
      if i < |acts| {
        assert Step(ss[i], ss[i + 1], acts[i]);
      } else {
        var k := i - |acts|;
        assert Step(ss'[k], ss'[k + 1], acts'[k]);
        assert all[i] == ss'[k] && all[i + 1] == ss'[k + 1];
      }
    }
    assert Path(s, u, all, both);
  }

  lemma Further(s: State, t: State, u: State, a: Action)
    requires Leads(s, t) && Step(t, u, a)
    ensures Leads(s, u)
  {
    hide Step, Leads;
    OneStep(t, u, a);
    Joins(s, t, u);
  }

  ghost predicate Sane(s: State) {
    RequestInv(s) && CallbackInv(s)
  }

  lemma {:induction false} PathSane(s: State, t: State, ss: seq<State>, acts: seq<Action>, i: nat)
    requires Sane(s) && Path(s, t, ss, acts) && i <= |acts|
    ensures Sane(ss[i])
  {
    hide RequestInv, CallbackInv, Step;
    if i > 0 {
      PathSane(s, t, ss, acts, i - 1);
      assert Step(ss[i - 1], ss[i - 1 + 1], acts[i - 1]);
      RequestKept(ss[i - 1], ss[i], acts[i - 1]);
      CallbackKept(ss[i - 1], ss[i], acts[i - 1]);
    }
  }

  lemma StaysSane(s: State, t: State)
    requires Sane(s) && Leads(s, t)
    ensures Sane(t)
  {
    hide Sane, Step;
    var ss, acts :| Path(s, t, ss, acts);
    PathSane(s, t, ss, acts, |acts|);
  }

  ghost predicate Pending(s: State, ts: Time) {
    ts in s.sentReqs && s.sentReqs[ts].callback
  }

  /** The callback is pending and the node owes an answer. */
  ghost predicate Open(s: State, ts: Time, r: NodeId) {
    Sane(s) && Pending(s, ts) && Unanswered(s, ts, r)
  }

  // ---- the engine is on a response ----

  ghost function Removed(nodes: map<NodeId, RemoteNode>, id: NodeId): map<NodeId, RemoteNode>
    requires id in nodes
  {
    map g | g in nodes ::
      if g == id then nodes[g].(alive := false)
      else if nodes[g].isGroup then nodes[g].(group := Without(nodes[g].group, id))
      else nodes[g]
  }

  /** The other live nodes that have not finished the request. */
  ghost function Others(s: State, ts: Time, r: NodeId): set<NodeId> {
    set q | q in s.nodes && !s.nodes[q].isGroup && s.nodes[q].alive && ts !in s.nodes[q].sent && q != r
  }

  /** The others may leave one by one. */
  lemma {:induction false} OthersLeave(s: State, ts: Time, r: NodeId) returns (t: State)
    ensures Leads(s, t) && t == s.(nodes := t.nodes) && Others(t, ts, r) == {}
    decreases |Others(s, ts, r)|
  {
    hide Leads;
    if q :| q in Others(s, ts, r) {
      var s1 := s.(nodes := Removed(s.nodes, q));
      assert RemoveNodeStep(s, s1, q, s1.nodes);
      OneStep(s, s1, RemoveNode(q, s1.nodes));
      assert Others(s1, ts, r) == Others(s, ts, r) - {q};
      t := OthersLeave(s1, ts, r);
      Joins(s, s1, t);
    } else {
      Stays(s);
      t := s;
    }
  }

  ghost function Completed(s: State, r: NodeId, ts: Time): State
    requires ts in s.sentReqs && s.engine.Processed?
  {
    var nodes, recver := FinishSent(s.nodes, r, ts), s.sentReqs[ts].recver;
    var s1 := s.(nodes := nodes, replied := s.replied + {(r, ts)});
    if recver != r && recver in nodes && nodes[recver].isGroup
    then s1.(engine := Complete(s.engine.msg), nodes := FinishSent(nodes, recver, ts),
             awaited := Recorded(s, ts, Live(nodes, nodes[recver].group)))
    else s1.(engine := Complete(s.engine.msg), awaited := Recorded(s, ts, {recver}))
  }

  lemma Completes(s: State, r: NodeId, ts: Time)
    requires GroupsOfSingles(s) && Others(s, ts, r) == {} && ts in s.sentReqs && IsSingle(s.nodes, r)
    requires s.engine.Processed? && s.engine.msg.sender == r && !s.engine.msg.request && s.engine.msg.time == ts
    ensures FinishResponseStep(s, Completed(s, r, ts))
  {
    var nodes, recver := FinishSent(s.nodes, r, ts), s.sentReqs[ts].recver;
    if recver != r && recver in nodes && nodes[recver].isGroup {
      forall q | q in nodes[recver].group && q in nodes && nodes[q].alive
        ensures ts in nodes[q].sent
      {
        assert q in s.nodes[recver].group && IsSingle(s.nodes, q);
        assert q !in Others(s, ts, r);
      }
    }
  }

  lemma EngineSender(s: State)
    requires Sane(s) && !s.engine.NoMessage? && !s.engine.msg.request
    ensures IsSingle(s.nodes, s.engine.msg.sender) && s.engine.msg.time in s.sentReqs && GroupsOfSingles(s)
  {
    assert ResponsesQueued(s) && QueuedToReceiver(s);
  }

  /** A response that the engine is on brings its request to an end, when the others have left. */
  lemma EngineRuns(s: State, ts: Time) returns (t: State)
    requires Sane(s) && Pending(s, ts) && EngineOn(s, ts)
    ensures Leads(s, t) && ts in t.ran
  {
    hide Leads, Sane;
    var msg, r := s.engine.msg, s.engine.msg.sender;
    Stays(s);
    var s1 := s;
    if s.engine.Picked? {
      s1 := s.(engine := Processed(msg));
      assert Step(s, s1, UserCode);
      OneStep(s, s1, UserCode);
    }
    var s3 := s1;
    if s1.engine.Processed? {
      var s2 := OthersLeave(s1, ts, r);
      Joins(s, s1, s2);
      StaysSane(s, s2);
      EngineSender(s2);
      Completes(s2, r, ts);
      s3 := Completed(s2, r, ts);
      assert Step(s2, s3, FinishResponse);
      Further(s, s2, s3, FinishResponse);
    }
    t := s3.(engine := NoMessage, ran := s3.ran + [ts], sentReqs := s3.sentReqs[ts := s3.sentReqs[ts].(callback := false)]);
    assert Step(s3, t, Callback);
    Further(s, s3, t, Callback);
  }

  // ---- the engine comes to rest ----

  /** What the critical section of a response does. */
  ghost function AfterResponse(s: State): State
    requires s.engine.Processed? && !s.engine.msg.request && s.engine.msg.time in s.sentReqs
  {
    var msg := s.engine.msg;
    var nodes := FinishSent(s.nodes, msg.sender, msg.time);
    var s1 := s.(nodes := nodes, replied := s.replied + {(msg.sender, msg.time)});
    var recver := s.sentReqs[msg.time].recver;
    if recver != msg.sender && recver in nodes && nodes[recver].isGroup then
      if AllReplied(nodes, nodes[recver].group, msg.time)
      then s1.(engine := Complete(msg), nodes := FinishSent(nodes, recver, msg.time),
               awaited := Recorded(s, msg.time, Live(nodes, nodes[recver].group)))
      else s1.(engine := NoMessage)
    else s1.(engine := Complete(msg), awaited := Recorded(s, msg.time, {recver}))
  }

  ghost predicate SameButNodes(s: State, t: State, ts: Time, r: NodeId) {
    && t.inbox == s.inbox && t.scan == s.scan && Pending(t, ts) && Unanswered(t, ts, r)
  }

  /** One step of an engine that is busy with something else. */
  lemma EngineMoves(s: State, ts: Time, r: NodeId) returns (t: State, a: Action)
    requires Open(s, ts, r) && !s.engine.NoMessage? && !EngineOn(s, ts)
    ensures Step(s, t, a) && SameButNodes(s, t, ts, r) && !EngineOn(t, ts)
    ensures Rest(t.engine) < Rest(s.engine)
  {
    var msg := s.engine.msg;
    match s.engine {
      case Picked(_) =>
        t, a := s.(engine := Processed(msg), handled := if msg.request then s.handled + [msg] else s.handled), UserCode;
      case Processed(_) =>
        if msg.request {
          t, a := s.(engine := NoMessage, nodes := FinishRecv(s.nodes, msg.sender, msg.time)), FinishRequest;
        } else {
          EngineSender(s);
          hide Sane;
          t, a := AfterResponse(s), FinishResponse;
          assert FinishResponseStep(s, t);
        }
      case Complete(_) =>
        assert ResponsesQueued(s);
        EngineSender(s);
        hide Sane;
        t := if s.sentReqs[msg.time].callback
             then s.(engine := NoMessage, ran := s.ran + [msg.time],
                     sentReqs := s.sentReqs[msg.time := s.sentReqs[msg.time].(callback := false)])
             else s.(engine := NoMessage);
        a := Callback;
    }
  }

  ghost function Rest(e: Engine): nat {
    match e
    case NoMessage => 0
    case Complete(_) => 1
    case Processed(_) => 2
    case Picked(_) => 3
  }

  lemma {:induction false} EngineRests(s: State, ts: Time, r: NodeId) returns (t: State)
    requires Open(s, ts, r) && !EngineOn(s, ts)
    ensures Leads(s, t) && Open(t, ts, r) && t.engine.NoMessage? && t.inbox == s.inbox && t.scan == s.scan
    decreases Rest(s.engine)
  {
    hide Leads, Sane, Pending, Unanswered, EngineOn, Step;
    Stays(s);
    t := s;
    if !s.engine.NoMessage? {
      var s1, a := EngineMoves(s, ts, r);
      OneStep(s, s1, a);
      StaysSane(s, s1);
      t := EngineRests(s1, ts, r);
      Joins(s, s1, t);
    }
  }

  // ---- scanning the inbox ----

  ghost function TheAnswer(r: NodeId, ts: Time): Message {
    Message(r, false, ts, [])
  }

  ghost predicate Ahead(s: State, i: nat, msg: Message) {
    exists j: nat :: i <= j < |s.inbox| && s.inbox[j] == msg
  }

  /** A node that nobody knew joins no group. */
  ghost function Added(nodes: map<NodeId, RemoteNode>, id: NodeId): map<NodeId, RemoteNode> {
    map g | g in nodes.Keys + {id} ::
      if g !in nodes then RemoteNode(false, true, {}, {}, [id])
      else if nodes[g].isGroup then nodes[g].(group := Without(nodes[g].group, id))
      else nodes[g]
  }

  lemma SenderJoins(s: State, ts: Time, r: NodeId, id: NodeId) returns (t: State)
    requires Open(s, ts, r) && id !in s.nodes
    ensures Leads(s, t) && Open(t, ts, r) && t == s.(nodes := t.nodes) && id in t.nodes
  {
    hide Leads, Sane;
    t := s.(nodes := Added(s.nodes, id));
    assert AddNodeStep(s, t, id, {}, t.nodes);
    OneStep(s, t, AddNode(id, {}, t.nodes));
    StaysSane(s, t);
  }

  /** What one iteration makes of a message of a known sender. */
  ghost function AfterScan(s: State): State
    requires s.scan.Some? && s.scan.value < |s.inbox| && s.inbox[s.scan.value].sender in s.nodes
  {
    var i, msg := s.scan.value, s.inbox[s.scan.value];
    var node := s.nodes[msg.sender];
    if !node.alive || Twice(node, msg) then s.(inbox := Erase(s.inbox, i))
    else if msg.request && !WaitsMet(node, msg) then s.(scan := Some(i + 1))
    else s.(inbox := Erase(s.inbox, i), scan := None, engine := Picked(msg))
  }

  lemma Iterates(s: State, ts: Time, r: NodeId) returns (t: State)
    requires Open(s, ts, r) && s.engine.NoMessage? && s.scan.Some? && s.scan.value < |s.inbox|
    requires s.inbox[s.scan.value].sender in s.nodes
    ensures Leads(s, t) && Open(t, ts, r) && t == AfterScan(s)
  {
    hide Leads, Sane;
    t := AfterScan(s);
    assert Step(s, t, Scan);
    OneStep(s, t, Scan);
    StaysSane(s, t);
  }

  /** The answer is erased only by being picked. */
  lemma AnswerStays(s: State, ts: Time, r: NodeId)
    requires Unanswered(s, ts, r) && s.scan.Some? && s.scan.value < |s.inbox| && s.inbox[s.scan.value].sender in s.nodes
    requires Ahead(s, s.scan.value, TheAnswer(r, ts))
    ensures var t := AfterScan(s);
            && (t.scan.Some? ==> Ahead(t, t.scan.value, TheAnswer(r, ts)))
            && (t.scan.None? ==> EngineOn(t, ts) || Ahead(t, 0, TheAnswer(r, ts)))
  {
    var msg, i, t := TheAnswer(r, ts), s.scan.value, AfterScan(s);
    var j: nat :| i <= j < |s.inbox| && s.inbox[j] == msg;
    if j > i {
      if |t.inbox| < |s.inbox| {
        assert t.inbox[j - 1] == s.inbox[j];
      } else {
        assert t.inbox[j] == s.inbox[j];
      }
    }
  }

  ghost predicate Unknown(s: State) {
    s.scan.Some? && s.scan.value < |s.inbox| && s.inbox[s.scan.value].sender !in s.nodes
  }

  /** A pass of PickActiveMsg ends: with a message, or with none if the answer is not ahead. */
  lemma {:induction false} PassEnds(s: State, ts: Time, r: NodeId) returns (t: State)
    requires Open(s, ts, r) && s.engine.NoMessage? && s.scan.Some?
    ensures Leads(s, t) && Open(t, ts, r) && t.scan.None?
    ensures |t.inbox| <= |s.inbox| && (t.engine.NoMessage? || |t.inbox| < |s.inbox|)
    ensures Ahead(s, s.scan.value, TheAnswer(r, ts)) ==>
              !t.engine.NoMessage? && (EngineOn(t, ts) || Ahead(t, 0, TheAnswer(r, ts)))
    decreases |s.inbox|, if s.scan.value < |s.inbox| then |s.inbox| - s.scan.value else 0, if Unknown(s) then 1 else 0
  {
    hide Leads, Sane, Pending, Unanswered;
    if s.scan.value >= |s.inbox| {
      t := s.(scan := None);
      PassOver(s, t, ts, r);
    } else if Unknown(s) {
      var s1 := SenderJoins(s, ts, r, s.inbox[s.scan.value].sender);
      t := PassEnds(s1, ts, r);
      Joins(s, s1, t);
    } else {
      var s1 := Iterates(s, ts, r);
      if Ahead(s, s.scan.value, TheAnswer(r, ts)) {
        AnswerStays(s, ts, r);
      }
      t := s1;
      if s1.scan.Some? {
        t := PassEnds(s1, ts, r);
        Joins(s, s1, t);
      }
    }
  }

  lemma PassOver(s: State, t: State, ts: Time, r: NodeId)
    requires Open(s, ts, r) && s.scan.Some? && s.scan.value >= |s.inbox| && t == s.(scan := None)
    ensures Leads(s, t) && Open(t, ts, r)
  {
    hide Leads, Sane;
    assert Step(s, t, Scan);
    OneStep(s, t, Scan);
    StaysSane(s, t);
  }

  // ---- the answer is picked ----

  /** With the answer in the inbox the callback starts: what is picked before it leaves the inbox. */
  lemma {:induction false} AnswerPicked(s: State, ts: Time, r: NodeId) returns (t: State)
    requires Open(s, ts, r) && s.engine.NoMessage? && s.scan.None? && Ahead(s, 0, TheAnswer(r, ts))
    ensures Leads(s, t) && ts in t.ran
    decreases |s.inbox|
  {
    hide Leads, Sane, Pending, Unanswered;
    var s1 := s.(scan := Some(0));
    ScanBegins(s, s1, ts, r);
    var s2 := PassEnds(s1, ts, r);
    Joins(s, s1, s2);
    if EngineOn(s2, ts) {
      t := EngineRuns(s2, ts);
      Joins(s, s2, t);
    } else {
      var s3 := EngineRests(s2, ts, r);
      Joins(s, s2, s3);
      t := AnswerPicked(s3, ts, r);
      Joins(s, s3, t);
    }
  }

  lemma ScanBegins(s: State, t: State, ts: Time, r: NodeId)
    requires Open(s, ts, r) && s.engine.NoMessage? && s.scan.None? && t == s.(scan := Some(0))
    ensures Leads(s, t) && Open(t, ts, r)
  {
    hide Leads, Sane;
    assert Step(s, t, BeginScan);
    OneStep(s, t, BeginScan);
    StaysSane(s, t);
  }

  lemma AnswerComes(s: State, ts: Time, r: NodeId) returns (t: State)
    requires Open(s, ts, r) && s.engine.NoMessage? && s.scan.None?
    ensures Leads(s, t) && Open(t, ts, r) && t.engine.NoMessage? && t.scan.None? && Ahead(t, 0, TheAnswer(r, ts))
  {
    hide Leads, Sane;
    t := s.(inbox := s.inbox + [TheAnswer(r, ts)]);
    assert Step(s, t, Accept(TheAnswer(r, ts)));
    OneStep(s, t, Accept(TheAnswer(r, ts)));
    StaysSane(s, t);
    assert t.inbox[|s.inbox|] == TheAnswer(r, ts);
  }

  /** An engine at rest outside of a pass, or the callback. */
  lemma ComesToRest(s: State, ts: Time, r: NodeId) returns (t: State)
    requires Open(s, ts, r) && !EngineOn(s, ts)
    ensures Leads(s, t) && Sane(t) && Pending(t, ts)
    ensures EngineOn(t, ts) || (Open(t, ts, r) && t.engine.NoMessage? && t.scan.None?)
  {
    hide Leads, Sane, Pending, Unanswered;
    var s1 := EngineRests(s, ts, r);
    t := s1;
    if s1.scan.Some? {
      var s2 := PassEnds(s1, ts, r);
      Joins(s, s1, s2);
      t := s2;
      if !EngineOn(s2, ts) {
        t := EngineRests(s2, ts, r);
        Joins(s, s2, t);
      }
    }
  }

  lemma DoesStart(s: State, ts: Time) returns (t: State)
    requires Sane(s) && Pending(s, ts) && CanStart(s, ts)
    ensures Leads(s, t) && ts in t.ran
  {
    hide Leads, Sane, Pending, Unanswered, EngineOn, Ahead;
    if EngineOn(s, ts) {
      t := EngineRuns(s, ts);
    } else {
      var r :| Unanswered(s, ts, r);
      var s1 := ComesToRest(s, ts, r);
      if EngineOn(s1, ts) {
        t := EngineRuns(s1, ts);
      } else {
        var s2 := AnswerComes(s1, ts, r);
        t := AnswerPicked(s2, ts, r);
        Joins(s1, s2, t);
      }
      Joins(s, s1, t);
    }
  }

  // ---- exactly when ----

  /** A continuation in which the callback has been run. */
  ghost predicate StartsIn(states: seq<State>, ts: Time, states': seq<State>, actions': seq<Action>) {
    Run(states', actions') && states <= states' && ts in states'[|states'| - 1].ran
  }

  lemma Continues(states: seq<State>, actions: seq<Action>, t: State) returns (states': seq<State>, actions': seq<Action>)
    requires Run(states, actions) && Leads(states[|states| - 1], t)
    ensures Run(states', actions') && states <= states' && states'[|states'| - 1] == t
  {
    hide Step;
    var n := |states| - 1;
    var ss, acts :| Path(states[n], t, ss, acts);
    states', actions' := states + ss[1..], actions + acts;
    forall i | 0 <= i < |actions'|
      ensures Step(states'[i], states'[i + 1], actions'[i])
    {
      if i < |actions| {
        assert Step(states[i], states[i + 1], actions[i]);
      } else {
        var k := i - |actions|;
        assert Step(ss[k], ss[k + 1], acts[k]);
        assert states'[i] == ss[k] && states'[i + 1] == ss[k + 1];
      }
    }
  }

  /**
   * In every reachable state a pending callback can still start in some
   * continuation exactly when the engine is busy with an answer to its request or a
   * live node owes one.
   */
  lemma CallbackCanStartIff(states: seq<State>, actions: seq<Action>, ts: Time)
    requires Run(states, actions) && Pending(states[|states| - 1], ts)
    ensures (exists states': seq<State>, actions': seq<Action> :: StartsIn(states, ts, states', actions'))
            <==> CanStart(states[|states| - 1], ts)
  {
    var i := |states| - 1;
    var s := states[i];
    RunKeeps(states, actions, i);
    assert RanOnce(s);
    hide RequestInv, CallbackInv, Run;
    if CanStart(s, ts) {
      hide CanStart;
      var t := DoesStart(s, ts);
      var states', actions' := Continues(states, actions, t);
      assert StartsIn(states, ts, states', actions');
    } else {
      assert ts < s.time && ts !in s.ran;
      hide CanStart;
      forall states': seq<State>, actions': seq<Action>
        ensures !StartsIn(states, ts, states', actions')
      {
        NotIn(states, actions, states', actions', ts);
      }
    }
  }

  lemma NotIn(states: seq<State>, actions: seq<Action>, states': seq<State>, actions': seq<Action>, ts: Time)
    requires Run(states, actions)
    requires var s := states[|states| - 1]; !CanStart(s, ts) && ts < s.time && ts !in s.ran
    ensures !StartsIn(states, ts, states', actions')
  {
    hide CanStart, Step, Init;
    if StartsIn(states, ts, states', actions') {
      var i := |states| - 1;
      assert states'[i] == states[i];
      NeverStartsLater(states', actions', i, |states'| - 1, ts);
      assert false;
    }
  }
}
