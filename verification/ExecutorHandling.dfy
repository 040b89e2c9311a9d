/**
 * Exactly which requests the executor can come to handle by the messages that it
 * has: those whose chain of awaited requests is in the inbox or was handled.
 */
module ExecutorHandling {
  import opened Options
  import opened Executor
  import opened ExecutorCallbacks
  import opened ExecutorProgress
  import opened ExecutorRequests

  // ---- continuations without a new message ----

  ghost predicate NoAccept(acts: seq<Action>) {
    forall i :: 0 <= i < |acts| ==> !acts[i].Accept?
  }

  ghost predicate Goes(s: State, t: State) {
    exists ss: seq<State>, acts: seq<Action> :: Path(s, t, ss, acts) && NoAccept(acts)
  }

  lemma GoesNowhere(s: State)
    ensures Goes(s, s)
  {
    assert Path(s, s, [s], []) && NoAccept([]);
  }

  lemma GoesOne(s: State, t: State, a: Action)
    requires Step(s, t, a) && !a.Accept?
    ensures Goes(s, t)
  {
    hide Step;
    assert Path(s, t, [s, t], [a]) && NoAccept([a]);
  }

  lemma GoesOn(s: State, t: State, u: State)
    requires Goes(s, t) && Goes(t, u)
    ensures Goes(s, u)
  {
    hide Step;
    var ss, acts :| Path(s, t, ss, acts) && NoAccept(acts);
    var ss', acts' :| Path(t, u, ss', acts') && NoAccept(acts');
    var all, both := ss + ss'[1..], acts + acts';
    forall i | 0 <= i < |both|
      ensures Step(all[i], all[i + 1], both[i])
    {
      if i < |acts| {
        assert Step(ss[i], ss[i + 1], acts[i]);
      } else {
        var k := i - |acts|;
        assert Step(ss'[k], ss'[k + 1], acts'[k]);
        assert all[i] == ss'[k] && all[i + 1] == ss'[k + 1];
      }
    }
    assert Path(s, u, all, both) && NoAccept(both);
  }

  lemma GoesSane(s: State, t: State)
    requires Sane(s) && Goes(s, t)
    ensures Sane(t)
  {
    hide Sane, Step, Path;
    var ss, acts :| Path(s, t, ss, acts) && NoAccept(acts);
    assert Leads(s, t);
    StaysSane(s, t);
  }

  /** Live nodes stay alive, and the log of handled requests grows. */
  ghost predicate Later(s: State, t: State) {
    s.handled <= t.handled && forall id :: Alive(s, id) ==> Alive(t, id)
  }

  lemma HandledLater(s: State, t: State, r: NodeId, ts: Time)
    requires s.handled <= t.handled && Handled(s.handled, r, ts)
    ensures Handled(t.handled, r, ts)
  {
    var i :| 0 <= i < |s.handled| && s.handled[i].sender == r && s.handled[i].time == ts;
    assert t.handled[i] == s.handled[i];
  }

  // ---- the engine comes to rest ----

  lemma EngineTurn(s: State) returns (t: State, a: Action)
    requires Sane(s) && !s.engine.NoMessage?
    ensures Step(s, t, a) && !a.Accept? && Later(s, t) && t.inbox == s.inbox && t.scan == s.scan
    ensures Rest(t.engine) < Rest(s.engine)
    ensures s.engine.Picked? && s.engine.msg.request ==> t.handled == s.handled + [s.engine.msg]
  {
    var msg := s.engine.msg;
    match s.engine {
      case Picked(_) =>
        hide Sane;
        t, a := s.(engine := Processed(msg), handled := if msg.request then s.handled + [msg] else s.handled), UserCode;
      case Processed(_) =>
        if msg.request {
          hide Sane;
          t, a := s.(engine := NoMessage, nodes := FinishRecv(s.nodes, msg.sender, msg.time)), FinishRequest;
        } else {
          EngineSender(s);
          hide Sane;
          t, a := AfterResponse(s), FinishResponse;
          assert FinishResponseStep(s, t);
        }
      case Complete(_) =>
        assert ResponsesQueued(s);
        EngineSender(s);
        hide Sane;
        t := if s.sentReqs[msg.time].callback
             then s.(engine := NoMessage, ran := s.ran + [msg.time],
                     sentReqs := s.sentReqs[msg.time := s.sentReqs[msg.time].(callback := false)])
             else s.(engine := NoMessage);
        a := Callback;
    }
  }

  lemma {:induction false} ComesToStop(s: State) returns (t: State)
    requires Sane(s)
    ensures Goes(s, t) && Sane(t) && Later(s, t) && t.engine.NoMessage? && t.inbox == s.inbox && t.scan == s.scan
    ensures s.engine.Picked? && s.engine.msg.request ==> Handled(t.handled, s.engine.msg.sender, s.engine.msg.time)
    decreases Rest(s.engine)
  {
    hide Goes, Sane, Step, Alive;
    GoesNowhere(s);
    t := s;
    if !s.engine.NoMessage? {
      var s1, a := EngineTurn(s);
      GoesOne(s, s1, a);
      GoesSane(s, s1);
      t := ComesToStop(s1);
      GoesOn(s, s1, t);
      if s.engine.Picked? && s.engine.msg.request {
        assert s1.handled[|s.handled|] == s.engine.msg;
        assert Handled(s1.handled, s.engine.msg.sender, s.engine.msg.time);
        HandledLater(s1, t, s.engine.msg.sender, s.engine.msg.time);
      }
    }
  }

  // ---- a pass ----

  /** A request of a live node that waits for nothing any more. */
  ghost predicate Wanted(s: State, m: Message) {
    m.request && Alive(s, m.sender) && forall w: Time :: w as int in m.waits ==> Handled(s.handled, m.sender, w)
  }

  lemma SenderAdded(s: State, id: NodeId) returns (t: State)
    requires Sane(s) && id !in s.nodes
    ensures Goes(s, t) && Sane(t) && Later(s, t) && t == s.(nodes := t.nodes) && Alive(t, id)
  {
    hide Goes, Sane;
    t := s.(nodes := Added(s.nodes, id));
    assert AddNodeStep(s, t, id, {}, t.nodes);
    GoesOne(s, t, AddNode(id, {}, t.nodes));
    GoesSane(s, t);
  }

  lemma OneIteration(s: State) returns (t: State)
    requires Sane(s) && s.engine.NoMessage? && s.scan.Some? && s.scan.value < |s.inbox|
    requires s.inbox[s.scan.value].sender in s.nodes
    ensures Goes(s, t) && Sane(t) && Later(s, t) && t == AfterScan(s)
  {
    hide Goes, Sane;
    t := AfterScan(s);
    assert Step(s, t, Scan);
    GoesOne(s, t, Scan);
    GoesSane(s, t);
  }

  /** A wanted request stays ahead until a message is picked. */
  lemma WantedStays(s: State, m: Message)
    requires Sane(s) && s.engine.NoMessage? && s.scan.Some? && s.scan.value < |s.inbox| && s.inbox[s.scan.value].sender in s.nodes
    requires Wanted(s, m) && !Handled(s.handled, m.sender, m.time) && Ahead(s, s.scan.value, m)
    ensures var t := AfterScan(s);
            && (t.scan.Some? ==> Ahead(t, t.scan.value, m))
            && (t.scan.None? ==> t.engine == Picked(m) || m in t.inbox)
  {
    var i, t := s.scan.value, AfterScan(s);
    assert RecvMeansHandled(s) && HandledMeansRecv(s);
    var j: nat :| i <= j < |s.inbox| && s.inbox[j] == m;
    hide Sane;
    if j > i {
      if |t.inbox| < |s.inbox| {
        assert t.inbox[j - 1] == s.inbox[j];
      } else {
        assert t.inbox[j] == s.inbox[j];
      }
    } else {
      ShowsWanted(s, m);
    }
  }

  lemma ShowsWanted(s: State, m: Message)
    requires RecvMeansHandled(s) && HandledMeansRecv(s) && s.engine.NoMessage? && Wanted(s, m)
    requires !Handled(s.handled, m.sender, m.time)
    ensures m.sender in s.nodes && s.nodes[m.sender].alive && !Twice(s.nodes[m.sender], m) && WaitsMet(s.nodes[m.sender], m)
  {
    forall w | w in m.waits
      ensures w < 0 || w in s.nodes[m.sender].recv
    {
      if w >= 0 {
        assert Handled(s.handled, m.sender, w);
      }
    }
  }

  lemma {:induction false} PassGoes(s: State, m: Message) returns (t: State)
    requires Sane(s) && s.engine.NoMessage? && s.scan.Some?
    ensures Goes(s, t) && Sane(t) && Later(s, t) && t.scan.None? && t.handled == s.handled
    ensures t.engine.NoMessage? || (t.engine.Picked? && |t.inbox| < |s.inbox|)
    ensures Wanted(s, m) && !Handled(s.handled, m.sender, m.time) && Ahead(s, s.scan.value, m) ==>
              t.engine.Picked? && (t.engine.msg == m || m in t.inbox)
    decreases |s.inbox|, if s.scan.value < |s.inbox| then |s.inbox| - s.scan.value else 0, if Unknown(s) then 1 else 0
  {
    hide Goes, Sane, Alive;
    if s.scan.value >= |s.inbox| {
      t := s.(scan := None);
      PassIsOver(s, t);
    } else if Unknown(s) {
      var s1 := SenderAdded(s, s.inbox[s.scan.value].sender);
      assert Alive(s1, s.inbox[s.scan.value].sender);
      KnownNow(s1, s.inbox[s.scan.value].sender);
      t := PassGoes(s1, m);
      GoesOn(s, s1, t);
    } else {
      var s1 := OneIteration(s);
      if Wanted(s, m) && !Handled(s.handled, m.sender, m.time) && Ahead(s, s.scan.value, m) {
        WantedStays(s, m);
      }
      t := s1;
      if s1.scan.Some? {
        t := PassGoes(s1, m);
        GoesOn(s, s1, t);
      }
    }
  }

  lemma KnownNow(s: State, id: NodeId)
    requires Alive(s, id)
    ensures id in s.nodes
  {
  }

  lemma PassIsOver(s: State, t: State)
    requires Sane(s) && s.scan.Some? && s.scan.value >= |s.inbox| && t == s.(scan := None)
    ensures Goes(s, t) && Sane(t) && Later(s, t)
  {
    hide Goes, Sane;
    assert Step(s, t, Scan);
    GoesOne(s, t, Scan);
    GoesSane(s, t);
  }

  lemma PassStarts(s: State, t: State)
    requires Sane(s) && s.engine.NoMessage? && s.scan.None? && t == s.(scan := Some(0))
    ensures Goes(s, t) && Sane(t) && Later(s, t)
  {
    hide Goes, Sane;
    assert Step(s, t, BeginScan);
    GoesOne(s, t, BeginScan);
    GoesSane(s, t);
  }

  /** At rest: the engine is idle and no pass is on. */
  ghost predicate AtRest(s: State) {
    s.engine.NoMessage? && s.scan.None?
  }

  lemma LaterOn(s: State, t: State, u: State)
    requires Later(s, t) && Later(t, u)
    ensures Later(s, u)
  {
  }

  lemma WantedLater(s: State, t: State, m: Message)
    requires Wanted(s, m) && Later(s, t)
    ensures Wanted(t, m)
  {
    hide Alive, Handled;
    forall w: Time | w as int in m.waits
      ensures Handled(t.handled, m.sender, w)
    {
      HandledLater(s, t, m.sender, w);
    }
  }

  /** A wanted request in the inbox is handled: whatever is picked before it leaves the inbox. */
  lemma {:induction false} WantedHandled(s: State, m: Message) returns (t: State)
    requires Sane(s) && AtRest(s) && Wanted(s, m) && (m in s.inbox || Handled(s.handled, m.sender, m.time))
    ensures Goes(s, t) && Sane(t) && Later(s, t) && AtRest(t) && Handled(t.handled, m.sender, m.time)
    decreases |s.inbox|
  {
    hide Goes, Sane, Alive, Handled;
    if Handled(s.handled, m.sender, m.time) {
      GoesNowhere(s);
      t := s;
    } else {
      var s1 := s.(scan := Some(0));
      PassStarts(s, s1);
      var j :| 0 <= j < |s.inbox| && s.inbox[j] == m;
      assert Ahead(s1, 0, m);
      WantedLater(s, s1, m);
      var s2 := PassGoes(s1, m);
      var s3 := ComesToStop(s2);
      GoesOn(s, s1, s2);
      GoesOn(s, s2, s3);
      WantedLater(s, s3, m);
      t := WantedHandled(s3, m);
      GoesOn(s, s3, t);
    }
  }

  // ---- what is within reach stays within reach ----

  lemma ComingStays(s: State, t: State, a: Action, r: NodeId, ts: Time)
    requires Step(s, t, a) && Coming(s, r, ts) && (s.scan.Some? ==> s.engine == NoMessage)
    ensures Coming(t, r, ts)
  {
    if Handled(s.handled, r, ts) {
      assert s.handled <= t.handled;
      HandledLater(s, t, r, ts);
    } else if a == UserCode {
      assert t.handled[|s.handled|] == s.engine.msg;
    }
  }

  lemma MessageStays(s: State, t: State, a: Action, m: Message)
    requires RequestInv(s) && Step(s, t, a) && m in s.inbox && m.request && NotDead(t, m.sender)
    ensures m in t.inbox || Coming(t, m.sender, m.time)
  {
    if a == Scan && s.scan.value < |s.inbox| {
      assert RecvMeansHandled(s) && SendersSingle(s);
      var i := s.scan.value;
      var j :| 0 <= j < |s.inbox| && s.inbox[j] == m;
      if j != i && t.inbox != s.inbox {
        assert t.inbox[if j < i then j else j - 1] == m;
      }
    }
  }

  lemma {:induction false} ReadyAfter(s: State, t: State, a: Action, n: nat, r: NodeId, ts: Time)
    requires RequestInv(s) && Step(s, t, a) && NotDead(t, r) && Ready(s, n, r, ts)
    ensures Coming(t, r, ts) || Ready(t, n, r, ts)
  {
    assert EngineReady(s);
    hide RequestInv, Step, Coming, NotDead, EngineReady;
    var m :| m in s.inbox && Needs(s, n, m, r, ts);
    MessageStays(s, t, a, m);
    if m in t.inbox {
      forall w: Time | w as int in m.waits && !Coming(t, r, w)
        ensures n > 0 && Ready(t, n - 1, r, w)
      {
        if Coming(s, r, w) {
          EngineFact(s);
          ComingStays(s, t, a, r, w);
        } else {
          ReadyAfter(s, t, a, n - 1, r, w);
        }
      }
      assert Needs(t, n, m, r, ts);
    }
  }

  lemma EngineFact(s: State)
    requires EngineReady(s)
    ensures s.scan.Some? ==> s.engine == NoMessage
  {
  }

  ghost predicate Within(s: State, n: nat, r: NodeId, ts: Time) {
    Coming(s, r, ts) || Ready(s, n, r, ts)
  }

  lemma WithinAfter(s: State, t: State, a: Action, n: nat, r: NodeId, ts: Time)
    requires RequestInv(s) && Step(s, t, a) && NotDead(t, r) && Within(s, n, r, ts)
    ensures Within(t, n, r, ts)
  {
    assert EngineReady(s);
    hide RequestInv, Step, Coming, NotDead, Ready, EngineReady;
    if Coming(s, r, ts) {
      EngineFact(s);
      ComingStays(s, t, a, r, ts);
    } else {
      ReadyAfter(s, t, a, n, r, ts);
    }
  }

  lemma {:induction false} WithinPath(s: State, t: State, ss: seq<State>, acts: seq<Action>, i: nat, n: nat, r: NodeId, ts: Time)
    requires Sane(s) && Path(s, t, ss, acts) && i <= |acts| && NotDead(ss[i], r) && Within(s, n, r, ts)
    ensures Within(ss[i], n, r, ts)
  {
    hide Step, Within, NotDead, RequestInv, CallbackInv;
    if i > 0 {
      assert Step(ss[i - 1], ss[i - 1 + 1], acts[i - 1]);
      DeadStays(ss[i - 1], ss[i], acts[i - 1], r);
      WithinPath(s, t, ss, acts, i - 1, n, r, ts);
      PathSane(s, t, ss, acts, i - 1);
      WithinAfter(ss[i - 1], ss[i], acts[i - 1], n, r, ts);
    }
  }

  lemma WithinGoes(s: State, t: State, n: nat, r: NodeId, ts: Time)
    requires Sane(s) && Goes(s, t) && NotDead(t, r) && Within(s, n, r, ts)
    ensures Within(t, n, r, ts)
  {
    hide Step, Within, NotDead, Sane;
    var ss, acts :| Path(s, t, ss, acts) && NoAccept(acts);
    WithinPath(s, t, ss, acts, |acts|, n, r, ts);
  }

  lemma {:induction false} MessagePath(s: State, t: State, ss: seq<State>, acts: seq<Action>, i: nat, m: Message)
    requires Sane(s) && Path(s, t, ss, acts) && i <= |acts| && NotDead(ss[i], m.sender) && m in s.inbox && m.request
    ensures m in ss[i].inbox || Coming(ss[i], m.sender, m.time)
  {
    hide Step, Coming, NotDead, RequestInv, CallbackInv;
    if i > 0 {
      assert Step(ss[i - 1], ss[i - 1 + 1], acts[i - 1]);
      DeadStays(ss[i - 1], ss[i], acts[i - 1], m.sender);
      MessagePath(s, t, ss, acts, i - 1, m);
      PathSane(s, t, ss, acts, i - 1);
      if m in ss[i - 1].inbox {
        MessageStays(ss[i - 1], ss[i], acts[i - 1], m);
      } else {
        SaneEngine(ss[i - 1]);
        ComingStays(ss[i - 1], ss[i], acts[i - 1], m.sender, m.time);
      }
    }
  }

  lemma SaneEngine(s: State)
    requires RequestInv(s)
    ensures s.scan.Some? ==> s.engine == NoMessage
  {
    assert EngineReady(s);
  }

  lemma MessageGoes(s: State, t: State, m: Message)
    requires Sane(s) && Goes(s, t) && NotDead(t, m.sender) && m in s.inbox && m.request
    ensures m in t.inbox || Coming(t, m.sender, m.time)
  {
    hide Step, Coming, NotDead, Sane;
    var ss, acts :| Path(s, t, ss, acts) && NoAccept(acts);
    MessagePath(s, t, ss, acts, |acts|, m);
  }

  lemma AliveNotDead(s: State, r: NodeId)
    requires Alive(s, r)
    ensures NotDead(s, r)
  {
  }

  lemma RestComing(s: State, r: NodeId, ts: Time)
    requires AtRest(s) && Coming(s, r, ts)
    ensures Handled(s.handled, r, ts)
  {
  }

  // ---- a request within reach is handled ----

  /** First everything that the request waits for, then the request. */
  lemma {:induction false} ReadyHandled(s: State, n: nat, r: NodeId, ts: Time) returns (t: State)
    requires Sane(s) && AtRest(s) && Alive(s, r) && Within(s, n, r, ts)
    ensures Goes(s, t) && Sane(t) && Later(s, t) && AtRest(t) && Handled(t.handled, r, ts)
    decreases n, 1, 0
  {
    hide Goes, Sane, Handled, Needs;
    if Coming(s, r, ts) {
      RestComing(s, r, ts);
      GoesNowhere(s);
      t := s;
    } else {
      var m :| m in s.inbox && Needs(s, n, m, r, ts);
      NeedsWhat(s, n, m, r, ts);
      var s1 := WaitsHandled(s, n, m, r, ts, |m.waits|);
      AliveNotDead(s1, r);
      MessageGoes(s, s1, m);
      if Coming(s1, r, ts) {
        RestComing(s1, r, ts);
      }
      AllWaits(s1, m);
      t := WantedHandled(s1, m);
      GoesOn(s, s1, t);
    }
  }

  lemma NeedsWhat(s: State, n: nat, m: Message, r: NodeId, ts: Time)
    requires Needs(s, n, m, r, ts)
    ensures m.request && m.sender == r && m.time == ts
  {
  }

  lemma AllWaits(s: State, m: Message)
    requires m.request && Alive(s, m.sender)
    requires forall i :: 0 <= i < |m.waits| && m.waits[i] >= 0 ==> Handled(s.handled, m.sender, m.waits[i])
    ensures Wanted(s, m)
  {
    forall w: Time | w as int in m.waits
      ensures Handled(s.handled, m.sender, w)
    {
      var i :| 0 <= i < |m.waits| && m.waits[i] == w;
    }
  }

  lemma {:induction false} WaitsHandled(s: State, n: nat, m: Message, r: NodeId, ts: Time, j: nat) returns (t: State)
    requires Sane(s) && AtRest(s) && Alive(s, r) && Needs(s, n, m, r, ts) && j <= |m.waits|
    ensures Goes(s, t) && Sane(t) && Later(s, t) && AtRest(t)
    ensures forall i :: 0 <= i < j && m.waits[i] >= 0 ==> Handled(t.handled, r, m.waits[i])
    decreases n, 0, j
  {
    hide Goes, Sane, Handled, Alive;
    if j == 0 {
      GoesNowhere(s);
      t := s;
    } else {
      var s1 := WaitsHandled(s, n, m, r, ts, j - 1);
      t := s1;
      var w := m.waits[j - 1];
      if w >= 0 {
        t := OneWait(s, s1, n, m, r, ts, w);
        GoesOn(s, s1, t);
        forall i | 0 <= i < j && m.waits[i] >= 0
          ensures Handled(t.handled, r, m.waits[i])
        {
          if i < j - 1 {
            HandledLater(s1, t, r, m.waits[i]);
          }
        }
      }
    }
  }

  lemma {:induction false} OneWait(s: State, s1: State, n: nat, m: Message, r: NodeId, ts: Time, w: Time) returns (t: State)
    requires Sane(s) && AtRest(s) && Needs(s, n, m, r, ts) && w as int in m.waits
    requires Goes(s, s1) && Sane(s1) && AtRest(s1) && Later(s, s1) && Alive(s1, r)
    ensures Goes(s1, t) && Sane(t) && Later(s1, t) && AtRest(t) && Handled(t.handled, r, w)
    decreases n, 0, 0
  {
    hide Goes, Sane, Handled, Alive;
    if Coming(s, r, w) {
      RestComing(s, r, w);
      HandledLater(s, s1, r, w);
      GoesNowhere(s1);
      t := s1;
    } else {
      AliveNotDead(s1, r);
      WithinGoes(s, s1, n - 1, r, w);
      t := ReadyHandled(s1, n - 1, r, w);
    }
  }

  /** The engine stops, the pass ends, and the sender is known. */
  lemma Settles(s: State, r: NodeId) returns (t: State)
    requires Sane(s) && NotDead(s, r) && (r in s.nodes ==> !s.nodes[r].isGroup)
    ensures Goes(s, t) && Sane(t) && AtRest(t) && Alive(t, r)
  {
    hide Goes, Sane;
    var s1 := s;
    GoesNowhere(s);
    if r !in s.nodes {
      s1 := SenderAdded(s, r);
    }
    var s2 := ComesToStop(s1);
    GoesOn(s, s1, s2);
    t := s2;
    if s2.scan.Some? {
      var s3 := PassGoes(s2, Message(r, true, 0, []));
      t := ComesToStop(s3);
      GoesOn(s, s2, s3);
      GoesOn(s, s3, t);
    }
  }

  lemma MayIsHandled(s: State, r: NodeId, ts: Time) returns (t: State)
    requires Sane(s) && MayHandle(s, r, ts)
    ensures Goes(s, t) && Handled(t.handled, r, ts)
  {
    hide Goes, Sane, Handled, Ready;
    if Handled(s.handled, r, ts) {
      GoesNowhere(s);
      t := s;
    } else if EngineAt(s, r, ts) {
      t := ComesToStop(s);
    } else {
      var n: nat :| Ready(s, n, r, ts);
      ReadySender(s, n, r, ts);
      var s1 := Settles(s, r);
      AliveNotDead(s1, r);
      WithinGoes(s, s1, n, r, ts);
      t := ReadyHandled(s1, n, r, ts);
      GoesOn(s, s1, t);
    }
  }

  lemma ReadySender(s: State, n: nat, r: NodeId, ts: Time)
    requires Sane(s) && Ready(s, n, r, ts)
    ensures r in s.nodes ==> !s.nodes[r].isGroup
  {
    assert SendersSingle(s);
  }

  // ---- exactly when ----

  /** A continuation that accepts no further message and in which the request has been handled. */
  ghost predicate HandledIn(states: seq<State>, actions: seq<Action>, r: NodeId, ts: Time, states': seq<State>, actions': seq<Action>) {
    && Run(states', actions') && states <= states' && actions <= actions' && NoAccept(actions'[|actions|..])
    && Handled(states'[|states'| - 1].handled, r, ts)
  }

  lemma {:induction false} NeverHandled(states: seq<State>, actions: seq<Action>, i: nat, j: nat, r: NodeId, ts: Time)
    requires Run(states, actions) && i <= j < |states| && NoAccept(actions[i..]) && !MayHandle(states[i], r, ts)
    ensures !MayHandle(states[j], r, ts)
    decreases j
  {
    hide Step, Init, MayHandle, RequestInv, CallbackInv;
    if i < j {
      NeverHandled(states, actions, i, j - 1, r, ts);
      RunKeeps(states, actions, j - 1);
      assert Step(states[j - 1], states[j - 1 + 1], actions[j - 1]);
      assert actions[i..][j - 1 - i] == actions[j - 1];
      if MayHandle(states[j], r, ts) {
        MayBefore(states[j - 1], states[j], actions[j - 1], r, ts);
      }
    }
  }

  /**
   * In every reachable state: a request is handled in some continuation without a
   * further message if and only if it was handled, the engine is at it, or its
   * sender is not dead and the inbox has it together with the requests it waits
   * for, as far as those were not handled, and so on.
   */
  lemma RequestHandledIff(states: seq<State>, actions: seq<Action>, r: NodeId, ts: Time)
    requires Run(states, actions)
    ensures (exists states': seq<State>, actions': seq<Action> :: HandledIn(states, actions, r, ts, states', actions'))
            <==> MayHandle(states[|states| - 1], r, ts)
  {
    var i := |states| - 1;
    RunKeeps(states, actions, i);
    hide Run, Step, MayHandle, Handled, RequestInv, CallbackInv;
    if MayHandle(states[i], r, ts) {
      var t := MayIsHandled(states[i], r, ts);
      var states', actions' := Continued(states, actions, t);
      assert HandledIn(states, actions, r, ts, states', actions');
    } else {
      forall states': seq<State>, actions': seq<Action>
        ensures !HandledIn(states, actions, r, ts, states', actions')
      {
        NotHandledIn(states, actions, states', actions', r, ts);
      }
    }
  }

  lemma NotHandledIn(states: seq<State>, actions: seq<Action>, states': seq<State>, actions': seq<Action>, r: NodeId, ts: Time)
    requires Run(states, actions) && !MayHandle(states[|states| - 1], r, ts)
    ensures !HandledIn(states, actions, r, ts, states', actions')
  {
    hide Step, Init, Handled, Ready, NotDead;
    if HandledIn(states, actions, r, ts, states', actions') {
      var i := |states| - 1;
      assert states'[i] == states[i] && i == |actions|;
      NeverHandled(states', actions', i, |states'| - 1, r, ts);
      assert false;
    }
  }

  lemma Continued(states: seq<State>, actions: seq<Action>, t: State) returns (states': seq<State>, actions': seq<Action>)
    requires Run(states, actions) && Goes(states[|states| - 1], t)
    ensures Run(states', actions') && states <= states' && actions <= actions' && NoAccept(actions'[|actions|..])
    ensures states'[|states'| - 1] == t
  {
    hide Step;
    var n := |states| - 1;
    var ss, acts :| Path(states[n], t, ss, acts) && NoAccept(acts);
    states', actions' := states + ss[1..], actions + acts;
    assert actions'[|actions|..] == acts;
    forall i | 0 <= i < |actions'|
      ensures Step(states'[i], states'[i + 1], actions'[i])
    {
      if i < |actions| {
        assert Step(states[i], states[i + 1], actions[i]);
      } else {
        var k := i - |actions|;
        assert Step(ss[k], ss[k + 1], acts[k]);
        assert states'[i] == ss[k] && states'[i + 1] == ss[k + 1];
      }
    }
  }

  /** In particular a request of a live node in the inbox that waits for nothing unhandled. */
  lemma EligibleMayHandle(s: State, m: Message)
    requires m in s.inbox && m.request && Eligible(s, m)
    ensures MayHandle(s, m.sender, m.time)
  {
    forall w: Time | w as int in m.waits
      ensures Coming(s, m.sender, w)
    {
    }
    assert Needs(s, 0, m, m.sender, m.time);
    assert Ready(s, 0, m.sender, m.time);
  }

  /** A request that waits for itself is never handled by the messages at hand. */
  lemma {:induction false} SelfWaits(s: State, n: nat, r: NodeId, ts: Time)
    requires !Coming(s, r, ts)
    requires forall m :: m in s.inbox && m.request && m.sender == r && m.time == ts ==> ts as int in m.waits
    ensures !Ready(s, n, r, ts)
  {
    hide Coming;
    if Ready(s, n, r, ts) {
      var m :| m in s.inbox && Needs(s, n, m, r, ts);
      SelfWaits(s, n - 1, r, ts);
    }
  }
}
