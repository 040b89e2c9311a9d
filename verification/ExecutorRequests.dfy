/**
 * When a received request is handled. What the engine does with a message is said
 * through the history: which requests were handled, which answers were processed.
 */
module ExecutorRequests {
  import opened Options
  import opened Executor
  import opened ExecutorCallbacks
  import opened ExecutorProgress

  // ---- messages, by the history ----

  ghost predicate Alive(s: State, id: NodeId) {
    IsSingle(s.nodes, id) && s.nodes[id].alive
  }

  /** The request was handled, or the answer was processed or not needed. */
  ghost predicate Finished(s: State, m: Message) {
    if m.request then Handled(s.handled, m.sender, m.time)
    else (m.sender, m.time) in s.replied || (m.sender, m.time) in s.empty
  }

  /** A request that waits for one of its sender that was not handled. */
  ghost predicate Blocked(s: State, m: Message) {
    m.request && exists w :: w in m.waits && w >= 0 && !Handled(s.handled, m.sender, w)
  }

  ghost predicate Eligible(s: State, m: Message) {
    Alive(s, m.sender) && !Finished(s, m) && !Blocked(s, m)
  }

  // ---- an answer that was processed is marked ----

  ghost predicate AnsweredMeansSent(s: State) {
    forall id, ts: Time :: (id, ts) in s.replied || (id, ts) in s.empty ==> id in s.nodes && ts in s.nodes[id].sent
  }

  lemma {:induction false} FinishEmptyMarks(nodes: map<NodeId, RemoteNode>, group: seq<NodeId>, valid: seq<bool>, ts: Time, i: nat)
    requires |group| == |valid| && i < |group| && !valid[i] && group[i] in nodes
    ensures group[i] in FinishEmpty(nodes, group, valid, ts) && ts in FinishEmpty(nodes, group, valid, ts)[group[i]].sent
  {
    var nodes1 := if valid[0] then nodes else FinishSent(nodes, group[0], ts);
    FinishEmptyEffect(nodes1, group[1..], valid[1..], ts);
    if i > 0 {
      FinishEmptyMarks(nodes1, group[1..], valid[1..], ts, i - 1);
    }
  }

  lemma AnsweredSubmit(s: State, t: State, recver: NodeId, valid: seq<bool>, callback: bool)
    requires GroupsOfSingles(s) && AnsweredMeansSent(s) && SubmitStep(s, t, recver, valid, callback)
    ensures AnsweredMeansSent(t)
  {
    var group, ts := s.nodes[recver].group, s.time;
    FinishEmptyEffect(s.nodes, group, valid, ts);
    hide FinishEmpty;
    forall id, u: Time | (id, u) in t.replied || (id, u) in t.empty
      ensures id in t.nodes && u in t.nodes[id].sent
    {
      if !((id, u) in s.replied || (id, u) in s.empty) {
        var i :| 0 <= i < |group| && !valid[i] && (group[i], ts) == (id, u);
        assert group[i] in s.nodes[recver].group;
        FinishEmptyMarks(s.nodes, group, valid, ts, i);
      }
    }
  }

  lemma AnsweredKept(s: State, t: State, a: Action)
    requires CallbackInv(s) && AnsweredMeansSent(s) && Step(s, t, a)
    ensures AnsweredMeansSent(t)
  {
    match a {
      case Submit(recver, valid, callback) => AnsweredSubmit(s, t, recver, valid, callback);
      case Wait(id, ts, sent) => MarkGroupEffect(s.nodes, s.nodes[id].group, ts, sent);
      case FinishResponse => AnsweredResponse(s, t);
      case _ =>
        hide CallbackInv;
    }
  }

  lemma AnsweredResponse(s: State, t: State)
    requires CallbackInv(s) && AnsweredMeansSent(s) && FinishResponseStep(s, t)
    ensures AnsweredMeansSent(t)
  {
    assert ResponsesQueued(s) && QueuedToReceiver(s);
    hide CallbackInv;
  }

  lemma {:induction false} RunAnswered(states: seq<State>, actions: seq<Action>, i: nat)
    requires Run(states, actions) && i < |states|
    ensures AnsweredMeansSent(states[i])
  {
    hide Step, RequestInv, CallbackInv;
    if i > 0 {
      RunAnswered(states, actions, i - 1);
      RunKeeps(states, actions, i - 1);
      assert Step(states[i - 1], states[i - 1 + 1], actions[i - 1]);
      AnsweredKept(states[i - 1], states[i], actions[i - 1]);
    }
  }

  // ---- one iteration of PickActiveMsg ----

  /** In a reachable state at rest the trackers of a live node show the history. */
  lemma TrackersShow(s: State, m: Message)
    requires RequestInv(s) && CallbackInv(s) && AnsweredMeansSent(s) && s.engine == NoMessage && Alive(s, m.sender)
    ensures Twice(s.nodes[m.sender], m) <==> Finished(s, m)
    ensures m.request ==> (WaitsMet(s.nodes[m.sender], m) <==> !Blocked(s, m))
  {
    assert RecvMeansHandled(s) && HandledMeansRecv(s) && SentMeansAnswered(s);
    forall w: Time
      ensures w in s.nodes[m.sender].recv <==> Handled(s.handled, m.sender, w)
    {
    }
  }

  ghost function Erased(inbox: seq<Message>, i: nat): seq<Message>
    requires i < |inbox|
  {
    inbox[..i] + inbox[i + 1..]
  }

  /**
   * What an iteration makes of the message it is at, when the sender is known: an
   * eligible one is picked, a blocked one is passed over, any other is thrown away.
   */
  lemma ScanIs(s: State, t: State)
    requires RequestInv(s) && CallbackInv(s) && AnsweredMeansSent(s) && Step(s, t, Scan)
    requires s.scan.value < |s.inbox| && s.inbox[s.scan.value].sender in s.nodes
    ensures var i, m := s.scan.value, s.inbox[s.scan.value];
            t == if !Alive(s, m.sender) || Finished(s, m) then s.(inbox := Erased(s.inbox, i))
                 else if Blocked(s, m) then s.(scan := Some(i + 1))
                 else s.(inbox := Erased(s.inbox, i), scan := None, engine := Picked(m))
  {
    var m := s.inbox[s.scan.value];
    assert EngineReady(s) && SendersSingle(s);
    if Alive(s, m.sender) {
      TrackersShow(s, m);
    }
    hide RequestInv, CallbackInv, AnsweredMeansSent;
  }

  lemma ScanExact(states: seq<State>, actions: seq<Action>, n: nat)
    requires Run(states, actions) && n < |actions| && actions[n] == Scan
    ensures states[n].scan.Some?
    ensures var s, t := states[n], states[n + 1];
            s.scan.value < |s.inbox| && s.inbox[s.scan.value].sender in s.nodes ==>
              var i, m := s.scan.value, s.inbox[s.scan.value];
              && (t.engine == Picked(m) <==> Eligible(s, m))
              && (t == s.(scan := Some(i + 1)) <==> Alive(s, m.sender) && !Finished(s, m) && Blocked(s, m))
              && (t == s.(inbox := Erased(s.inbox, i)) <==> !Alive(s, m.sender) || Finished(s, m))
  {
    var s, t := states[n], states[n + 1];
    RunKeeps(states, actions, n);
    RunAnswered(states, actions, n);
    assert Step(states[n], states[n + 1], actions[n]);
    assert EngineReady(s);
    if s.scan.value < |s.inbox| && s.inbox[s.scan.value].sender in s.nodes {
      ScanIs(s, t);
      assert |Erased(s.inbox, s.scan.value)| < |s.inbox|;
    }
  }

  // ---- a pass ----

  /** The scan has passed the first q messages of the inbox it started with; none of them was eligible. */
  ghost predicate Passed(s0: State, s: State, q: nat) {
    && s.scan.Some? && s.engine == NoMessage && s == s0.(inbox := s.inbox, scan := s.scan)
    && q <= |s0.inbox| && s.scan.value <= |s.inbox| && s.inbox[s.scan.value..] == s0.inbox[q..]
    && forall g :: 0 <= g < q ==> !Eligible(s0, s0.inbox[g])
  }

  lemma SameHistory(s0: State, s: State, m: Message)
    requires s == s0.(inbox := s.inbox, scan := s.scan)
    ensures Eligible(s, m) == Eligible(s0, m) && Alive(s, m.sender) == Alive(s0, m.sender)
    ensures Finished(s, m) == Finished(s0, m) && Blocked(s, m) == Blocked(s0, m)
  {
  }

  lemma PassStep(s0: State, s: State, t: State, q: nat)
    requires RequestInv(s) && CallbackInv(s) && AnsweredMeansSent(s) && Passed(s0, s, q) && Step(s, t, Scan)
    requires q < |s0.inbox| && s0.inbox[q].sender in s0.nodes
    ensures Eligible(s0, s0.inbox[q]) ==> t.scan.None? && t.engine == Picked(s0.inbox[q])
    ensures !Eligible(s0, s0.inbox[q]) ==> Passed(s0, t, q + 1)
  {
    var i, m := s.scan.value, s0.inbox[q];
    assert s.inbox[i..][0] == m;
    assert s.inbox[i] == m;
    ScanIs(s, t);
    SameHistory(s0, s, m);
    hide Eligible, Alive, Finished, Blocked, Step, RequestInv, CallbackInv;
    assert s0.inbox[q..][1..] == s0.inbox[q + 1..] && s.inbox[i..][1..] == s.inbox[i + 1..];
    if t.scan == s.scan {
      assert t.inbox[i..] == s.inbox[i + 1..];
    }
  }

  /**
   * A pass over an inbox of known senders picks the first eligible message, and
   * none if there is none.
   */
  lemma PassPicksFirst(states: seq<State>, actions: seq<Action>, a: nat, n: nat)
    requires Run(states, actions) && a + 1 < n < |states| && actions[a] == BeginScan
    requires forall k :: a < k < n ==> actions[k] == Scan && states[k].scan.Some?
    requires states[n].scan.None?
    requires forall m :: m in states[a].inbox ==> m.sender in states[a].nodes
    ensures var s, t := states[a], states[n];
            if (exists m :: m in s.inbox && Eligible(s, m))
            then exists f :: 0 <= f < |s.inbox| && Eligible(s, s.inbox[f]) && t.engine == Picked(s.inbox[f])
                             && forall g :: 0 <= g < f ==> !Eligible(s, s.inbox[g])
            else t.engine == NoMessage
  {
    hide Eligible, Step, Init, RequestInv, CallbackInv, AnsweredMeansSent;
    var s := states[a];
    var q := PassedUntil(states, actions, a, n - 1);
    RunKeeps(states, actions, n - 1);
    RunAnswered(states, actions, n - 1);
    assert Step(states[n - 1], states[n - 1 + 1], actions[n - 1]);
    if q < |s.inbox| {
      assert s.inbox[q] in s.inbox;
      PassStep(s, states[n - 1], states[n], q);
    } else {
      PassEmpty(s, states[n - 1], states[n], q);
    }
  }

  lemma PassEmpty(s0: State, s: State, t: State, q: nat)
    requires Passed(s0, s, q) && q == |s0.inbox| && Step(s, t, Scan)
    ensures t.engine == NoMessage && forall m :: m in s0.inbox ==> !Eligible(s0, m)
  {
    hide Eligible;
    assert |s.inbox[s.scan.value..]| == 0;
  }

  lemma {:induction false} PassedUntil(states: seq<State>, actions: seq<Action>, a: nat, n: nat) returns (q: nat)
    requires Run(states, actions) && a < n < |states| && actions[a] == BeginScan
    requires forall k :: a < k < n ==> actions[k] == Scan
    requires forall k :: a < k <= n ==> states[k].scan.Some?
    requires forall m :: m in states[a].inbox ==> m.sender in states[a].nodes
    ensures Passed(states[a], states[n], q)
    decreases n
  {
    var s := states[a];
    hide Eligible, Step, RequestInv, CallbackInv, AnsweredMeansSent;
    if n == a + 1 {
      assert Step(states[a], states[a + 1], actions[a]);
      PassBegins(states[a], states[a + 1]);
      q := 0;
    } else {
      q := PassedUntil(states, actions, a, n - 1);
      RunKeeps(states, actions, n - 1);
      RunAnswered(states, actions, n - 1);
      assert Step(states[n - 1], states[n - 1 + 1], actions[n - 1]);
      if q < |s.inbox| {
        assert s.inbox[q] in s.inbox;
        PassStep(s, states[n - 1], states[n], q);
        q := q + 1;
      } else {
        PassStops(s, states[n - 1], states[n], q);
      }
    }
  }

  lemma PassBegins(s: State, t: State)
    requires Step(s, t, BeginScan)
    ensures Passed(s, t, 0)
  {
    assert s.inbox[0..] == s.inbox;
  }

  lemma PassStops(s0: State, s: State, t: State, q: nat)
    requires Passed(s0, s, q) && q == |s0.inbox| && Step(s, t, Scan)
    ensures t.scan.None?
  {
    assert |s.inbox[s.scan.value..]| == 0;
  }

  // ---- which requests can be handled ----

  /** The engine is about to handle the request. */
  ghost predicate EngineAt(s: State, r: NodeId, ts: Time) {
    s.engine.Picked? && s.engine.msg.request && s.engine.msg.sender == r && s.engine.msg.time == ts
  }

  ghost predicate Coming(s: State, r: NodeId, ts: Time) {
    Handled(s.handled, r, ts) || EngineAt(s, r, ts)
  }

  ghost predicate NotDead(s: State, r: NodeId) {
    r in s.nodes ==> s.nodes[r].alive
  }

  /**
   * The inbox has the request, and of everything it waits for the inbox has a
   * request in turn, n times over, unless it was handled.
   */
  ghost predicate Ready(s: State, n: nat, r: NodeId, ts: Time)
    decreases n
  {
    exists m :: m in s.inbox && Needs(s, n, m, r, ts)
  }

  ghost predicate Needs(s: State, n: nat, m: Message, r: NodeId, ts: Time)
    decreases n, 1
  {
    && m.request && m.sender == r && m.time == ts
    && forall w: Time :: w as int in m.waits ==> Coming(s, r, w) || (n > 0 && Ready(s, n - 1, r, w))
  }

  /** By the messages that it has, the executor may come to handle the request. */
  ghost predicate MayHandle(s: State, r: NodeId, ts: Time) {
    Coming(s, r, ts) || (NotDead(s, r) && exists n: nat :: Ready(s, n, r, ts))
  }

  lemma {:induction false} ReadyMore(s: State, n: nat, n': nat, r: NodeId, ts: Time)
    requires Ready(s, n, r, ts) && n <= n'
    ensures Ready(s, n', r, ts)
  {
    var m :| m in s.inbox && Needs(s, n, m, r, ts);
    forall w: Time | w as int in m.waits && !Coming(s, r, w)
      ensures n' > 0 && Ready(s, n' - 1, r, w)
    {
      ReadyMore(s, n - 1, n' - 1, r, w);
    }
    assert Needs(s, n', m, r, ts);
  }

  // ---- no step brings a request within reach, except the arrival of a message ----

  lemma InboxShrinks(s: State, t: State, a: Action, m: Message)
    requires Step(s, t, a) && !a.Accept? && m in t.inbox
    ensures m in s.inbox
  {
  }

  lemma NewlyComing(s: State, t: State, a: Action, r: NodeId, ts: Time)
    requires RequestInv(s) && Step(s, t, a) && !a.Accept? && Coming(t, r, ts) && !Coming(s, r, ts)
    ensures NotDead(s, r) && Ready(s, 0, r, ts)
  {
    if a == Scan {
      PickedWasReady(s, t, r, ts);
    } else if a == UserCode {
      assert Handled(t.handled, r, ts);
      HandledLast(s.handled, s.engine.msg, r, ts);
    }
  }

  lemma HandledLast(log: seq<Message>, m: Message, r: NodeId, ts: Time)
    requires Handled(log + [m], r, ts) && !Handled(log, r, ts)
    ensures m.sender == r && m.time == ts
  {
    assert forall i :: 0 <= i < |log| ==> (log + [m])[i] == log[i];
  }

  lemma PickedWasReady(s: State, t: State, r: NodeId, ts: Time)
    requires RequestInv(s) && ScanStep(s, t) && EngineAt(t, r, ts) && !Coming(s, r, ts)
    ensures NotDead(s, r) && Ready(s, 0, r, ts)
  {
    assert EngineReady(s) && SendersSingle(s);
    var m := s.inbox[s.scan.value];
    PickedFresh(s, m);
    assert m in s.inbox && Needs(s, 0, m, r, ts);
  }

  lemma {:induction false} ReadyBefore(s: State, t: State, a: Action, n: nat, r: NodeId, ts: Time)
    requires RequestInv(s) && Step(s, t, a) && !a.Accept? && Ready(t, n, r, ts)
    ensures Ready(s, n + 1, r, ts)
  {
    hide RequestInv, Step, Coming;
    var m :| m in t.inbox && Needs(t, n, m, r, ts);
    InboxShrinks(s, t, a, m);
    forall w: Time | w as int in m.waits && !Coming(s, r, w)
      ensures Ready(s, n, r, w)
    {
      if Coming(t, r, w) {
        NewlyComing(s, t, a, r, w);
        ReadyMore(s, 0, n, r, w);
      } else {
        ReadyBefore(s, t, a, n - 1, r, w);
      }
    }
    assert Needs(s, n + 1, m, r, ts);
  }

  lemma DeadStays(s: State, t: State, a: Action, r: NodeId)
    requires Step(s, t, a) && NotDead(t, r)
    ensures NotDead(s, r)
  {
    match a {
      case Submit(recver, valid, _) => FinishEmptyEffect(s.nodes, s.nodes[recver].group, valid, s.time);
      case Wait(id, ts, sent) => MarkGroupEffect(s.nodes, s.nodes[id].group, ts, sent);
      case _ =>
    }
  }

  lemma MayBefore(s: State, t: State, a: Action, r: NodeId, ts: Time)
    requires RequestInv(s) && Step(s, t, a) && !a.Accept? && MayHandle(t, r, ts)
    ensures MayHandle(s, r, ts)
  {
    hide RequestInv, Step, Coming, Ready, NotDead;
    if !Coming(s, r, ts) {
      if Coming(t, r, ts) {
        NewlyComing(s, t, a, r, ts);
      } else {
        var n: nat :| Ready(t, n, r, ts);
        DeadStays(s, t, a, r);
        ReadyBefore(s, t, a, n, r, ts);
      }
    }
  }
}
