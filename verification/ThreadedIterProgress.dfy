/**
 * A call of Next or BeforeFirst that waits does return: every step that a thread
 * takes meanwhile, without a spurious wakeup, lowers a rank, and some thread can
 * always take one.
 */
module ThreadedIterProgress {
  import opened Options
  import opened ThreadedIter

  predicate InCall(s: State) {
    s.consumer.InNext? || s.consumer.InReset?
  }

  /** The consumer is still in the call it was in. */
  predicate SameCall(s: State, t: State) {
    (s.consumer.InNext? && t.consumer.InNext?) || (s.consumer.InReset? && t.consumer.InReset?)
  }

  predicate Asleep(c: Consumer) {
    (c.InNext? || c.InReset?) && c.asleep
  }

  /** How much of the current round of the producer is left, and whether the consumer has yet to look. */
  function Phase(s: State): nat {
    (match s.producer
     case Wait(true) => 0
     case Wait(false) => 2
     case Enter => 2
     case NotifyNext => 4
     case NotifyReset => 4
     case Filled(_) => 5
     case Fetch(_) => 6) + if Asleep(s.consumer) then 0 else 1
  }

  function Less(a: nat, b: nat): nat {
    if a < b then 0 else a - b
  }

  predicate Busy(p: Producer) {
    p.Fetch? || p.Filled?
  }

  /** How often the producer can still start a round: once per free cell, and up to the capacity. */
  function Rounds(k: Config, s: State): nat {
    if s.end then 0 else 1 + |s.free| + Less(k.capacity, |s.queue| + One(Busy(s.producer)))
  }

  /** A reset that is still to come frees all cells. */
  function Rank(k: Config, s: State): nat {
    8 * (if s.sig == BeforeFirst then 2 + |s.free| + |s.queue| + One(Busy(s.producer)) + k.capacity else Rounds(k, s)) + Phase(s)
  }

  lemma RankBounded(k: Config, s: State)
    ensures Rank(k, s) <= 8 * (|s.free| + |s.queue| + k.capacity + 3) + 7
  {
  }

  lemma EnterFalls(k: Config, s: State, t: State)
    requires Control(k, s) && EnterStep(k, s, t) && InCall(s)
    ensures Rank(k, t) < Rank(k, s)
  {
  }

  lemma FetchFalls(k: Config, s: State, t: State)
    requires Control(k, s) && FetchStep(k, s, t) && InCall(s)
    ensures Rank(k, t) < Rank(k, s)
  {
  }

  lemma PushFalls(k: Config, s: State, t: State)
    requires Control(k, s) && PushStep(s, t) && InCall(s)
    ensures Rank(k, t) < Rank(k, s)
  {
  }

  lemma NotifyFalls(k: Config, s: State, t: State)
    requires Control(k, s) && NotifyConsumerStep(s, t) && InCall(s)
    ensures Rank(k, t) < Rank(k, s)
  {
  }

  lemma ConsumerFalls(k: Config, s: State, t: State)
    requires Control(k, s) && (NextStep(s, t) || ResetDoneStep(s, t)) && SameCall(s, t)
    ensures Rank(k, t) < Rank(k, s)
  {
  }

  lemma RankFalls(k: Config, s: State, t: State)
    requires Control(k, s) && ThreadStep(k, s, t) && SameCall(s, t)
    ensures Rank(k, t) < Rank(k, s)
  {
    hide Control, Rank;
    if {
      case EnterStep(k, s, t) => EnterFalls(k, s, t);
      case FetchStep(k, s, t) => FetchFalls(k, s, t);
      case PushStep(s, t) => PushFalls(k, s, t);
      case NotifyConsumerStep(s, t) => NotifyFalls(k, s, t);
      case NextStep(s, t) || ResetDoneStep(s, t) => ConsumerFalls(k, s, t);
      case (exists c: Cell :: RecycleStep(s, t, c)) || (exists out :: ResetStep(s, t, out)) || NotifyProducerStep(s, t) =>
        assert false;
    }
  }

  /** From state i to state j the consumer is in one call, and nobody wakes up without a notification. */
  ghost predicate Waits(k: Config, states: seq<State>, i: nat, j: nat)
    requires i <= j < |states|
  {
    forall n :: i <= n < j ==> ThreadStep(k, states[n], states[n + 1]) && SameCall(states[n], states[n + 1])
  }

  /**
   * In every run a call that waits lasts at most as many steps as its rank says;
   * with positive capacity some thread can take each of them, so it returns.
   */
  lemma {:induction false} CallReturns(k: Config, states: seq<State>, i: nat, j: nat)
    requires Run(k, states) && i <= j < |states| && Waits(k, states, i, j)
    ensures j - i + Rank(k, states[j]) <= Rank(k, states[i])
    ensures k.capacity > 0 ==> !Stuck(k, states[j])
    decreases j
  {
    hide Init, Step, ThreadStep, Rank, OneOwner, InOrder, Bounded;
    if k.capacity > 0 {
      NeverStuck(k, states, j);
    }
    if i < j {
      CallReturns(k, states, i, j - 1);
      RunKeepsInv(k, states, j - 1);
      assert ThreadStep(k, states[j - 1], states[j - 1 + 1]);
      RankFalls(k, states[j - 1], states[j]);
    }
  }
}
