/** ThreadedIter: one producer thread that prefetches cells, and one consumer that never overlaps Next with
    BeforeFirst. A step is one critical section, one unlocked action or one notification; threads interleave freely. */
module ThreadedIter {
  import opened Options

  type Item = int
  type Cell = nat

  datatype Signal = Produce | BeforeFirst

  /** Where the producer thread is. */
  datatype Producer =
    | Enter                         // about to take the lock at the top of its loop
    | Wait(asleep: bool)            // inside producer_cond_.wait
    | Fetch(cell: Option<Cell>)     // lock released, about to call next(&cell)
    | Filled(cell: Option<Cell>)    // next returned and produce_end_ was written, about to take the lock again
    | NotifyNext                    // about to notify after the second critical section
    | NotifyReset                   // about to notify that the reset was processed

  /** Where the consumer thread is. */
  datatype Consumer =
    | Idle
    | InNext(asleep: bool)          // inside the wait of Next
    | InReset(asleep: bool)         // inside the wait of BeforeFirst
    | NotifyProducer                // about to notify the producer

  datatype State = State(
    queue: seq<Cell>,
    free: seq<Cell>,
    held: set<Cell>,                // cells the consumer owns, the current output cell included
    content: map<Cell, Item>,
    sig: Signal,
    processed: bool,
    end: bool,
    producer: Producer,
    consumer: Consumer,
    cells: nat,                     // how many were allocated; cells are numbered in order of allocation
    pass: nat,                      // how often the source was reset
    pos: nat,                       // items the source handed out in this pass
    // what the consumer saw, kept by its own steps
    resets: nat,                    // calls of BeforeFirst that were begun
    got: seq<Item>,                 // items that Next returned since the last of them
    maxHeld: nat                    // the most cells the consumer ever held
  )

  /** The fixed surroundings: the items of each pass of the source, and max_capacity_. */
  datatype Config = Config(source: nat -> seq<Item>, capacity: nat)

  ghost predicate Init(s: State) {
    && s.queue == [] && s.free == [] && s.held == {} && s.content == map[]
    && s.sig == Produce && !s.processed && !s.end
    && s.producer == Enter && s.consumer == Idle
    && s.cells == 0 && s.pass == 0 && s.pos == 0 && s.resets == 0 && s.got == [] && s.maxHeld == 0
  }

  // ---- the producer ----

  /** The predicate of producer_cond_.wait. */
  predicate MayProduce(k: Config, s: State) {
    s.sig == Produce ==> !s.end && (|s.queue| < k.capacity || s.free != [])
  }

  /** The first critical section once its predicate holds: take a free cell, or reset the source. */
  function FirstSection(s: State): State {
    match s.sig
    case Produce =>
      if s.free != [] then s.(producer := Fetch(Some(s.free[0])), free := s.free[1..])
      else s.(producer := Fetch(None))
    case BeforeFirst =>
      s.(free := s.free + s.queue, queue := [], end := false, processed := true, sig := Produce,
         producer := NotifyReset, pass := s.pass + 1, pos := 0)
  }

  ghost predicate EnterStep(k: Config, s: State, t: State) {
    && (s.producer == Enter || s.producer == Wait(false))
    && t == if MayProduce(k, s) then FirstSection(s) else s.(producer := Wait(true))
  }

  /** next(&cell): fills the given cell or a new one; at the end of the source it may still have allocated a cell. */
  ghost predicate FetchStep(k: Config, s: State, t: State) {
    && s.producer.Fetch?
    && var items := k.source(s.pass);
       var cell := s.producer.cell;
       if s.pos < |items| then
         var c := if cell.Some? then cell.value else s.cells;
         t == s.(end := false, producer := Filled(Some(c)), content := s.content[c := items[s.pos]],
                 pos := s.pos + 1, cells := if cell.Some? then s.cells else s.cells + 1)
       else
         || t == s.(end := true, producer := Filled(cell))
         || (cell.None? && t == s.(end := true, producer := Filled(Some(s.cells)), cells := s.cells + 1))
  }

  /** The second critical section. */
  ghost predicate PushStep(s: State, t: State) {
    && s.producer.Filled?
    && var after := if s.consumer.InNext? then NotifyNext else Enter;
       match s.producer.cell
       case None => t == s.(producer := after)
       case Some(c) =>
         t == if !s.end then s.(queue := s.queue + [c], producer := after)
              else s.(free := s.free + [c], producer := after)
  }

  function WokenConsumer(c: Consumer): Consumer {
    match c
    case InNext(_) => InNext(false)
    case InReset(_) => InReset(false)
    case _ => c
  }

  ghost predicate NotifyConsumerStep(s: State, t: State) {
    && (s.producer.NotifyNext? || s.producer.NotifyReset?)
    && t == s.(producer := Enter, consumer := WokenConsumer(s.consumer))
  }

  // ---- the consumer ----

  /** How the consumer leaves a critical section: it notifies when the producer waits and has not ended. */
  function Leave(s: State): Consumer {
    if s.producer.Wait? && !s.end then NotifyProducer else Idle
  }

  /** The predicate of the wait in Next. */
  predicate NextReady(s: State) {
    s.queue != [] || s.end
  }

  function Take(s: State): State
    requires NextReady(s) && (s.queue != [] ==> s.queue[0] in s.content)
  {
    if s.queue == [] then s.(consumer := Idle)      // Next returns false
    else
      var held := s.held + {s.queue[0]};
      s.(queue := s.queue[1..], held := held, got := s.got + [s.content[s.queue[0]]],
         maxHeld := if |held| > s.maxHeld then |held| else s.maxHeld, consumer := Leave(s))
  }

  ghost predicate NextStep(s: State, t: State) {
    && (s.consumer == Idle || s.consumer == InNext(false))
    && (s.queue != [] ==> s.queue[0] in s.content)
    && t == if NextReady(s) then Take(s) else s.(consumer := InNext(true))
  }

  ghost predicate RecycleStep(s: State, t: State, c: Cell) {
    && s.consumer == Idle && c in s.held
    && t == s.(held := s.held - {c}, free := s.free + [c], consumer := Leave(s))
  }

  /** BeforeFirst up to its wait: gives the current output cell back, raises the signal, wakes the producer. */
  ghost predicate ResetStep(s: State, t: State, out: Option<Cell>) {
    && s.consumer == Idle && (out.Some? ==> out.value in s.held)
    && t == s.(held := if out.Some? then s.held - {out.value} else s.held,
               free := if out.Some? then s.free + [out.value] else s.free,
               sig := BeforeFirst, resets := s.resets + 1, got := [],
               producer := if s.producer.Wait? then Wait(false) else s.producer,
               consumer := InReset(!s.processed))
  }

  ghost predicate ResetDoneStep(s: State, t: State) {
    && s.consumer == InReset(false)
    && t == if s.processed then s.(processed := false, consumer := Leave(s)) else s.(consumer := InReset(true))
  }

  ghost predicate NotifyProducerStep(s: State, t: State) {
    && s.consumer == NotifyProducer
    && t == s.(consumer := Idle, producer := if s.producer.Wait? then Wait(false) else s.producer)
  }

  /** Condition variables may wake up without a notification. */
  ghost predicate SpuriousStep(s: State, t: State) {
    || (s.producer.Wait? && t == s.(producer := Wait(false)))
    || t == s.(consumer := WokenConsumer(s.consumer))
  }

  /** A step that some thread can take by itself. */
  ghost predicate ThreadStep(k: Config, s: State, t: State) {
    || EnterStep(k, s, t) || FetchStep(k, s, t) || PushStep(s, t) || NotifyConsumerStep(s, t)
    || NextStep(s, t) || (exists c :: RecycleStep(s, t, c)) || (exists out :: ResetStep(s, t, out))
    || ResetDoneStep(s, t) || NotifyProducerStep(s, t)
  }

  ghost predicate Step(k: Config, s: State, t: State) {
    ThreadStep(k, s, t) || SpuriousStep(s, t)
  }

  ghost predicate Run(k: Config, states: seq<State>) {
    && states != [] && Init(states[0])
    && forall i :: 0 <= i < |states| - 1 ==> Step(k, states[i], states[i + 1])
  }

  // ---- what every step keeps ----

  predicate InHand(p: Producer, c: Cell) {
    p == Fetch(Some(c)) || p == Filled(Some(c))
  }

  function One(b: bool): nat {
    if b then 1 else 0
  }

  /** How many owners cell c has among the queue, the free list, the consumer and the producer's hand. */
  ghost function Owners(s: State, c: Cell): nat {
    multiset(s.queue)[c] + multiset(s.free)[c] + One(c in s.held) + One(InHand(s.producer, c))
  }

  /** Every allocated cell has exactly one owner, and nothing else is owned. */
  ghost predicate OneOwner(s: State) {
    forall c: Cell :: Owners(s, c) == One(c < s.cells)
  }

  ghost function Contents(content: map<Cell, Item>, cells: seq<Cell>): seq<Item>
    requires forall c :: c in cells ==> c in content
  {
    seq(|cells|, i requires 0 <= i < |cells| => content[cells[i]])
  }

  /** The cells that hold undelivered items, oldest first. */
  ghost function Pending(s: State): seq<Cell> {
    if s.producer.Filled? && s.producer.cell.Some? && !s.end then s.queue + [s.producer.cell.value] else s.queue
  }

  /**
   * The items the consumer got, then those in the queue, then the one in the
   * producer's hand, are what the source handed out in the pass that the consumer
   * asked for. While a reset is pending the source is one pass behind, and what is
   * in the queue will be thrown away.
   */
  ghost predicate InOrder(k: Config, s: State) {
    && s.pos <= |k.source(s.pass)|
    && (forall c :: c in Pending(s) ==> c in s.content)
    && s.resets == s.pass + One(s.sig == BeforeFirst)
    && (s.consumer.InReset? ==> s.got == [])
    && (s.sig == Produce ==> s.got + Contents(s.content, Pending(s)) == k.source(s.pass)[..s.pos])
  }

  ghost predicate Ended(k: Config, s: State) {
    && s.pos <= |k.source(s.pass)|
    && (s.end ==> s.pos == |k.source(s.pass)| && !s.producer.Fetch?)
    && (s.producer.Filled? && !s.end ==> s.producer.cell.Some?)
  }

  /** The reset handshake: the signal is up or answered exactly while the consumer waits in BeforeFirst. */
  ghost predicate Handshake(s: State) {
    && (s.sig == BeforeFirst ==> s.consumer.InReset? && !s.processed)
    && (s.processed ==> s.consumer.InReset? && s.sig == Produce)
    && (s.consumer.InReset? ==> s.sig == BeforeFirst || s.processed)
  }

  ghost predicate Bounded(k: Config, s: State) {
    && |s.held| <= s.maxHeld
    && s.cells + (if s.producer == Fetch(None) then 1 else 0) <= k.capacity + s.maxHeld
  }

  /** A thread asleep although its wait predicate holds has a notification coming. */
  ghost predicate NoLostWakeup(k: Config, s: State) {
    && (s.producer == Wait(true) && MayProduce(k, s) ==> s.consumer == NotifyProducer)
    && (s.consumer == InNext(true) && NextReady(s) ==> s.producer.Filled? || s.producer == NotifyNext)
    && (s.consumer == InReset(true) && s.processed ==> s.producer == NotifyReset)
  }

  ghost predicate Inv(k: Config, s: State) {
    OneOwner(s) && InOrder(k, s) && Ended(k, s) && Handshake(s) && Bounded(k, s) && NoLostWakeup(k, s)
  }

  // ---- proofs ----

  lemma ContentsConcat(content: map<Cell, Item>, a: seq<Cell>, b: seq<Cell>)
    requires forall c :: c in a + b ==> c in content
    ensures forall c :: c in a || c in b ==> c in content
    ensures Contents(content, a + b) == Contents(content, a) + Contents(content, b)
  {
    assert forall c :: c in a || c in b ==> c in a + b;
  }

  /** The cell in the producer's hand is not in the queue, so filling it disturbs no undelivered item. */
  lemma HandNotQueued(s: State, c: Cell)
    requires OneOwner(s)
    requires s.producer == Fetch(Some(c)) || (s.producer == Fetch(None) && c == s.cells)
    ensures c !in s.queue
  {
    assert Owners(s, c) == One(c < s.cells);
    assert c in s.queue ==> multiset(s.queue)[c] >= 1;
  }

  lemma InOrderFetch(k: Config, s: State, t: State)
    requires OneOwner(s) && InOrder(k, s) && Ended(k, s) && FetchStep(k, s, t)
    ensures InOrder(k, t)
  {
    var items := k.source(s.pass);
    if s.pos < |items| {
      var c := t.producer.cell.value;
      HandNotQueued(s, c);
      assert Pending(t) == s.queue + [c];
      ContentsConcat(t.content, s.queue, [c]);
      assert Contents(t.content, s.queue) == Contents(s.content, s.queue);
      assert Contents(t.content, [c]) == [items[s.pos]];
      assert items[..s.pos + 1] == items[..s.pos] + [items[s.pos]];
    }
  }

  lemma InOrderNext(k: Config, s: State, t: State)
    requires InOrder(k, s) && Handshake(s) && NextStep(s, t)
    ensures InOrder(k, t)
  {
    if s.queue == [] {
      assert Pending(t) == Pending(s);
    } else {
      var p := Pending(s);
      assert p[0] == s.queue[0] && Pending(t) == p[1..];
      assert p == [p[0]] + p[1..];
      ContentsConcat(s.content, [p[0]], p[1..]);
      assert Contents(s.content, [p[0]]) == [s.content[p[0]]];
    }
  }

  // The parts of the invariant that are about signals, waiting and counting, step by step.

  ghost predicate Control(k: Config, s: State) {
    Ended(k, s) && Handshake(s) && NoLostWakeup(k, s)
  }

  lemma ControlEnter(k: Config, s: State, t: State)
    requires Control(k, s) && EnterStep(k, s, t)
    ensures Control(k, t)
  {
  }

  lemma ControlFetch(k: Config, s: State, t: State)
    requires Control(k, s) && FetchStep(k, s, t)
    ensures Control(k, t)
  {
  }

  lemma ControlPush(k: Config, s: State, t: State)
    requires Control(k, s) && PushStep(s, t)
    ensures Control(k, t)
  {
  }

  lemma ControlNotifyConsumer(k: Config, s: State, t: State)
    requires Control(k, s) && NotifyConsumerStep(s, t)
    ensures Control(k, t)
  {
  }

  lemma ControlNext(k: Config, s: State, t: State)
    requires Control(k, s) && NextStep(s, t)
    ensures Control(k, t)
  {
  }

  lemma ControlResetDone(k: Config, s: State, t: State)
    requires Control(k, s) && ResetDoneStep(s, t)
    ensures Control(k, t)
  {
  }

  lemma ControlNotifyProducer(k: Config, s: State, t: State)
    requires Control(k, s) && NotifyProducerStep(s, t)
    ensures Control(k, t)
  {
  }

  lemma ControlSpurious(k: Config, s: State, t: State)
    requires Control(k, s) && SpuriousStep(s, t)
    ensures Control(k, t)
  {
  }

  lemma ControlRecycle(k: Config, s: State, t: State, c: Cell)
    requires Control(k, s) && RecycleStep(s, t, c)
    ensures Control(k, t)
  {
  }

  lemma ControlReset(k: Config, s: State, t: State, out: Option<Cell>)
    requires Control(k, s) && ResetStep(s, t, out)
    ensures Control(k, t)
  {
  }

  lemma ControlKept(k: Config, s: State, t: State)
    requires Control(k, s) && Step(k, s, t)
    ensures Control(k, t)
  {
    hide Control, EnterStep, FetchStep, PushStep, NotifyConsumerStep, NextStep, RecycleStep, ResetStep, ResetDoneStep,
      NotifyProducerStep, SpuriousStep;
    if {
      case EnterStep(k, s, t) => ControlEnter(k, s, t);
      case FetchStep(k, s, t) => ControlFetch(k, s, t);
      case PushStep(s, t) => ControlPush(k, s, t);
      case NotifyConsumerStep(s, t) => ControlNotifyConsumer(k, s, t);
      case NextStep(s, t) => ControlNext(k, s, t);
      case exists c: Cell :: RecycleStep(s, t, c) => var c: Cell :| RecycleStep(s, t, c); ControlRecycle(k, s, t, c);
      case exists out :: ResetStep(s, t, out) => var out :| ResetStep(s, t, out); ControlReset(k, s, t, out);
      case ResetDoneStep(s, t) => ControlResetDone(k, s, t);
      case NotifyProducerStep(s, t) => ControlNotifyProducer(k, s, t);
      case SpuriousStep(s, t) => ControlSpurious(k, s, t);
    }
  }

  // The parts that are about cells: who owns them, how many there are, and what they hold.

  ghost predicate Cells(k: Config, s: State) {
    OneOwner(s) && Bounded(k, s)
  }

  lemma Popped<T>(q: seq<T>)
    requires q != []
    ensures multiset(q) == multiset{q[0]} + multiset(q[1..])
  {
    assert q == [q[0]] + q[1..];
  }

  lemma CellsEnter(k: Config, s: State, t: State)
    requires Cells(k, s) && EnterStep(k, s, t)
    ensures Cells(k, t)
  {
    if MayProduce(k, s) {
      match s.sig {
        case Produce =>
          if s.free != [] {
            Popped(s.free);
          } else {
            RoomForOne(k, s);
          }
        case BeforeFirst =>
          assert multiset(s.free + s.queue) == multiset(s.free) + multiset(s.queue);
      }
    }
    EnterOwners(k, s, t);
    SameOwners(s, t);
  }

  lemma EnterOwners(k: Config, s: State, t: State)
    requires Cells(k, s) && EnterStep(k, s, t)
    ensures t.cells == s.cells && forall c: Cell :: Owners(t, c) == Owners(s, c)
  {
    hide OneOwner, Bounded;
    if MayProduce(k, s) {
      match s.sig {
        case Produce =>
          if s.free != [] {
            Popped(s.free);
          }
        case BeforeFirst =>
          assert multiset(s.free + s.queue) == multiset(s.free) + multiset(s.queue);
          assert multiset(t.queue) == multiset{};
      }
    }
  }

  lemma SameOwners(s: State, t: State)
    requires OneOwner(s) && t.cells == s.cells
    requires forall c: Cell :: Owners(t, c) == Owners(s, c)
    ensures OneOwner(t)
  {
  }

  /** A new cell is only asked for when the free list is empty and the queue is below capacity. */
  lemma RoomForOne(k: Config, s: State)
    requires OneOwner(s) && |s.held| <= s.maxHeld
    requires s.free == [] && |s.queue| < k.capacity && forall c: Cell :: !InHand(s.producer, c)
    ensures s.cells + 1 <= k.capacity + s.maxHeld
  {
    var m := multiset(s.queue) + multiset(s.held);
    forall c: Cell
      ensures m[c] == One(c < s.cells)
    {
      assert Owners(s, c) == One(c < s.cells);
    }
    CountedOnce(m, s.cells);
    assert |multiset(s.queue)| == |s.queue| && |multiset(s.held)| == |s.held|;
  }

  lemma {:induction false} CountedOnce(m: multiset<Cell>, n: nat)
    requires forall c: Cell :: m[c] == One(c < n)
    ensures |m| == n
  {
    if n == 0 {
      assert m == multiset{};
    } else {
      var m' := m - multiset{n - 1};
      CountedOnce(m', n - 1);
      assert m == m' + multiset{n - 1};
    }
  }

  lemma CellsFetch(k: Config, s: State, t: State)
    requires Cells(k, s) && FetchStep(k, s, t)
    ensures Cells(k, t)
  {
    forall c: Cell
      ensures Owners(t, c) == One(c < t.cells)
    {
      assert Owners(s, c) == One(c < s.cells);
    }
  }

  lemma CellsPush(k: Config, s: State, t: State)
    requires Cells(k, s) && PushStep(s, t)
    ensures Cells(k, t)
  {
    SameOwners(s, t);
  }

  lemma CellsNext(k: Config, s: State, t: State)
    requires Cells(k, s) && NextStep(s, t)
    ensures Cells(k, t)
  {
    if s.queue != [] {
      Popped(s.queue);
      assert Owners(s, s.queue[0]) == One(s.queue[0] < s.cells);
    }
    SameOwners(s, t);
  }

  /** The consumer gives one of its cells back to the free list. */
  lemma CellsGiven(k: Config, s: State, t: State, c: Cell)
    requires Cells(k, s) && c in s.held
    requires t.held == s.held - {c} && t.free == s.free + [c] && t.queue == s.queue && t.cells == s.cells
    requires t.maxHeld == s.maxHeld
    requires t.producer == s.producer || (t.producer.Wait? && s.producer.Wait?)
    ensures Cells(k, t)
  {
    SameOwners(s, t);
    assert |s.held - {c}| <= |s.held|;
  }

  lemma CellsKept(k: Config, s: State, t: State)
    requires Cells(k, s) && Control(k, s) && Step(k, s, t)
    ensures Cells(k, t)
  {
    hide Control, OneOwner, Bounded;
    if {
      case EnterStep(k, s, t) => CellsEnter(k, s, t);
      case FetchStep(k, s, t) => CellsFetch(k, s, t);
      case PushStep(s, t) => CellsPush(k, s, t);
      case NextStep(s, t) => CellsNext(k, s, t);
      case exists c: Cell :: RecycleStep(s, t, c) => var c: Cell :| RecycleStep(s, t, c); CellsGiven(k, s, t, c);
      case exists out :: ResetStep(s, t, out) =>
        var out :| ResetStep(s, t, out);
        if out.Some? { CellsGiven(k, s, t, out.value); } else { CellsSame(k, s, t); }
      case NotifyConsumerStep(s, t) || ResetDoneStep(s, t) || NotifyProducerStep(s, t) || SpuriousStep(s, t) =>
        CellsSame(k, s, t);
    }
  }

  lemma CellsSame(k: Config, s: State, t: State)
    requires Cells(k, s)
    requires t.held == s.held && t.free == s.free && t.queue == s.queue && t.cells == s.cells && t.maxHeld == s.maxHeld
    requires forall c: Cell :: InHand(t.producer, c) == InHand(s.producer, c)
    requires t.producer == Fetch(None) <==> s.producer == Fetch(None)
    ensures Cells(k, t)
  {
    SameOwners(s, t);
  }

  lemma InOrderSame(k: Config, s: State, t: State)
    requires InOrder(k, s)
    requires t.pass == s.pass && t.pos == s.pos && t.content == s.content
    requires t.got == s.got && t.resets == s.resets && t.sig == s.sig && (t.consumer.InReset? ==> s.consumer.InReset?)
    requires Pending(t) == Pending(s)
    ensures InOrder(k, t)
  {
  }

  lemma InOrderEnter(k: Config, s: State, t: State)
    requires InOrder(k, s) && Handshake(s) && EnterStep(k, s, t)
    ensures InOrder(k, t)
  {
    if s.sig == BeforeFirst && MayProduce(k, s) {
      assert Pending(t) == [];
      assert Contents(t.content, []) == [];
    } else {
      InOrderSame(k, s, t);
    }
  }

  lemma InOrderReset(k: Config, s: State, t: State, out: Option<Cell>)
    requires InOrder(k, s) && Handshake(s) && ResetStep(s, t, out)
    ensures InOrder(k, t)
  {
    assert Pending(t) == Pending(s);
  }

  lemma InOrderKept(k: Config, s: State, t: State)
    requires OneOwner(s) && Control(k, s) && InOrder(k, s) && Step(k, s, t)
    ensures InOrder(k, t)
  {
    hide OneOwner, InOrder, EnterStep, FetchStep, NextStep;
    if {
      case EnterStep(k, s, t) => InOrderEnter(k, s, t);
      case FetchStep(k, s, t) => InOrderFetch(k, s, t);
      case PushStep(s, t) => InOrderSame(k, s, t);
      case NextStep(s, t) => InOrderNext(k, s, t);
      case exists c: Cell :: RecycleStep(s, t, c) => InOrderSame(k, s, t);
      case exists out :: ResetStep(s, t, out) => var out :| ResetStep(s, t, out); InOrderReset(k, s, t, out);
      case NotifyConsumerStep(s, t) || ResetDoneStep(s, t) || NotifyProducerStep(s, t) || SpuriousStep(s, t) =>
        InOrderSame(k, s, t);
    }
  }

  lemma StepKeepsInv(k: Config, s: State, t: State)
    requires Inv(k, s) && Step(k, s, t)
    ensures Inv(k, t)
  {
    hide OneOwner, InOrder, Ended, Handshake, Bounded, NoLostWakeup, Step;
    ControlKept(k, s, t);
    CellsKept(k, s, t);
    InOrderKept(k, s, t);
  }

  lemma InitInv(k: Config, s: State)
    requires Init(s)
    ensures Inv(k, s)
  {
    assert Contents(s.content, []) == [];
  }

  lemma {:induction false} RunKeepsInv(k: Config, states: seq<State>, i: nat)
    requires Run(k, states) && i < |states|
    ensures Inv(k, states[i])
  {
    hide Inv, Init, Step;
    if i == 0 {
      InitInv(k, states[0]);
    } else {
      RunKeepsInv(k, states, i - 1);
      assert Step(k, states[i - 1], states[i - 1 + 1]);
      StepKeepsInv(k, states[i - 1], states[i]);
    }
  }

  // ---- what users of the iterator rely on, in every interleaving ----

  /**
   * Whenever the consumer is not in BeforeFirst, the source is in the pass that the
   * consumer asked for: it was reset once for every call. The items that Next
   * returned since the last call are the first items of that pass, none lost,
   * repeated or overwritten, and all of them when Next can only return false.
   */
  lemma DeliveredInOrder(k: Config, states: seq<State>, i: nat)
    requires Run(k, states) && i < |states| && !states[i].consumer.InReset?
    ensures var s := states[i];
      && s.pass == s.resets && s.got <= k.source(s.resets)
      && (s.queue == [] && s.end ==> s.got == k.source(s.resets))
  {
    hide Init, Step, OneOwner, Bounded, NoLostWakeup;
    RunKeepsInv(k, states, i);
    var s := states[i];
    var items := k.source(s.pass);
    if s.queue == [] && s.end {
      assert Pending(s) == [];
      assert Contents(s.content, []) == [];
      assert items[..s.pos] == items;
    }
  }

  /** A call of Next that ends returns the next item of the pass, or false exactly when there is none. */
  lemma NextReturns(k: Config, states: seq<State>, i: nat)
    requires Run(k, states) && i + 1 < |states| && NextStep(states[i], states[i + 1]) && !states[i + 1].consumer.InNext?
    ensures var s, t := states[i], states[i + 1];
      && t.resets == s.resets && |s.got| <= |k.source(s.resets)|
      && (|s.got| < |k.source(s.resets)| ==> t.got == s.got + [k.source(s.resets)[|s.got|]])
      && (|s.got| == |k.source(s.resets)| ==> t.got == s.got)
  {
    hide Init, Step;
    DeliveredInOrder(k, states, i);
    DeliveredInOrder(k, states, i + 1);
    RunKeepsInv(k, states, i);
  }

  /** BeforeFirst starts over: when it has returned, the source is in a new pass and nothing of it was returned yet. */
  lemma ResetStartsOver(k: Config, states: seq<State>, i: nat, j: nat)
    requires Run(k, states) && i < j < |states| && states[i].consumer.InReset? && !states[j].consumer.InReset?
    requires forall n :: i <= n < j ==> states[n].consumer.InReset?
    ensures states[j].resets == states[i].resets == states[j].pass && states[j].got == [] && states[j].got <= k.source(states[j].pass)
  {
    hide Init, Step, Inv;
    StaysInReset(k, states, i, j);
    DeliveredInOrder(k, states, j);
    RunKeepsInv(k, states, i);
    InResetGotNothing(k, states[i]);
  }

  lemma InResetGotNothing(k: Config, s: State)
    requires Inv(k, s) && s.consumer.InReset?
    ensures s.got == []
  {
  }

  lemma {:induction false} StaysInReset(k: Config, states: seq<State>, i: nat, j: nat)
    requires Run(k, states) && i <= j < |states| && forall n :: i <= n < j ==> states[n].consumer.InReset?
    ensures states[j].resets == states[i].resets && states[j].got == states[i].got
  {
    hide Init, Step;
    if i < j {
      StaysInReset(k, states, i, j - 1);
      assert Step(k, states[j - 1], states[j - 1 + 1]);
      WaitsInReset(k, states[j - 1], states[j]);
    }
  }

  lemma WaitsInReset(k: Config, s: State, t: State)
    requires Step(k, s, t) && s.consumer.InReset?
    ensures t.resets == s.resets && t.got == s.got
  {
  }

  /** Each cell has exactly one owner, and the number of cells is bounded by the capacity plus what the consumer holds. */
  lemma CellsBounded(k: Config, states: seq<State>, i: nat, c: Cell)
    requires Run(k, states) && i < |states|
    ensures var s := states[i];
      && s.cells <= k.capacity + s.maxHeld
      && Owners(s, c) == One(c < s.cells)
  {
    hide Init, Step, InOrder, Handshake, Ended, NoLostWakeup;
    RunKeepsInv(k, states, i);
  }

  /** The CHECKs of Next and BeforeFirst never fail: no signal and no answer is pending when a call starts. */
  lemma ChecksHold(k: Config, states: seq<State>, i: nat)
    requires Run(k, states) && i < |states| && states[i].consumer == Idle
    ensures states[i].sig == Produce && !states[i].processed
  {
    hide Init, Step, OneOwner, Ended, Bounded, NoLostWakeup, InOrder;
    RunKeepsInv(k, states, i);
  }

  ghost predicate Stuck(k: Config, s: State) {
    forall t :: !ThreadStep(k, s, t)
  }

  /** No deadlock and no lost wakeup: with room for one cell, some thread can always go on without a spurious wakeup. */
  lemma NeverStuck(k: Config, states: seq<State>, i: nat)
    requires Run(k, states) && i < |states| && k.capacity > 0
    ensures !Stuck(k, states[i])
  {
    hide Init, Step, OneOwner, Bounded;
    RunKeepsInv(k, states, i);
    var s := states[i];
    var t := Progress(k, s);
    assert ThreadStep(k, s, t);
  }

  lemma Progress(k: Config, s: State) returns (t: State)
    requires Ended(k, s) && Handshake(s) && NoLostWakeup(k, s) && k.capacity > 0
    requires forall c :: c in Pending(s) ==> c in s.content
    ensures ThreadStep(k, s, t)
  {
    match s.producer {
      case Enter =>
        t := if MayProduce(k, s) then FirstSection(s) else s.(producer := Wait(true));
        assert EnterStep(k, s, t);
      case Fetch(cell) =>
        t := ProgressFetch(k, s);
      case Filled(cell) =>
        t := ProgressPush(k, s);
      case NotifyNext =>
        t := s.(producer := Enter, consumer := WokenConsumer(s.consumer));
        assert NotifyConsumerStep(s, t);
      case NotifyReset =>
        t := s.(producer := Enter, consumer := WokenConsumer(s.consumer));
        assert NotifyConsumerStep(s, t);
      case Wait(asleep) =>
        if !asleep {
          t := if MayProduce(k, s) then FirstSection(s) else s.(producer := Wait(true));
          assert EnterStep(k, s, t);
        } else {
          t := ProgressConsumer(k, s);
        }
    }
  }

  lemma ProgressFetch(k: Config, s: State) returns (t: State)
    requires s.producer.Fetch?
    ensures FetchStep(k, s, t)
  {
    var items, cell := k.source(s.pass), s.producer.cell;
    if s.pos < |items| {
      var c := if cell.Some? then cell.value else s.cells;
      t := s.(end := false, producer := Filled(Some(c)), content := s.content[c := items[s.pos]],
              pos := s.pos + 1, cells := if cell.Some? then s.cells else s.cells + 1);
    } else {
      t := s.(end := true, producer := Filled(cell));
    }
  }

  lemma ProgressPush(k: Config, s: State) returns (t: State)
    requires s.producer.Filled?
    ensures PushStep(s, t)
  {
    var after := if s.consumer.InNext? then NotifyNext else Enter;
    match s.producer.cell {
      case None => t := s.(producer := after);
      case Some(c) =>
        t := if !s.end then s.(queue := s.queue + [c], producer := after) else s.(free := s.free + [c], producer := after);
    }
  }

  /** When the producer sleeps, the consumer cannot be asleep too. */
  lemma ProgressConsumer(k: Config, s: State) returns (t: State)
    requires s.producer == Wait(true) && k.capacity > 0
    requires Handshake(s) && NoLostWakeup(k, s)
    requires forall c :: c in s.queue ==> c in s.content
    ensures ThreadStep(k, s, t)
  {
    match s.consumer {
      case NotifyProducer =>
        t := s.(consumer := Idle, producer := Wait(false));
        assert NotifyProducerStep(s, t);
      case InReset(asleep) =>
        assert !asleep;
        t := if s.processed then s.(processed := false, consumer := Leave(s)) else s.(consumer := InReset(true));
        assert ResetDoneStep(s, t);
      case InNext(asleep) =>
        assert !asleep;
        t := if NextReady(s) then Take(s) else s.(consumer := InNext(true));
        assert NextStep(s, t);
      case Idle =>
        t := if NextReady(s) then Take(s) else s.(consumer := InNext(true));
        assert NextStep(s, t);
    }
  }

  /** With capacity 0 the first Next does deadlock: producer and consumer both sleep for good. */
  lemma ZeroCapacityDeadlocks(k: Config) returns (states: seq<State>)
    requires k.capacity == 0
    ensures Run(k, states) && Stuck(k, states[|states| - 1])
  {
    var s0 := State([], [], {}, map[], Produce, false, false, Enter, Idle, 0, 0, 0, 0, [], 0);
    var s1 := s0.(producer := Wait(true));
    var s2 := s1.(consumer := InNext(true));
    assert EnterStep(k, s0, s1) && NextStep(s1, s2);
    states := [s0, s1, s2];
    assert Step(k, states[0], states[1]) && Step(k, states[1], states[2]);
  }
}
