/**
 * The pool that hands parts of files to workers, takes them back from workers
 * that die or lag, and counts what is finished.
 *
 * Every call appends to a ghost log what it decided about single parts. The
 * log is legal when each decision was open at its moment: a part is handed out
 * only while available, and finished or revoked only by the node that holds it.
 * The fields are tied to the log, so a claim about the log is a claim about
 * every run of the pool.
 */
module WorkloadPool {
  import opened Sequences

  datatype Part = Part(file: string, k: nat)

  datatype Status = Available | Held(node: string) | Done(node: string)

  datatype Event =
    | Opened(file: string, n: nat)
    | Given(part: Part, node: string)
    | Revoked(part: Part, node: string)
    | Finished(part: Part, node: string)

  /** The status of every part after the events of the log. */
  ghost function Board(log: seq<Event>): map<Part, Status> {
    if log == [] then map[] else After(Board(log[..|log| - 1]), log[|log| - 1])
  }

  ghost function After(b: map<Part, Status>, e: Event): map<Part, Status> {
    match e
    case Opened(f, n) =>
      map p | p in b.Keys + PartsOf(f, n) && (p.file != f || p.k < n) :: if p.file == f then Available else b[p]
    case Given(p, node) => b[p := Held(node)]
    case Revoked(p, _) => b[p := Available]
    case Finished(p, node) => b[p := Done(node)]
  }

  ghost function PartsOf(f: string, n: nat): set<Part> {
    set k: nat | k < n :: Part(f, k)
  }

  /** The event may happen on this board: an opened file has no part in progress. */
  ghost predicate Allowed(b: map<Part, Status>, e: Event) {
    match e
    case Opened(f, n) => forall p :: p in b && p.file == f ==> b[p].Done?
    case Given(p, _) => p in b && b[p] == Available
    case Revoked(p, node) => p in b && b[p] == Held(node)
    case Finished(p, node) => p in b && b[p] == Held(node)
  }

  ghost predicate Legal(log: seq<Event>) {
    log == [] || (Legal(log[..|log| - 1]) && Allowed(Board(log[..|log| - 1]), log[|log| - 1]))
  }

  ghost function Finishes(log: seq<Event>): nat {
    if log == [] then 0
    else Finishes(log[..|log| - 1]) + if log[|log| - 1].Finished? then 1 else 0
  }

  lemma Appended(log: seq<Event>, e: Event)
    ensures Board(log + [e]) == After(Board(log), e)
    ensures Legal(log + [e]) <==> Legal(log) && Allowed(Board(log), e)
    ensures Finishes(log + [e]) == Finishes(log) + if e.Finished? then 1 else 0
  {
    assert (log + [e])[..|log + [e]| - 1] == log;
  }

  // ---------------------------------------------------------------- the fields

  /** track: 0 available, 1 assigned, 2 done. */
  datatype Task = Task(node: set<string>, track: seq<nat>, done: nat)

  datatype Assigned = Assigned(filename: string, node: string, n: nat, k: nat, start: real)

  function PartOf(a: Assigned): Part {
    Part(a.filename, a.k)
  }

  function Code(s: Status): nat {
    match s
    case Available => 0
    case Held(_) => 1
    case Done(_) => 2
  }

  function DoneIn(track: seq<nat>): nat {
    if track == [] then 0 else DoneIn(track[..|track| - 1]) + if track[|track| - 1] == 2 then 1 else 0
  }

  lemma {:induction false} DoneInUpdate(track: seq<nat>, k: nat, v: nat)
    requires k < |track|
    ensures DoneIn(track[k := v]) + (if track[k] == 2 then 1 else 0) == DoneIn(track) + if v == 2 then 1 else 0
  {
    var last := |track| - 1;
    if k < last {
      DoneInUpdate(track[..last], k, v);
      assert track[k := v][..last] == track[..last][k := v];
    } else {
      assert track[k := v][..last] == track[..last];
    }
  }

  lemma {:induction false} AllDone(track: seq<nat>)
    ensures DoneIn(track) <= |track|
    ensures DoneIn(track) == |track| <==> forall k :: 0 <= k < |track| ==> track[k] == 2
  {
    if track != [] {
      var last := |track| - 1;
      AllDone(track[..last]);
      assert forall k :: 0 <= k < last ==> track[..last][k] == track[k];
    }
  }

  lemma {:induction false} NoneDone(n: nat)
    ensures DoneIn(seq(n, _ => 0)) == 0
  {
    if n > 0 {
      assert seq(n, _ => 0)[..n - 1] == seq(n - 1, _ => 0);
      NoneDone(n - 1);
    }
  }

  /** A registered file: its track shows the board, and the file leaves when its last part is done. */
  ghost predicate TaskShows(b: map<Part, Status>, f: string, t: Task) {
    && t.done == DoneIn(t.track)
    && (t.done < |t.track| || t.track == [])
    && (forall k: nat :: k < |t.track| ==> Part(f, k) in b && t.track[k] == Code(b[Part(f, k)]))
    && (forall k: nat :: Part(f, k) in b ==> k < |t.track|)
  }

  ghost predicate TasksShow(b: map<Part, Status>, task: map<string, Task>) {
    && (forall f :: f in task ==> TaskShows(b, f, task[f]))
    && (forall p :: p in b && p.file !in task ==> b[p].Done?)
  }

  /** Exactly the held parts are in the list of assigned jobs, each in one entry. */
  ghost predicate HeldShow(b: map<Part, Status>, jobs: seq<Assigned>) {
    && (forall i :: 0 <= i < |jobs| ==> PartOf(jobs[i]) in b && b[PartOf(jobs[i])] == Held(jobs[i].node))
    && (forall i, j :: 0 <= i < j < |jobs| ==> PartOf(jobs[i]) != PartOf(jobs[j]))
    && (forall p :: p in b && b[p].Held? ==> Listed(jobs, p))
  }

  ghost predicate Listed(jobs: seq<Assigned>, p: Part) {
    exists i :: 0 <= i < |jobs| && PartOf(jobs[i]) == p
  }

  function Drop<T>(s: seq<T>, i: nat): (r: seq<T>)
    requires i < |s|
    ensures |r| == |s| - 1
  {
    s[..i] + s[i + 1..]
  }

  /** What Mark leaves in the task table. */
  function Marked(task: map<string, Task>, f: string, k: nat, mark: nat): map<string, Task> {
    if f !in task || k >= |task[f].track| then task
    else
      var t := task[f];
      var t' := Task(t.node, t.track[k := mark], if mark == 2 && t.track[k] != 2 then t.done + 1 else t.done);
      if t'.done == |t'.track| then task - {f} else task[f := t']
  }

  /** The file of the marked part. */
  lemma MarkedFile(b: map<Part, Status>, t: Task, p: Part, s: Status)
    requires TaskShows(b, p.file, t) && p in b
    requires !b[p].Done? && !(b[p].Available? && s.Done?)
    ensures p.k < |t.track| && t.track[p.k] == Code(b[p])
    ensures var t' := Task(t.node, t.track[p.k := Code(s)], if s.Done? then t.done + 1 else t.done);
            if t'.done == |t'.track| then forall q :: q in b && q.file == p.file ==> b[p := s][q].Done?
            else TaskShows(b[p := s], p.file, t')
  {
    assert p == Part(p.file, p.k);
    DoneInUpdate(t.track, p.k, Code(s));
    var track, b' := t.track[p.k := Code(s)], b[p := s];
    AllDone(track);
    AllDone(t.track);
    hide DoneIn;
    forall q | q in b && q.file == p.file
      ensures q.k < |track| && track[q.k] == Code(b'[q])
    {
      assert q == Part(p.file, q.k);
    }
  }

  lemma MarkKeepsTasks(b: map<Part, Status>, task: map<string, Task>, p: Part, s: Status)
    requires TasksShow(b, task) && p in b
    requires !b[p].Done? && !(b[p].Available? && s.Done?)
    ensures p.file in task && p.k < |task[p.file].track| && task[p.file].track[p.k] == Code(b[p])
    ensures TasksShow(b[p := s], Marked(task, p.file, p.k, Code(s)))
  {
    var task' := Marked(task, p.file, p.k, Code(s));
    MarkedFile(b, task[p.file], p, s);
    forall g | g in task'
      ensures TaskShows(b[p := s], g, task'[g])
    {
      if g != p.file {
        OtherFile(b, g, task[g], p, s);
      }
    }
    hide TaskShows, DoneIn;
  }

  lemma OtherFile(b: map<Part, Status>, g: string, t: Task, p: Part, s: Status)
    requires TaskShows(b, g, t) && g != p.file
    ensures TaskShows(b[p := s], g, t)
  {
    hide DoneIn;
  }

  lemma DropKeepsHeld(b: map<Part, Status>, jobs: seq<Assigned>, i: nat, s: Status)
    requires HeldShow(b, jobs) && i < |jobs| && !s.Held?
    ensures HeldShow(b[PartOf(jobs[i]) := s], Drop(jobs, i))
  {
    var p := PartOf(jobs[i]);
    var rest := Drop(jobs, i);
    var b' := b[p := s];
    assert forall j :: 0 <= j < |rest| ==> rest[j] == if j < i then jobs[j] else jobs[j + 1];
    hide Listed, Drop;
    forall q | q in b' && b'[q].Held?
      ensures Listed(rest, q)
    {
      assert q != p && Listed(jobs, q);
      StillListed(jobs, i, q);
    }
  }

  lemma StillListed(jobs: seq<Assigned>, i: nat, q: Part)
    requires i < |jobs| && q != PartOf(jobs[i]) && Listed(jobs, q)
    ensures Listed(Drop(jobs, i), q)
  {
    var rest := Drop(jobs, i);
    var j :| 0 <= j < |jobs| && PartOf(jobs[j]) == q;
    assert PartOf(rest[if j < i then j else j - 1]) == q;
  }

  lemma GiveKeepsHeld(b: map<Part, Status>, jobs: seq<Assigned>, a: Assigned)
    requires HeldShow(b, jobs) && PartOf(a) in b && b[PartOf(a)] == Available
    ensures HeldShow(b[PartOf(a) := Held(a.node)], jobs + [a])
  {
    var b' := b[PartOf(a) := Held(a.node)];
    var more := jobs + [a];
    forall q | q in b' && b'[q].Held?
      ensures Listed(more, q)
    {
      if q == PartOf(a) {
        assert PartOf(more[|jobs|]) == q;
      } else {
        assert Listed(jobs, q);
        var j :| 0 <= j < |jobs| && PartOf(jobs[j]) == q;
        assert PartOf(more[j]) == q;
      }
    }
  }

  /** Registering a file anew, or once more with the same number of parts. */
  lemma OpenKeeps(b: map<Part, Status>, task: map<string, Task>, jobs: seq<Assigned>, f: string, t: Task, npart: nat)
    requires TasksShow(b, task) && HeldShow(b, jobs) && |t.track| == npart
    requires f in task && task[f].track != [] ==> t.track == task[f].track && t.done == task[f].done
    requires f !in task || task[f].track == [] ==> t.track == seq(npart, _ => 0) && t.done == 0
    ensures var anew := f !in task || task[f].track == [];
            var b' := if anew then After(b, Opened(f, npart)) else b;
            && (anew ==> Allowed(b, Opened(f, npart)))
            && TasksShow(b', task[f := t]) && HeldShow(b', jobs)
  {
    if f !in task || task[f].track == [] {
      OpenAllowed(b, task, f, npart);
      OpenAnew(b, task, f, t, npart);
      OpenHeld(b, jobs, f, npart);
    } else {
      OpenAgain(b, task, f, t);
    }
    hide TasksShow, HeldShow, After, Allowed;
  }

  lemma OpenAllowed(b: map<Part, Status>, task: map<string, Task>, f: string, npart: nat)
    requires TasksShow(b, task) && (f !in task || task[f].track == [])
    ensures Allowed(b, Opened(f, npart))
  {
    forall p | p in b && p.file == f
      ensures b[p].Done?
    {
      assert p == Part(f, p.k);
    }
  }

  lemma OpenHeld(b: map<Part, Status>, jobs: seq<Assigned>, f: string, npart: nat)
    requires HeldShow(b, jobs) && Allowed(b, Opened(f, npart))
    ensures HeldShow(After(b, Opened(f, npart)), jobs)
  {
    hide Listed;
  }

  lemma OpenAnew(b: map<Part, Status>, task: map<string, Task>, f: string, t: Task, npart: nat)
    requires TasksShow(b, task) && (f !in task || task[f].track == []) && t.track == seq(npart, _ => 0) && t.done == 0
    ensures TasksShow(After(b, Opened(f, npart)), task[f := t])
  {
    NoneDone(npart);
    hide DoneIn;
    var b', task' := After(b, Opened(f, npart)), task[f := t];
    forall g | g in task'
      ensures TaskShows(b', g, task'[g])
    {
      if g == f {
        assert forall k: nat :: k < npart ==> Part(f, k) in PartsOf(f, npart);
      } else {
        assert TaskShows(b, g, task[g]);
      }
    }
  }

  lemma OpenAgain(b: map<Part, Status>, task: map<string, Task>, f: string, t: Task)
    requires TasksShow(b, task) && f in task && t.track == task[f].track && t.done == task[f].done
    ensures TasksShow(b, task[f := t])
  {
    hide DoneIn;
    assert TaskShows(b, f, task[f]);
  }

  // ------------------------------------------------------- the openings for a node

  predicate Eligible(t: Task, id: string) {
    (t.node == {} || id in t.node) && t.done != |t.track|
  }

  function OpenParts(f: string, track: seq<nat>): seq<Part> {
    if track == [] then []
    else
      var last := |track| - 1;
      OpenParts(f, track[..last]) + if track[last] == 0 then [Part(f, last)] else []
  }

  function OpenIn(task: map<string, Task>, f: string, id: string): seq<Part> {
    if f in task && Eligible(task[f], id) then OpenParts(f, task[f].track) else []
  }

  /** The parts a node may be given, in the order in which the table is walked. */
  function Openings(task: map<string, Task>, order: seq<string>, id: string): seq<Part> {
    if order == [] then []
    else Openings(task, order[..|order| - 1], id) + OpenIn(task, order[|order| - 1], id)
  }

  lemma {:induction false} OpenPartsExact(f: string, track: seq<nat>)
    ensures forall p :: p in OpenParts(f, track) <==> p.file == f && p.k < |track| && track[p.k] == 0
    ensures NoRepeats(OpenParts(f, track))
  {
    if track != [] {
      OpenPartsExact(f, track[..|track| - 1]);
    }
  }

  /** Every part that is available to the node is an opening, once, and nothing else is. */
  lemma {:induction false} OpeningsExact(task: map<string, Task>, order: seq<string>, id: string)
    requires NoRepeats(order)
    ensures forall p :: p in Openings(task, order, id) <==>
              && p.file in order && p.file in task && (task[p.file].node == {} || id in task[p.file].node)
              && p.k < |task[p.file].track| && task[p.file].track[p.k] == 0 && task[p.file].done != |task[p.file].track|
    ensures NoRepeats(Openings(task, order, id))
  {
    if order != [] {
      var last := |order| - 1;
      OpeningsExact(task, order[..last], id);
      if order[last] in task {
        OpenPartsExact(order[last], task[order[last]].track);
      }
      assert order[last] !in order[..last];
      assert order == order[..last] + [order[last]];
    }
  }

  lemma {:induction false} OpenPartsPrefix(f: string, track: seq<nat>, k: nat)
    requires k <= |track|
    ensures OpenParts(f, track[..k]) <= OpenParts(f, track)
  {
    if k < |track| {
      var last := |track| - 1;
      OpenPartsPrefix(f, track[..last], k);
      assert track[..last][..k] == track[..k];
    } else {
      assert track[..k] == track;
    }
  }

  lemma {:induction false} OpeningsPrefix(task: map<string, Task>, order: seq<string>, id: string, a: nat)
    requires a <= |order|
    ensures Openings(task, order[..a], id) <= Openings(task, order, id)
  {
    if a < |order| {
      var last := |order| - 1;
      OpeningsPrefix(task, order[..last], id, a);
      assert order[..last][..a] == order[..a];
    } else {
      assert order[..a] == order;
    }
  }

  // ------------------------------------------------- taking jobs back, in list order

  /** The jobs that stay when those chosen are taken back. */
  function Kept(jobs: seq<Assigned>, chosen: Assigned -> bool): seq<Assigned> {
    if jobs == [] then [] else
      var last := |jobs| - 1;
      Kept(jobs[..last], chosen) + if chosen(jobs[last]) then [] else [jobs[last]]
  }

  function Taken(jobs: seq<Assigned>, chosen: Assigned -> bool): seq<Assigned> {
    if jobs == [] then [] else
      var last := |jobs| - 1;
      Taken(jobs[..last], chosen) + if chosen(jobs[last]) then [jobs[last]] else []
  }

  ghost function Outcome(a: Assigned, finished: bool): Event {
    if finished then Finished(PartOf(a), a.node) else Revoked(PartOf(a), a.node)
  }

  ghost function Outcomes(jobs: seq<Assigned>, finished: bool): seq<Event> {
    if jobs == [] then [] else Outcomes(jobs[..|jobs| - 1], finished) + [Outcome(jobs[|jobs| - 1], finished)]
  }

  function Spent(jobs: seq<Assigned>, now: real): seq<real> {
    if jobs == [] then [] else Spent(jobs[..|jobs| - 1], now) + [now - jobs[|jobs| - 1].start]
  }

  function Sum(s: seq<real>): real {
    if s == [] then 0.0 else Sum(s[..|s| - 1]) + s[|s| - 1]
  }

  /** Older than twice the mean of the finished jobs, and than five seconds. */
  function Late(time: seq<real>, now: real): Assigned -> bool
    requires |time| > 0
  {
    LateFor(Sum(time) / (|time| as real), now)
  }

  function LateFor(mean: real, now: real): Assigned -> bool {
    (a: Assigned) => now - a.start > if mean * 2.0 < 5.0 then 5.0 else mean * 2.0
  }

  function OfNode(id: string): Assigned -> bool {
    (a: Assigned) => a.node == id
  }

  /** What stays is the list without the chosen jobs, in its order; what is taken back is exactly the chosen ones. */
  lemma {:induction false} KeptInOrder(jobs: seq<Assigned>, chosen: Assigned -> bool)
    ensures Subsequence(Kept(jobs, chosen), jobs)
    ensures |Kept(jobs, chosen)| + |Taken(jobs, chosen)| == |jobs|
    ensures forall a :: a in Taken(jobs, chosen) ==> chosen(a)
  {
    if jobs != [] {
      KeptInOrder(jobs[..|jobs| - 1], chosen);
      var kept, last := Kept(jobs[..|jobs| - 1], chosen), jobs[|jobs| - 1];
      if !chosen(last) {
        assert (kept + [last])[..|kept|] == kept;
      } else {
        assert kept + [] == kept;
      }
    }
  }

  lemma {:induction false} KeptCount(jobs: seq<Assigned>, chosen: Assigned -> bool, a: Assigned)
    ensures multiset(Kept(jobs, chosen))[a] == if chosen(a) then 0 else multiset(jobs)[a]
  {
    if jobs != [] {
      var front, last := jobs[..|jobs| - 1], jobs[|jobs| - 1];
      KeptCount(front, chosen, a);
      assert jobs == front + [last];
    }
  }

  /** The list after the jobs of a node have left it. */
  ghost predicate LeftBy(id: string, before: seq<Assigned>, after: seq<Assigned>) {
    && Subsequence(after, before)
    && forall a :: multiset(after)[a] == if a.node == id then 0 else multiset(before)[a]
  }

  lemma KeptOthers(jobs: seq<Assigned>, id: string)
    ensures LeftBy(id, jobs, Kept(jobs, OfNode(id)))
  {
    hide Kept, Subsequence;
    KeptInOrder(jobs, OfNode(id));
    forall a
      ensures multiset(Kept(jobs, OfNode(id)))[a] == if a.node == id then 0 else multiset(jobs)[a]
    {
      KeptCount(jobs, OfNode(id), a);
    }
  }

  /** A job has taken more than five seconds and more than twice the mean of the times on record. */
  predicate Straggles(a: Assigned, time: seq<real>, now: real) {
    now - a.start > 5.0 && (now - a.start) * |time| as real > 2.0 * Sum(time)
  }

  /** The list after the jobs that straggle have left it. */
  ghost predicate Swept(time: seq<real>, now: real, before: seq<Assigned>, after: seq<Assigned>) {
    && Subsequence(after, before)
    && forall a :: multiset(after)[a] == if Straggles(a, time, now) then 0 else multiset(before)[a]
  }

  lemma KeptInTime(jobs: seq<Assigned>, time: seq<real>, now: real)
    requires |time| > 0
    ensures Swept(time, now, jobs, Kept(jobs, Late(time, now)))
  {
    hide Kept, Subsequence, Sum;
    KeptInOrder(jobs, Late(time, now));
    forall a
      ensures multiset(Kept(jobs, Late(time, now)))[a] == if Straggles(a, time, now) then 0 else multiset(jobs)[a]
    {
      KeptCount(jobs, Late(time, now), a);
      MeanTwice(Sum(time), |time| as real, now - a.start);
    }
  }

  lemma {:induction false} OutcomesExact(jobs: seq<Assigned>, finished: bool)
    ensures |Outcomes(jobs, finished)| == |jobs|
    ensures forall e :: e in Outcomes(jobs, finished) ==>
              exists a :: a in jobs && if finished then e == Finished(Part(a.filename, a.k), a.node) else e == Revoked(Part(a.filename, a.k), a.node)
  {
    if jobs != [] {
      var front, last := jobs[..|jobs| - 1], jobs[|jobs| - 1];
      OutcomesExact(front, finished);
      assert jobs == front + [last];
    }
  }

  /** One time on record for each job that a node has ended: how long the job took. */
  ghost predicate Timed(id: string, before: seq<Assigned>, after: seq<Assigned>, now: real, added: seq<real>) {
    && |added| == |before| - |after|
    && forall i :: 0 <= i < |added| ==> Started(id, before, now - added[i])
  }

  ghost predicate Started(id: string, jobs: seq<Assigned>, start: real) {
    exists a :: a in jobs && a.node == id && a.start == start
  }

  lemma {:induction false} SpentExact(jobs: seq<Assigned>, now: real)
    ensures |Spent(jobs, now)| == |jobs| && forall i :: 0 <= i < |jobs| ==> Spent(jobs, now)[i] == now - jobs[i].start
  {
    if jobs != [] {
      SpentExact(jobs[..|jobs| - 1], now);
    }
  }

  lemma {:induction false} TakenInside(jobs: seq<Assigned>, chosen: Assigned -> bool)
    ensures forall a :: a in Taken(jobs, chosen) ==> a in jobs
  {
    if jobs != [] {
      var front, last := jobs[..|jobs| - 1], jobs[|jobs| - 1];
      TakenInside(front, chosen);
      assert jobs == front + [last];
    }
  }

  lemma SpentTimed(jobs: seq<Assigned>, id: string, now: real)
    ensures Timed(id, jobs, Kept(jobs, OfNode(id)), now, Spent(Taken(jobs, OfNode(id)), now))
  {
    var gone := Taken(jobs, OfNode(id));
    SpentExact(gone, now);
    TakenInside(jobs, OfNode(id));
    KeptInOrder(jobs, OfNode(id));
    hide Taken, Kept, Spent, Subsequence;
    var added := Spent(gone, now);
    forall i | 0 <= i < |added|
      ensures Started(id, jobs, now - added[i])
    {
      assert gone[i] in gone && OfNode(id)(gone[i]);
      assert gone[i].start == now - added[i];
    }
  }

  lemma MeanTwice(sum: real, n: real, t: real)
    requires n > 0.0
    ensures t > sum / n * 2.0 <==> t * n > 2.0 * sum
  {
    var m := sum / n;
    assert m * n == sum;
    if t > m * 2.0 {
      assert (t - m * 2.0) * n > 0.0;
    } else {
      assert (m * 2.0 - t) * n >= 0.0;
    }
  }

  /** The jobs, the log and the times once the first c jobs have been looked at. */
  ghost function JobsAt(jobs: seq<Assigned>, c: nat, chosen: Assigned -> bool): seq<Assigned>
    requires c <= |jobs|
  {
    Kept(jobs[..c], chosen) + jobs[c..]
  }

  ghost function LogAt(log: seq<Event>, jobs: seq<Assigned>, c: nat, chosen: Assigned -> bool, finished: bool): seq<Event>
    requires c <= |jobs|
  {
    log + Outcomes(Taken(jobs[..c], chosen), finished)
  }

  ghost function TimeAt(time: seq<real>, jobs: seq<Assigned>, c: nat, chosen: Assigned -> bool, finished: bool, now: real): seq<real>
    requires c <= |jobs|
  {
    time + if finished then Spent(Taken(jobs[..c], chosen), now) else []
  }

  lemma TakeEnds(jobs: seq<Assigned>, log: seq<Event>, time: seq<real>, chosen: Assigned -> bool, finished: bool, now: real)
    ensures JobsAt(jobs, 0, chosen) == jobs && LogAt(log, jobs, 0, chosen, finished) == log
    ensures TimeAt(time, jobs, 0, chosen, finished, now) == time
    ensures JobsAt(jobs, |jobs|, chosen) == Kept(jobs, chosen)
    ensures LogAt(log, jobs, |jobs|, chosen, finished) == log + Outcomes(Taken(jobs, chosen), finished)
    ensures TimeAt(time, jobs, |jobs|, chosen, finished, now)
         == time + if finished then Spent(Taken(jobs, chosen), now) else []
  {
    assert jobs[..0] == [] && jobs[0..] == jobs && jobs[..|jobs|] == jobs && jobs[|jobs|..] == [];
  }

  lemma TakeStep(jobs: seq<Assigned>, c: nat, log: seq<Event>, time: seq<real>, chosen: Assigned -> bool, finished: bool, now: real)
    requires c < |jobs|
    ensures var at, i := JobsAt(jobs, c, chosen), |JobsAt(jobs, c, chosen)| - (|jobs| - c);
            && 0 <= i < |at| && at[i] == jobs[c]
            && JobsAt(jobs, c + 1, chosen) == if chosen(jobs[c]) then Drop(at, i) else at
    ensures LogAt(log, jobs, c + 1, chosen, finished)
         == LogAt(log, jobs, c, chosen, finished) + if chosen(jobs[c]) then [Outcome(jobs[c], finished)] else []
    ensures TimeAt(time, jobs, c + 1, chosen, finished, now)
         == TimeAt(time, jobs, c, chosen, finished, now) + if finished && chosen(jobs[c]) then [now - jobs[c].start] else []
  {
    hide Kept, Taken, Outcomes, Spent;
    TakenStep(jobs, c, chosen, finished, now);
    assert jobs[c..] == [jobs[c]] + jobs[c + 1..];
  }

  lemma TakenStep(jobs: seq<Assigned>, c: nat, chosen: Assigned -> bool, finished: bool, now: real)
    requires c < |jobs|
    ensures Kept(jobs[..c + 1], chosen) == Kept(jobs[..c], chosen) + if chosen(jobs[c]) then [] else [jobs[c]]
    ensures Outcomes(Taken(jobs[..c + 1], chosen), finished)
         == Outcomes(Taken(jobs[..c], chosen), finished) + if chosen(jobs[c]) then [Outcome(jobs[c], finished)] else []
    ensures Spent(Taken(jobs[..c + 1], chosen), now)
         == Spent(Taken(jobs[..c], chosen), now) + if chosen(jobs[c]) then [now - jobs[c].start] else []
  {
    assert jobs[..c + 1][..c] == jobs[..c];
    var taken, upto := Taken(jobs[..c], chosen), Taken(jobs[..c + 1], chosen);
    if chosen(jobs[c]) {
      assert upto == taken + [jobs[c]] && upto[..|upto| - 1] == taken && upto[|upto| - 1] == jobs[c];
    } else {
      assert upto == taken;
    }
  }

  ghost predicate AllPartsDone(log: seq<Event>) {
    forall p :: p in Board(log) ==> Board(log)[p].Done?
  }

  /** No registered file has zero parts: such a file never leaves the table. */
  ghost predicate NoEmptyFile(task: map<string, Task>) {
    forall f :: f in task ==> task[f].track != []
  }

  lemma Unfinished(b: map<Part, Status>, f: string, t: Task)
    requires TaskShows(b, f, t) && t.track != []
    ensures exists k: nat :: Part(f, k) in b && !b[Part(f, k)].Done?
  {
    AllDone(t.track);
    var k :| 0 <= k < |t.track| && t.track[k] != 2;
    assert Part(f, k) in b;
  }

  lemma FinishedIff(b: map<Part, Status>, task: map<string, Task>, jobs: seq<Assigned>)
    requires TasksShow(b, task) && HeldShow(b, jobs)
    ensures task == map[] && jobs == [] <==> (forall p :: p in b ==> b[p].Done?) && NoEmptyFile(task)
  {
    forall f | f in task && task[f].track != []
      ensures exists k: nat :: Part(f, k) in b && !b[Part(f, k)].Done?
    {
      Unfinished(b, f, task[f]);
    }
    hide TaskShows;
    assert jobs != [] ==> PartOf(jobs[0]) in b && !b[PartOf(jobs[0])].Done?;
  }

  /** The fields and the log agree, and the log is legal. */
  ghost predicate Consistent(log: seq<Event>, task: map<string, Task>, jobs: seq<Assigned>, numFinished: nat) {
    && Legal(log)
    && TasksShow(Board(log), task)
    && HeldShow(Board(log), jobs)
    && numFinished == Finishes(log)
  }

  lemma EndKeeps(log: seq<Event>, task: map<string, Task>, jobs: seq<Assigned>, nf: nat, i: nat, finished: bool)
    requires Consistent(log, task, jobs, nf) && i < |jobs|
    ensures jobs[i].filename in task && jobs[i].k < |task[jobs[i].filename].track|
    ensures task[jobs[i].filename].track[jobs[i].k] == 1
    ensures Consistent(log + [Outcome(jobs[i], finished)],
                       Marked(task, jobs[i].filename, jobs[i].k, if finished then 2 else 0), Drop(jobs, i),
                       nf + if finished then 1 else 0)
  {
    hide Legal, Board, Finishes, HeldShow, TasksShow, Drop, Marked;
    var p, s := PartOf(jobs[i]), if finished then Done(jobs[i].node) else Available;
    HeldOnBoard(Board(log), jobs, i);
    MarkKeepsTasks(Board(log), task, p, s);
    DropKeepsHeld(Board(log), jobs, i, s);
    Appended(log, Outcome(jobs[i], finished));
  }

  lemma HeldOnBoard(b: map<Part, Status>, jobs: seq<Assigned>, i: nat)
    requires HeldShow(b, jobs) && i < |jobs|
    ensures PartOf(jobs[i]) in b && b[PartOf(jobs[i])] == Held(jobs[i].node)
  {
  }

  lemma GiveKeeps(log: seq<Event>, task: map<string, Task>, jobs: seq<Assigned>, nf: nat, job: Assigned)
    requires Consistent(log, task, jobs, nf) && job.filename in task
    requires job.k < |task[job.filename].track| && task[job.filename].track[job.k] == 0
    ensures Consistent(log + [Given(PartOf(job), job.node)], Marked(task, job.filename, job.k, 1), jobs + [job], nf)
    ensures Marked(task, job.filename, job.k, 1)
         == task[job.filename := task[job.filename].(track := task[job.filename].track[job.k := 1])]
  {
    hide Legal, Board, Finishes, HeldShow, TasksShow;
    var p, s := PartOf(job), Held(job.node);
    OpenOnBoard(Board(log), task, job);
    MarkKeepsTasks(Board(log), task, p, s);
    GiveKeepsHeld(Board(log), jobs, job);
    Appended(log, Given(p, job.node));
  }

  lemma OpenOnBoard(b: map<Part, Status>, task: map<string, Task>, job: Assigned)
    requires TasksShow(b, task) && job.filename in task
    requires job.k < |task[job.filename].track| && task[job.filename].track[job.k] == 0
    ensures PartOf(job) in b && b[PartOf(job)] == Available && task[job.filename].done < |task[job.filename].track|
  {
    assert TaskShows(b, job.filename, task[job.filename]);
    assert PartOf(job) == Part(job.filename, job.k);
  }

  lemma AddKeeps(log: seq<Event>, task: map<string, Task>, jobs: seq<Assigned>, nf: nat, f: string, t: Task)
    requires Consistent(log, task, jobs, nf) && f in task && task[f].track != []
    requires t.track == task[f].track && t.done == task[f].done
    ensures Consistent(log, task[f := t], jobs, nf)
  {
    OpenKeeps(Board(log), task, jobs, f, t, |t.track|);
  }

  lemma OpenedKeeps(log: seq<Event>, task: map<string, Task>, jobs: seq<Assigned>, nf: nat, f: string, t: Task)
    requires Consistent(log, task, jobs, nf) && (f !in task || task[f].track == [])
    requires t.track == seq(|t.track|, _ => 0) && t.done == 0
    ensures Consistent(log + [Opened(f, |t.track|)], task[f := t], jobs, nf)
  {
    OpenKeeps(Board(log), task, jobs, f, t, |t.track|);
    hide TasksShow, HeldShow;
    Appended(log, Opened(f, |t.track|));
    hide Legal, Board, Finishes;
  }

  lemma EmptyTask(log: seq<Event>, task: map<string, Task>, jobs: seq<Assigned>, nf: nat, f: string)
    requires Consistent(log, task, jobs, nf) && f in task && task[f].track == []
    ensures task[f].done == 0
  {
    assert TaskShows(Board(log), f, task[f]);
  }

  // ----------------------------------------------------- steps of the walk

  lemma OpeningsStep(task: map<string, Task>, order: seq<string>, id: string, a: nat)
    requires a < |order|
    ensures |Openings(task, order[..a + 1], id)| == |Openings(task, order[..a], id)| + |OpenIn(task, order[a], id)|
  {
    assert order[..a + 1][..a] == order[..a];
  }

  lemma OpenPartsStep(f: string, track: seq<nat>, k: nat)
    requires k < |track|
    ensures |OpenParts(f, track[..k + 1])| == |OpenParts(f, track[..k])| + if track[k] == 0 then 1 else 0
  {
    assert track[..k + 1][..k] == track[..k];
  }

  lemma Ends(task: map<string, Task>, order: seq<string>, id: string)
    ensures Openings(task, order[..0], id) == [] && order[..|order|] == order
  {
  }

  lemma TrackEnds(f: string, track: seq<nat>)
    ensures OpenParts(f, track[..0]) == [] && track[..|track|] == track
  {
  }

  /** The available part met at entry k of the a-th file is the opening with that many before it. */
  lemma OpeningAt(task: map<string, Task>, order: seq<string>, id: string, a: nat, k: nat)
    requires a < |order| && order[a] in task && Eligible(task[order[a]], id)
    requires k < |task[order[a]].track| && task[order[a]].track[k] == 0
    ensures var n := |Openings(task, order[..a], id)| + |OpenParts(order[a], task[order[a]].track[..k])|;
            n < |Openings(task, order, id)| && Openings(task, order, id)[n] == Part(order[a], k)
  {
    var f := order[a];
    var track := task[f].track;
    assert order[..a + 1][..a] == order[..a] && track[..k + 1][..k] == track[..k];
    assert Openings(task, order[..a + 1], id) == Openings(task, order[..a], id) + OpenParts(f, track);
    assert OpenParts(f, track[..k + 1]) == OpenParts(f, track[..k]) + [Part(f, k)];
    hide Openings, OpenParts;
    OpeningsPrefix(task, order, id, a + 1);
    OpenPartsPrefix(f, track, k + 1);
    Nested(Openings(task, order, id), Openings(task, order[..a], id), OpenParts(f, track), OpenParts(f, track[..k]), Part(f, k));
  }

  lemma Nested<T>(whole: seq<T>, front: seq<T>, block: seq<T>, lead: seq<T>, x: T)
    requires front + block <= whole && lead + [x] <= block
    ensures |front| + |lead| < |whole| && whole[|front| + |lead|] == x
  {
    assert whole[|front| + |lead|] == (front + block)[|front| + |lead|] == block[|lead|] == (lead + [x])[|lead|];
  }

  datatype File = File(filename: string, n: nat, k: nat)

  /** The files that remain are open to the same nodes as before. */
  ghost predicate SameNodes(before: map<string, Task>, after: map<string, Task>) {
    forall f :: f in after ==> f in before && after[f].node == before[f].node && |after[f].track| == |before[f].track|
  }

  /** The registered files without parts. */
  ghost function ZeroPart(task: map<string, Task>): set<string> {
    set f | f in task && task[f].track == []
  }

  lemma MarkKeepsZeroPart(task: map<string, Task>, f: string, k: nat, mark: nat)
    ensures ZeroPart(Marked(task, f, k, mark)) == ZeroPart(task)
  {
  }

  lemma AddedZeroPart(before: map<string, Task>, after: map<string, Task>, names: seq<string>, npart: nat)
    requires AllHave(after, names, npart) && SameOutside(before, after, names)
    ensures forall f :: f in ZeroPart(after) <==> if f in names then npart == 0 else f in ZeroPart(before)
  {
  }

  lemma NodesUnchanged(task: map<string, Task>)
    ensures SameNodes(task, task)
  {
  }

  lemma MarkKeepsNodes(before: map<string, Task>, task: map<string, Task>, f: string, k: nat, mark: nat)
    requires SameNodes(before, task)
    ensures SameNodes(before, Marked(task, f, k, mark))
  {
  }

  /** These files are now open to the node, besides those they were open to. */
  ghost predicate NodeAdded(before: map<string, Task>, after: map<string, Task>, names: seq<string>, id: string) {
    forall f :: f in names && f in after ==>
      after[f].node == (if f in before then before[f].node else {}) + (if id != [] then {id} else {})
  }

  ghost predicate AllHave(task: map<string, Task>, names: seq<string>, npart: nat) {
    forall f :: f in names ==> f in task && |task[f].track| == npart
  }

  ghost predicate SameOutside(before: map<string, Task>, after: map<string, Task>, names: seq<string>) {
    forall f :: f !in names ==> (f in after <==> f in before) && (f in after ==> after[f] == before[f])
  }

  /** A file that is registered already is registered with this number of parts. */
  ghost predicate Compatible(task: map<string, Task>, names: seq<string>, npart: nat) {
    forall f :: f in names && f in task && task[f].track != [] ==> |task[f].track| == npart
  }

  /** What was logged since are openings of these files. */
  ghost predicate OnlyOpened(before: seq<Event>, after: seq<Event>, names: seq<string>, npart: nat) {
    && before <= after
    && forall i :: |before| <= i < |after| ==> after[i].Opened? && after[i].n == npart && after[i].file in names
  }

  lemma AddNone(task: map<string, Task>, log: seq<Event>, files: seq<string>, npart: nat)
    ensures AllHave(task, files[..0], npart) && SameOutside(task, task, files[..0])
    ensures OnlyOpened(log, log, files, npart) && Compatible(task, files[..0], npart)
    ensures forall id :: NodeAdded(task, task, files[..0], id)
  {
  }

  lemma AddNode(task0: map<string, Task>, before: map<string, Task>, after: map<string, Task>, files: seq<string>, i: nat,
                npart: nat, id: string)
    requires i < |files| && NodeAdded(task0, before, files[..i], id) && SameOutside(task0, before, files[..i])
    requires AllHave(before, files[..i], npart)
    requires files[i] in after && after == before[files[i] := after[files[i]]]
    requires after[files[i]].node == (if files[i] in before then before[files[i]].node else {}) + if id != [] then {id} else {}
    ensures NodeAdded(task0, after, files[..i + 1], id)
  {
    var f := files[i];
    assert files[..i + 1] == files[..i] + [f];
  }

  lemma AddOne(task0: map<string, Task>, before: map<string, Task>, after: map<string, Task>,
               log0: seq<Event>, log1: seq<Event>, log2: seq<Event>, files: seq<string>, i: nat, npart: nat, ok: bool)
    requires i < |files|
    requires AllHave(before, files[..i], npart) && SameOutside(task0, before, files[..i])
    requires OnlyOpened(log0, log1, files, npart) && Compatible(task0, files[..i], npart)
    requires ok <==> files[i] !in before || before[files[i]].track == [] || |before[files[i]].track| == npart
    requires ok ==> files[i] in after && |after[files[i]].track| == npart && after == before[files[i] := after[files[i]]]
    requires ok ==> log2 == log1 || log2 == log1 + [Opened(files[i], npart)]
    ensures ok ==> AllHave(after, files[..i + 1], npart) && SameOutside(task0, after, files[..i + 1])
    ensures ok ==> OnlyOpened(log0, log2, files, npart) && Compatible(task0, files[..i + 1], npart)
    ensures !ok ==> !Compatible(task0, files, npart)
  {
    var f := files[i];
    assert files[..i + 1] == files[..i] + [f];
    assert f in files && forall g :: g in files[..i] ==> g in files;
    if !ok {
      assert f !in files[..i] ==> f in task0 && task0[f] == before[f];
    }
  }

  class WorkloadPool {
    var task: map<string, Task>
    var jobs: seq<Assigned>
    var numFinished: nat
    var inited: bool
    var time: seq<real>
    const shuffle: bool
    ghost var log: seq<Event>

    ghost predicate Valid()
      reads this
    {
      && Consistent(log, task, jobs, numFinished)
      && (log != [] || task != map[] ==> inited)
    }

    constructor (shuffle: bool)
      ensures Valid() && log == [] && this.shuffle == shuffle && !inited
    {
      task, jobs, numFinished, inited, time := map[], [], 0, false, [];
      this.shuffle := shuffle;
      log := [];
    }

    /** One file of Add; a part count that differs from the registered one aborts. */
    method AddFile(f: string, npart: nat, id: string) returns (ok: bool)
      requires Valid() && inited
      modifies this`task, this`log
      ensures ok <==> f !in old(task) || old(task)[f].track == [] || |old(task)[f].track| == npart
      ensures ok ==> Valid() && f in task && task == old(task)[f := task[f]]
      ensures ok && f in old(task) && old(task)[f].track != [] ==> log == old(log) && task[f].track == old(task)[f].track
      ensures ok && (f !in old(task) || old(task)[f].track == []) ==>
                log == old(log) + [Opened(f, npart)] && task[f].track == seq(npart, _ => 0)
      ensures old(log) <= log
      ensures ok ==> task[f].node == (if f in old(task) then old(task)[f].node else {}) + if id != [] then {id} else {}
    {
      hide Consistent;
      var t := if f in task then task[f] else Task({}, [], 0);
      if f in task && t.track == [] {
        EmptyTask(log, task, jobs, numFinished, f);
      }
      ghost var anew := t.track == [];
      if t.track == [] {
        t := t.(track := seq(npart, _ => 0));
        log := log + [Opened(f, npart)];
      }
      if |t.track| != npart {
        return false;
      }
      if |id| > 0 {
        t := t.(node := t.node + {id});
      }
      task := task[f := t];
      ok := true;
      if anew {
        OpenedKeeps(old(log), old(task), jobs, numFinished, f, t);
      } else {
        AddKeeps(log, old(task), jobs, numFinished, f, t);
      }
    }

    /** Registers the files in order, for one node or, with an empty id, for all. */
    method Add(files: seq<string>, npart: nat, id: string) returns (ok: bool)
      requires Valid()
      modifies this`task, this`log, this`inited
      ensures ok ==> Valid() && inited
      ensures ok <==> Compatible(old(task), files, npart)
      ensures ok ==> AllHave(task, files, npart) && SameOutside(old(task), task, files) && NodeAdded(old(task), task, files, id)
      ensures old(log) <= log && (ok ==> OnlyOpened(old(log), log, files, npart))
      ensures ok ==> forall f :: f in ZeroPart(task) <==> if f in files then npart == 0 else f in ZeroPart(old(task))
    {
      hide Consistent, AllHave, SameOutside, OnlyOpened, Compatible, NodeAdded;
      inited := true;
      ok := true;
      var i := 0;
      AddNone(task, log, files, npart);
      while i < |files|
        invariant i <= |files| && Valid() && inited && old(log) <= log
        invariant AllHave(task, files[..i], npart) && SameOutside(old(task), task, files[..i])
        invariant NodeAdded(old(task), task, files[..i], id)
        invariant OnlyOpened(old(log), log, files, npart) && Compatible(old(task), files[..i], npart)
      {
        ghost var before, log0 := task, log;
        ok := AddFile(files[i], npart, id);
        AddOne(old(task), before, task, old(log), log0, log, files, i, npart, ok);
        if ok {
          AddNode(old(task), before, task, files, i, npart, id);
        }
        if !ok {
          return;
        }
        i := i + 1;
      }
      assert files[..i] == files;
      AddedZeroPart(old(task), task, files, npart);
    }

    /**
     * Gives the node one part it may have, if there is one; order is the order
     * in which the table happens to be walked, rnd the random draw.
     */
    method GetOne(id: string, order: seq<string>, rnd: nat, now: real) returns (wl: seq<File>)
      requires Valid()
      requires NoRepeats(order) && (forall f :: f in order <==> f in task)
      modifies this`task, this`jobs, this`log
      ensures Valid()
      ensures ZeroPart(task) == ZeroPart(old(task))
      ensures Openings(old(task), order, id) == [] ==>
                wl == [] && task == old(task) && jobs == old(jobs) && log == old(log)
      ensures Openings(old(task), order, id) != [] ==>
                var open := Openings(old(task), order, id);
                var p := open[if shuffle then rnd % |open| else 0];
                && p.file in old(task)
                && wl == [File(p.file, |old(task)[p.file].track|, p.k)]
                && task == Marked(old(task), p.file, p.k, 1)
                && log == old(log) + [Given(p, id)]
                && jobs == old(jobs) + [Assigned(p.file, id, |old(task)[p.file].track|, p.k, now)]
    {
      hide Consistent, NoRepeats, Openings, OpenParts, Marked, ZeroPart;
      var pick := 0;
      if shuffle {
        var n := CountOpenings(id, order);
        if n == 0 {
          return [];
        }
        pick := rnd % n;
      }
      var i, a := 0, 0;
      Ends(task, order, id);
      while a < |order|
        invariant a <= |order| && task == old(task) && jobs == old(jobs) && log == old(log)
        invariant i == |Openings(task, order[..a], id)| <= pick
      {
        var f := order[a];
        var t := task[f];
        OpeningsStep(task, order, id, a);
        if Eligible(t, id) {
          var k := 0;
          TrackEnds(f, t.track);
          while k < |t.track|
            invariant k <= |t.track| && task == old(task) && jobs == old(jobs) && log == old(log)
            invariant i == |Openings(task, order[..a], id)| + |OpenParts(f, t.track[..k])| <= pick
          {
            OpenPartsStep(f, t.track, k);
            if t.track[k] == 0 {
              if i < pick {
                i := i + 1;
              } else {
                OpeningAt(task, order, id, a, k);
                var job := Assigned(f, id, |t.track|, k, now);
                GiveKeeps(log, task, jobs, numFinished, job);
                MarkKeepsZeroPart(task, f, k, 1);
                jobs := jobs + [job];
                log := log + [Given(Part(f, k), id)];
                task := task[f := t.(track := t.track[k := 1])];
                return [File(f, |t.track|, k)];
              }
            }
            k := k + 1;
          }
        }
        a := a + 1;
      }
      return [];
    }

    /** The first pass of a shuffled GetOne. */
    method CountOpenings(id: string, order: seq<string>) returns (n: nat)
      requires forall f :: f in order ==> f in task
      ensures n == |Openings(task, order, id)|
    {
      hide Openings, OpenParts;
      n := 0;
      var a := 0;
      Ends(task, order, id);
      while a < |order|
        invariant a <= |order|
        invariant n == |Openings(task, order[..a], id)|
      {
        var f := order[a];
        var t := task[f];
        OpeningsStep(task, order, id, a);
        if Eligible(t, id) {
          var k := 0;
          TrackEnds(f, t.track);
          while k < |t.track|
            invariant k <= |t.track|
            invariant n == |Openings(task, order[..a], id)| + |OpenParts(f, t.track[..k])|
          {
            OpenPartsStep(f, t.track, k);
            if t.track[k] == 0 {
              n := n + 1;
            }
            k := k + 1;
          }
        }
        a := a + 1;
      }
    }

    /** The outcome of one assigned part: 0 puts it back, 2 counts it done. */
    method Mark(f: string, k: nat, mark: nat)
      requires f in task ==> k < |task[f].track|
      modifies this`task, this`numFinished
      ensures task == Marked(old(task), f, k, mark)
      ensures numFinished == old(numFinished)
                + if f in old(task) && mark == 2 && old(task)[f].track[k] != 2 then 1 else 0
    {
      if f !in task {
        return;
      }
      var t := task[f];
      if mark == 2 && t.track[k] != 2 {
        numFinished := numFinished + 1;
        t := t.(done := t.done + 1);
      }
      t := t.(track := t.track[k := mark]);
      task := task[f := t];
      if t.done == |t.track| {
        task := task - {f};
      }
    }

    /** Ends job number i: marks its part and erases it from the list. */
    method EndJob(i: nat, finished: bool)
      requires Valid() && i < |jobs|
      modifies this`task, this`jobs, this`numFinished, this`log
      ensures Valid()
      ensures jobs == Drop(old(jobs), i)
      ensures log == old(log) + [Outcome(old(jobs)[i], finished)]
      ensures task == Marked(old(task), old(jobs)[i].filename, old(jobs)[i].k, if finished then 2 else 0)
    {
      hide Consistent, Outcome, Marked;
      EndKeeps(log, task, jobs, numFinished, i, finished);
      log := log + [Outcome(jobs[i], finished)];
      Mark(jobs[i].filename, jobs[i].k, if finished then 2 else 0);
      jobs := jobs[..i] + jobs[i + 1..];
    }

    /** Takes back the chosen jobs, in list order. */
    method TakeBack(chosen: Assigned -> bool, finished: bool, now: real)
      requires Valid()
      modifies this`task, this`jobs, this`numFinished, this`log, this`time
      ensures Valid()
      ensures jobs == Kept(old(jobs), chosen)
      ensures log == old(log) + Outcomes(Taken(old(jobs), chosen), finished)
      ensures time == old(time) + if finished then Spent(Taken(old(jobs), chosen), now) else []
      ensures SameNodes(old(task), task) && ZeroPart(task) == ZeroPart(old(task))
    {
      hide Consistent, Outcome, Drop, JobsAt, LogAt, TimeAt, SameNodes, Marked, ZeroPart, Kept, Taken, Outcomes, Spent;
      NodesUnchanged(task);
      ghost var jobs0, c := jobs, 0;
      var i := 0;
      TakeEnds(jobs0, log, time, chosen, finished, now);
      while i < |jobs|
        invariant Valid() && c <= |jobs0| && |jobs| - i == |jobs0| - c
        invariant jobs == JobsAt(jobs0, c, chosen) && log == LogAt(old(log), jobs0, c, chosen, finished)
        invariant time == TimeAt(old(time), jobs0, c, chosen, finished, now)
        invariant SameNodes(old(task), task) && ZeroPart(task) == ZeroPart(old(task))
        decreases |jobs0| - c
      {
        var job := jobs[i];
        TakeStep(jobs0, c, old(log), old(time), chosen, finished, now);
        if chosen(job) {
          if finished {
            time := time + [now - job.start];
          }
          MarkKeepsZeroPart(task, job.filename, job.k, if finished then 2 else 0);
          MarkKeepsNodes(old(task), task, job.filename, job.k, if finished then 2 else 0);
          EndJob(i, finished);
        } else {
          i := i + 1;
        }
        c := c + 1;
      }
    }

    /** A node finished everything it holds, or died: its jobs end, all others stay. */
    method Set(id: string, finished: bool, now: real)
      requires Valid()
      modifies this`task, this`jobs, this`numFinished, this`log, this`time
      ensures Valid()
      ensures jobs == Kept(old(jobs), OfNode(id))
      ensures log == old(log) + Outcomes(Taken(old(jobs), OfNode(id)), finished)
      ensures time == old(time) + if finished then Spent(Taken(old(jobs), OfNode(id)), now) else []
      ensures SameNodes(old(task), task) && ZeroPart(task) == ZeroPart(old(task))
      ensures LeftBy(id, old(jobs), jobs)
      ensures old(log) <= log && |log| - |old(log)| == |old(jobs)| - |jobs|
      ensures forall e :: e in log[|old(log)|..] ==>
                if finished then e.Finished? && e.node == id else e.Revoked? && e.node == id
      ensures old(time) <= time && (finished ==> Timed(id, old(jobs), jobs, now, time[|old(time)|..]))
    {
      ghost var gone := Taken(jobs, OfNode(id));
      KeptInOrder(jobs, OfNode(id));
      OutcomesExact(gone, finished);
      KeptOthers(jobs, id);
      SpentTimed(jobs, id, now);
      hide Kept, Taken, Outcomes, Spent, LeftBy, Timed;
      TakeBack(OfNode(id), finished, now);
      assert log[|old(log)|..] == Outcomes(gone, finished);
      assert finished ==> time[|old(time)|..] == Spent(gone, now);
    }

    /** The periodic sweep: with ten finished jobs on record, the jobs that straggle go back. */
    method RemoveStraggler(now: real)
      requires Valid()
      modifies this`task, this`jobs, this`numFinished, this`log, this`time
      ensures Valid() && time == old(time) && SameNodes(old(task), task) && ZeroPart(task) == ZeroPart(old(task))
      ensures |time| < 10 ==> jobs == old(jobs) && log == old(log)
      ensures |time| >= 10 ==>
                && jobs == Kept(old(jobs), Late(time, now))
                && log == old(log) + Outcomes(Taken(old(jobs), Late(time, now)), false)
      ensures |time| >= 10 ==> Swept(time, now, old(jobs), jobs)
    {
      hide Kept, Taken, Outcomes, Swept;
      if |time| < 10 {
        return;
      }
      KeptInTime(jobs, time, now);
      var mean, j := 0.0, 0;
      while j < |time|
        invariant j <= |time| && mean == Sum(time[..j])
      {
        assert time[..j + 1][..j] == time[..j];
        mean := mean + time[j];
        j := j + 1;
      }
      assert time[..|time|] == time;
      mean := mean / (|time| as real);
      TakeBack(LateFor(mean, now), false, now);
    }

    /** Says whether everything that was added is done. */
    method IsFinished() returns (r: bool)
      requires Valid()
      ensures r <==> inited && AllPartsDone(log) && NoEmptyFile(task)
    {
      r := inited && task == map[] && jobs == [];
      FinishedIff(Board(log), task, jobs);
    }

    /** The names of the table, in the order in which it happens to be walked. */
    method Walk() returns (order: seq<string>)
      ensures NoRepeats(order) && forall f :: f in order <==> f in task
    {
      order := [];
      var todo := task.Keys;
      while todo != {}
        invariant todo <= task.Keys && NoRepeats(order)
        invariant forall f :: f in order <==> f in task && f !in todo
      {
        var f: string :| f in todo;
        order := order + [f];
        todo := todo - {f};
      }
    }

    /** One call from outside; a registration with a part count that differs aborts. */
    method Serve(call: Call) returns (ok: bool)
      requires Valid()
      modifies this
      ensures ok ==> Valid()
      ensures ok ==> forall f :: f in ZeroPart(old(task)) && !Reopens(call, f) ==> f in ZeroPart(task)
    {
      hide Consistent, ZeroPart, Openings, Kept, Taken, Outcomes, Spent;
      ok := true;
      match call
      case Register(files, npart, id) => ok := Add(files, npart, id);
      case Get(id, rnd, now) =>
        var order := Walk();
        var wl := GetOne(id, order, rnd, now);
      case Ended(id, finished, now) => Set(id, finished, now);
      case Sweep(now) => RemoveStraggler(now);
    }

    /**
     * Any sequence of calls: while a file without parts is registered and not
     * registered again with a positive count, the pool does not finish.
     */
    method ServeAll(calls: seq<Call>) returns (ok: bool, finished: bool)
      requires Valid()
      modifies this
      ensures ok ==> Valid()
      ensures ok && (exists f :: f in ZeroPart(old(task)) && NeverReopened(calls, f)) ==> !finished
    {
      hide Consistent, ZeroPart, AllPartsDone;
      ok, finished := true, false;
      for i := 0 to |calls|
        invariant Valid()
        invariant forall f :: f in ZeroPart(old(task)) && NeverReopened(calls, f) ==> f in ZeroPart(task)
      {
        ok := Serve(calls[i]);
        if !ok {
          return;
        }
      }
      finished := IsFinished();
      StaysOpen(task);
    }

    /** Registered again with one part, handed out and finished, the file does leave the table. */
    method Reopened(f: string, id: string, now: real) returns (finished: bool)
      requires Valid() && inited && task.Keys == {f} && task[f].track == [] && jobs == []
      requires task[f].node == {} || id in task[f].node
      modifies this
      ensures finished
    {
      hide Consistent, ZeroPart, Kept, Taken, Outcomes, Spent, AllPartsDone, NoEmptyFile, SameNodes;
      ghost var log0 := log;
      OthersDone(log, task, jobs, numFinished, f);
      HandOut(f, id, now);
      ghost var job := jobs[0];
      OneTaken(job, id, now);
      Set(id, true, now);
      LogOfOne(log0, f, id);
      StaysOpen(task);
      finished := IsFinished();
    }

    /** Registers the file with one part and gives it to the node. */
    method HandOut(f: string, id: string, now: real)
      requires Valid() && inited && task.Keys == {f} && task[f].track == [] && jobs == []
      requires task[f].node == {} || id in task[f].node
      modifies this`task, this`log, this`jobs
      ensures Valid() && jobs == [Assigned(f, id, 1, 0, now)] && ZeroPart(task) == {}
      ensures log == old(log) + [Opened(f, 1)] + [Given(Part(f, 0), id)]
    {
      hide Consistent, Openings, Marked;
      var ok := AddFile(f, 1, "");
      assert task.Keys == {f} && task[f].track == [0];
      assert ZeroPart(task) == {};
      hide ZeroPart;
      NoneDoneYet(log, task, jobs, numFinished, f);
      OpeningsOne(task, f, id);
      var wl := GetOne(id, [f], 0, now);
    }
  }

  lemma OthersDone(log: seq<Event>, task: map<string, Task>, jobs: seq<Assigned>, nf: nat, f: string)
    requires Consistent(log, task, jobs, nf) && task.Keys == {f}
    ensures forall p :: p in Board(log) && p.file != f ==> Board(log)[p].Done?
  {
    hide Board;
    forall p | p in Board(log) && p.file != f
      ensures Board(log)[p].Done?
    {
      assert p.file !in task.Keys;
    }
  }

  lemma NoneDoneYet(log: seq<Event>, task: map<string, Task>, jobs: seq<Assigned>, nf: nat, f: string)
    requires Consistent(log, task, jobs, nf) && f in task && |task[f].track| == 1
    ensures task[f].done == 0
  {
    assert TaskShows(Board(log), f, task[f]);
  }

  /** A call from outside. */
  datatype Call =
    | Register(files: seq<string>, npart: nat, id: string)
    | Get(id: string, rnd: nat, now: real)
    | Ended(id: string, finished: bool, now: real)
    | Sweep(now: real)

  /** The call registers the file with a positive number of parts. */
  predicate Reopens(call: Call, f: string) {
    call.Register? && f in call.files && call.npart > 0
  }

  ghost predicate NeverReopened(calls: seq<Call>, f: string) {
    forall i :: 0 <= i < |calls| ==> !Reopens(calls[i], f)
  }

  lemma StaysOpen(task: map<string, Task>)
    ensures NoEmptyFile(task) <==> ZeroPart(task) == {}
  {
    if ZeroPart(task) == {} {
      forall f | f in task
        ensures task[f].track != []
      {
        assert f !in ZeroPart(task);
      }
    }
  }

  lemma OpeningsOne(task: map<string, Task>, f: string, id: string)
    requires f in task && task[f].track == [0] && task[f].done == 0 && (task[f].node == {} || id in task[f].node)
    ensures Openings(task, [f], id) == [Part(f, 0)] && NoRepeats([f])
  {
    assert [f][..0] == [] && [0][..0] == [];
    assert OpenParts(f, [0]) == [Part(f, 0)];
  }

  lemma OneTaken(job: Assigned, id: string, now: real)
    requires job.node == id
    ensures Kept([job], OfNode(id)) == [] && Taken([job], OfNode(id)) == [job]
    ensures Outcomes([job], true) == [Finished(PartOf(job), id)]
  {
    assert [job][..0] == [];
  }

  lemma LogOfOne(log: seq<Event>, f: string, id: string)
    requires forall p :: p in Board(log) && p.file != f ==> Board(log)[p].Done?
    ensures AllPartsDone(log + [Opened(f, 1)] + [Given(Part(f, 0), id)] + [Finished(Part(f, 0), id)])
  {
    var l1, l2 := log + [Opened(f, 1)], log + [Opened(f, 1)] + [Given(Part(f, 0), id)];
    Appended(log, Opened(f, 1));
    Appended(l1, Given(Part(f, 0), id));
    Appended(l2, Finished(Part(f, 0), id));
  }

  // ------------------------------------------------------------- over whole runs

  ghost predicate Touches(e: Event, p: Part) {
    match e
    case Opened(f, n) => f == p.file
    case _ => e.part == p
  }

  /** Between the two moments nothing happens to the part. */
  ghost predicate Quiet(log: seq<Event>, p: Part, i: nat, j: nat) {
    forall k :: i <= k < j && k < |log| ==> !Touches(log[k], p)
  }

  /** The node was given the part at moment i, and nothing happened to the part before moment j. */
  ghost predicate HeldBetween(log: seq<Event>, p: Part, node: string, i: nat, j: nat) {
    i < j <= |log| && log[i] == Given(p, node) && Quiet(log, p, i + 1, j)
  }

  lemma {:induction false} HeldWasGiven(log: seq<Event>, p: Part)
    requires Legal(log) && p in Board(log) && Board(log)[p].Held?
    ensures exists i: nat :: HeldBetween(log, p, Board(log)[p].node, i, |log|)
  {
    var last := |log| - 1;
    var before, e := log[..last], log[last];
    if Touches(e, p) {
      assert HeldBetween(log, p, Board(log)[p].node, last, |log|);
    } else {
      HeldWasGiven(before, p);
      var i: nat :| HeldBetween(before, p, Board(before)[p].node, i, |before|);
      assert HeldBetween(log, p, Board(log)[p].node, i, |log|);
    }
  }

  ghost predicate FinishedBy(log: seq<Event>, p: Part, node: string, i: nat, j: nat) {
    HeldBetween(log, p, node, i, j) && j < |log| && log[j] == Finished(p, node) && Quiet(log, p, j + 1, |log|)
  }

  /**
   * A part that counts as done was finished by a node that held it: the node
   * was given the part, the part was neither revoked nor given to another node
   * before that node finished it, and nothing happened to it since.
   */
  lemma {:induction false} DoneWasHeld(log: seq<Event>, p: Part)
    requires Legal(log) && p in Board(log) && Board(log)[p].Done?
    ensures exists i: nat, j: nat :: FinishedBy(log, p, Board(log)[p].node, i, j)
  {
    var last := |log| - 1;
    var before, e := log[..last], log[last];
    var node := Board(log)[p].node;
    if Touches(e, p) {
      HeldWasGiven(before, p);
      var i: nat :| HeldBetween(before, p, node, i, |before|);
      JustFinished(log, p, node, i);
    } else {
      DoneWasHeld(before, p);
      var i: nat, j: nat :| FinishedBy(before, p, node, i, j);
      StillFinished(log, p, node, i, j);
    }
  }

  lemma JustFinished(log: seq<Event>, p: Part, node: string, i: nat)
    requires log != [] && log[|log| - 1] == Finished(p, node)
    requires HeldBetween(log[..|log| - 1], p, node, i, |log| - 1)
    ensures FinishedBy(log, p, node, i, |log| - 1)
  {
  }

  lemma StillFinished(log: seq<Event>, p: Part, node: string, i: nat, j: nat)
    requires log != [] && !Touches(log[|log| - 1], p) && FinishedBy(log[..|log| - 1], p, node, i, j)
    ensures FinishedBy(log, p, node, i, j)
  {
  }

  ghost predicate OpenedOnce(log: seq<Event>) {
    forall i, j :: 0 <= i < j < |log| && log[i].Opened? && log[j].Opened? ==> log[i].file != log[j].file
  }

  ghost function DoneParts(b: map<Part, Status>): set<Part> {
    set p | p in b && b[p].Done?
  }

  lemma {:induction false} FileWasOpened(log: seq<Event>, p: Part)
    requires Legal(log) && p in Board(log)
    ensures exists i :: 0 <= i < |log| && log[i].Opened? && log[i].file == p.file
  {
    var last := |log| - 1;
    if log[last].Opened? && log[last].file == p.file {
    } else {
      FileWasOpened(log[..last], p);
      var i :| 0 <= i < last && log[..last][i].Opened? && log[..last][i].file == p.file;
      assert log[i] == log[..last][i];
    }
  }

  /** While no file is registered a second time, every done part has been counted exactly once. */
  lemma {:induction false} CountedOnce(log: seq<Event>)
    requires Legal(log) && OpenedOnce(log)
    ensures Finishes(log) == |DoneParts(Board(log))|
  {
    if log != [] {
      var last := |log| - 1;
      var before, e := log[..last], log[last];
      assert OpenedOnce(before) by {
        assert forall i :: 0 <= i < last ==> before[i] == log[i];
      }
      CountedOnce(before);
      var was, now := DoneParts(Board(before)), DoneParts(Board(log));
      match e
      case Opened(f, n) =>
        forall p | p in Board(before)
          ensures p.file != f
        {
          FileWasOpened(before, p);
          var i :| 0 <= i < last && before[i].Opened? && before[i].file == p.file;
          assert before[i] == log[i];
        }
        assert now == was;
      case Finished(p, _) =>
        assert now == was + {p} && p !in was;
      case _ =>
        assert now == was;
    } else {
      assert DoneParts(Board(log)) == {};
    }
  }

  /**
   * No part is lost: an available part is offered to every node allowed to have
   * it, a held part is one entry of the list, a done part is neither.
   */
  lemma NothingLost(log: seq<Event>, task: map<string, Task>, jobs: seq<Assigned>, nf: nat,
                    order: seq<string>, id: string, p: Part)
    requires Consistent(log, task, jobs, nf) && p in Board(log)
    requires NoRepeats(order) && (forall f :: f in order <==> f in task)
    ensures Board(log)[p] == Available ==> p.file in task
    ensures p in Openings(task, order, id) <==>
              Board(log)[p] == Available && (task[p.file].node == {} || id in task[p.file].node)
    ensures Board(log)[p].Held? <==> Listed(jobs, p)
    ensures forall i, j :: 0 <= i < |jobs| && 0 <= j < |jobs| && PartOf(jobs[i]) == PartOf(jobs[j]) == p ==>
              i == j && jobs[i].node == Board(log)[p].node
  {
    OpeningsExact(task, order, id);
    hide Openings, Board, Legal, DoneIn, NoRepeats;
    assert p == Part(p.file, p.k);
    if p.file in task {
      assert TaskShows(Board(log), p.file, task[p.file]);
      assert p.k < |task[p.file].track| && task[p.file].track[p.k] == Code(Board(log)[p]);
    }
  }
}
