/** The check scheduler: one dispatcher, W workers, a queue of 2W jobs, the in-flight set and cancellation, as an interleaving of atomic steps. */
module Scheduler {
  import opened Sets
  import DueChecks

  type CheckId = int

  /** What a worker goroutine is about to do; `late` remembers that the job was taken after cancellation. */
  datatype Worker =
    | Idle
    | Running(id: CheckId, late: bool)
    | Recording(id: CheckId)
    | Releasing(id: CheckId)
    | Exited
  {
    predicate Holds(check: CheckId) { !Idle? && !Exited? && id == check }

    function Rank(): nat {
      match this case Exited => 0 case Idle => 1 case Releasing(_) => 2 case Recording(_) => 3 case Running(_, _) => 4
    }
  }

  /** What the goroutine of Run is about to do. A dispatch remembers what it listed, how far it is, what it acquired and what was in flight when it began. */
  datatype Dispatcher =
    | Loading
    | Scanning(batch: Batch)
    | Sending(id: CheckId, batch: Batch)
    | Waiting
    | Joining
    | Returned
  {
    function Rank(): nat
      requires Scanning? || Sending? ==> batch.next <= |batch.listed|
    {
      match this
      case Loading => 3
      case Scanning(b) => 4 + 6 * (|b.listed| - b.next)
      case Sending(_, b) => 9 + 6 * (|b.listed| - b.next)
      case Waiting => 2
      case Joining => 1
      case Returned => 0
    }
  }

  datatype Batch = Batch(listed: seq<CheckId>, next: nat, taken: set<CheckId>, before: set<CheckId>)

  datatype Event =
    | Acquired(id: CheckId)
    | Aborted(id: CheckId)
    | Taken(worker: nat, id: CheckId, late: bool)
    | RecordBegun(worker: nat, id: CheckId)
    | RecordEnded(worker: nat, id: CheckId)
    | Released(worker: nat, id: CheckId)

  datatype State = State(
    cancelled: bool,
    closed: bool,
    inFlight: set<CheckId>,
    queue: seq<CheckId>,
    workers: seq<Worker>,
    dispatcher: Dispatcher,
    history: seq<Event>)

  /** The atomic steps. `List` carries what ListDue returned. */
  datatype Step =
    | Cancel
    | List(listed: seq<CheckId>)
    | ListFailed
    | Acquire
    | Skip
    | Send
    | Abort
    | EndDispatch
    | Tick
    | Close
    | Join
    | Take(worker: nat)
    | BeginRecord(worker: nat)
    | EndRecord(worker: nat)
    | Drop(worker: nat)
    | Release(worker: nat)
    | Exit(worker: nat)

  /** NewScheduler: fewer than one worker means four. */
  function WorkerCount(option: int): (w: nat)
    ensures w >= 1
  {
    if option < 1 then 4 else option
  }

  function Initial(w: nat): State {
    State(false, false, {}, [], seq(w, i => Idle), Loading, [])
  }

  predicate Distinct(s: seq<CheckId>) { forall i, j :: 0 <= i < j < |s| ==> s[i] != s[j] }

  predicate Enabled(s: State, step: Step) {
    match step
    case Cancel => !s.cancelled
    case List(listed) => s.dispatcher.Loading? && |listed| <= 4 * |s.workers| && Distinct(listed)
    case ListFailed => s.dispatcher.Loading?
    case Acquire => s.dispatcher.Scanning? && s.dispatcher.batch.next < |s.dispatcher.batch.listed|
                    && s.dispatcher.batch.listed[s.dispatcher.batch.next] !in s.inFlight
    case Skip => s.dispatcher.Scanning? && s.dispatcher.batch.next < |s.dispatcher.batch.listed|
                 && s.dispatcher.batch.listed[s.dispatcher.batch.next] in s.inFlight
    case Send => s.dispatcher.Sending? && |s.queue| < 2 * |s.workers|
    case Abort => s.dispatcher.Sending? && s.cancelled
    case EndDispatch => s.dispatcher.Scanning? && s.dispatcher.batch.next == |s.dispatcher.batch.listed|
    case Tick => s.dispatcher.Waiting?
    case Close => s.dispatcher.Waiting? && s.cancelled
    case Join => s.dispatcher.Joining? && forall w :: 0 <= w < |s.workers| ==> s.workers[w].Exited?
    case Take(w) => w < |s.workers| && s.workers[w].Idle? && s.queue != []
    case BeginRecord(w) => w < |s.workers| && s.workers[w].Running? && !s.cancelled
    case Drop(w) => w < |s.workers| && s.workers[w].Running? && s.cancelled
    case EndRecord(w) => w < |s.workers| && s.workers[w].Recording?
    case Release(w) => w < |s.workers| && s.workers[w].Releasing?
    case Exit(w) => w < |s.workers| && s.workers[w].Idle? && s.queue == [] && s.closed
  }

  function Apply(s: State, step: Step): State
    requires Enabled(s, step)
  {
    match step
    case Cancel => s.(cancelled := true)
    case List(listed) => s.(dispatcher := Scanning(Batch(listed, 0, {}, s.inFlight)))
    case ListFailed => s.(dispatcher := Waiting)
    case Acquire =>
      var b := s.dispatcher.batch;
      var id := b.listed[b.next];
      s.(inFlight := s.inFlight + {id}, dispatcher := Sending(id, b.(next := b.next + 1, taken := b.taken + {id})), history := s.history + [Acquired(id)])
    case Skip => s.(dispatcher := Scanning(s.dispatcher.batch.(next := s.dispatcher.batch.next + 1)))
    case Send => s.(queue := s.queue + [s.dispatcher.id], dispatcher := Scanning(s.dispatcher.batch))
    case Abort => s.(inFlight := s.inFlight - {s.dispatcher.id}, dispatcher := Waiting, history := s.history + [Aborted(s.dispatcher.id)])
    case EndDispatch => s.(dispatcher := Waiting)
    case Tick => s.(dispatcher := Loading)
    case Close => s.(closed := true, dispatcher := Joining)
    case Join => s.(dispatcher := Returned)
    case Take(w) =>
      s.(queue := s.queue[1..], workers := s.workers[w := Running(s.queue[0], s.cancelled)], history := s.history + [Taken(w, s.queue[0], s.cancelled)])
    case BeginRecord(w) =>
      s.(workers := s.workers[w := Recording(s.workers[w].id)], history := s.history + [RecordBegun(w, s.workers[w].id)])
    case Drop(w) => s.(workers := s.workers[w := Releasing(s.workers[w].id)])
    case EndRecord(w) =>
      s.(workers := s.workers[w := Releasing(s.workers[w].id)], history := s.history + [RecordEnded(w, s.workers[w].id)])
    case Release(w) =>
      s.(inFlight := s.inFlight - {s.workers[w].id}, workers := s.workers[w := Idle], history := s.history + [Released(w, s.workers[w].id)])
    case Exit(w) => s.(workers := s.workers[w := Exited])
  }

  // ---------- runs ----------

  /** A run of the scheduler: `states[i + 1]` follows `states[i]` by `steps[i]`. */
  ghost predicate Run(states: seq<State>, steps: seq<Step>) {
    && |states| == |steps| + 1
    && forall i :: 0 <= i < |steps| ==> Enabled(states[i], steps[i]) && states[i + 1] == Apply(states[i], steps[i])
  }

  ghost predicate Reachable(w: nat, s: State) {
    exists states, steps :: Run(states, steps) && states[0] == Initial(w) && states[|states| - 1] == s
  }

  // ---------- what the in-flight set is ----------

  /** How many workers hold a check. */
  function HeldBy(workers: seq<Worker>, id: CheckId): nat {
    if workers == [] then 0 else (if workers[0].Holds(id) then 1 else 0) + HeldBy(workers[1..], id)
  }

  /** How often a check is queued, held by a worker, or held by the dispatcher between acquire and send. */
  function Owners(s: State, id: CheckId): nat {
    multiset(s.queue)[id] + HeldBy(s.workers, id) + (if s.dispatcher.Sending? && s.dispatcher.id == id then 1 else 0)
  }

  lemma {:induction false} HeldAfterUpdate(workers: seq<Worker>, w: nat, x: Worker, id: CheckId)
    requires w < |workers|
    ensures HeldBy(workers[w := x], id) + (if workers[w].Holds(id) then 1 else 0)
         == HeldBy(workers, id) + (if x.Holds(id) then 1 else 0)
  {
    var updated := workers[w := x];
    if w == 0 {
      assert updated[1..] == workers[1..];
    } else {
      assert updated[1..] == workers[1..][w - 1 := x] && updated[0] == workers[0];
      HeldAfterUpdate(workers[1..], w - 1, x, id);
    }
  }

  lemma {:induction false} HeldContains(workers: seq<Worker>, w: nat, id: CheckId)
    requires w < |workers| && workers[w].Holds(id)
    ensures HeldBy(workers, id) >= 1
  {
    if w > 0 {
      HeldContains(workers[1..], w - 1, id);
    }
  }

  lemma {:induction false} HeldBySome(workers: seq<Worker>, id: CheckId) returns (w: nat)
    requires HeldBy(workers, id) >= 1
    ensures w < |workers| && workers[w].Holds(id)
  {
    if workers[0].Holds(id) {
      w := 0;
    } else {
      w := HeldBySome(workers[1..], id);
      w := w + 1;
    }
  }

  lemma {:induction false} HeldTwice(workers: seq<Worker>, i: nat, j: nat, id: CheckId)
    requires i < j < |workers| && workers[i].Holds(id) && workers[j].Holds(id)
    ensures HeldBy(workers, id) >= 2
  {
    if i == 0 {
      HeldContains(workers[1..], j - 1, id);
    } else {
      HeldTwice(workers[1..], i - 1, j - 1, id);
    }
  }

  lemma {:induction false} NobodyHolds(workers: seq<Worker>, id: CheckId)
    requires forall w :: 0 <= w < |workers| ==> !workers[w].Holds(id)
    ensures HeldBy(workers, id) == 0
  {
    if workers != [] {
      NobodyHolds(workers[1..], id);
    }
  }

  // ---------- the history of one check ----------

  /** Where a check stands, told from the history alone. */
  datatype Phase =
    | Free
    | Claimed
    | OnWorker(worker: nat, late: bool)
    | BeingRecorded(worker: nat)
    | Recorded(worker: nat)
    | Broken

  /** The only order in which the events of one check may follow each other. */
  function Advance(p: Phase, id: CheckId, e: Event): Phase {
    if e.id != id then p
    else
      match e
      case Acquired(_) => if p.Free? then Claimed else Broken
      case Aborted(_) => if p.Claimed? then Free else Broken
      case Taken(w, _, late) => if p.Claimed? then OnWorker(w, late) else Broken
      case RecordBegun(w, _) => if p == OnWorker(w, false) then BeingRecorded(w) else Broken
      case RecordEnded(w, _) => if p == BeingRecorded(w) then Recorded(w) else Broken
      case Released(w, _) => if (p.OnWorker? && p.worker == w) || p == Recorded(w) then Free else Broken
  }

  function PhaseOf(history: seq<Event>, id: CheckId): Phase {
    if history == [] then Free
    else Advance(PhaseOf(history[..|history| - 1], id), id, history[|history| - 1])
  }

  /** An event moves its own check and no other. */
  lemma PhasesAfter(history: seq<Event>, e: Event)
    ensures PhaseOf(history + [e], e.id) == Advance(PhaseOf(history, e.id), e.id, e)
    ensures forall id :: id != e.id ==> PhaseOf(history + [e], id) == PhaseOf(history, id)
  {
    assert (history + [e])[..|history|] == history;
  }

  /** The phase told by the history of the check a worker holds. */
  ghost predicate WorkerPhase(s: State, w: nat)
    requires w < |s.workers|
  {
    match s.workers[w]
    case Running(id, late) => PhaseOf(s.history, id) == OnWorker(w, late)
    case Recording(id) => PhaseOf(s.history, id) == BeingRecorded(w)
    case Releasing(id) =>
      PhaseOf(s.history, id) == Recorded(w) || (s.cancelled && PhaseOf(s.history, id).OnWorker? && PhaseOf(s.history, id).worker == w)
    case _ => true
  }

  // ---------- the invariant ----------

  /** Every check in flight has exactly one owner, and every other check has none. */
  ghost predicate Ownership(s: State) {
    forall id :: Owners(s, id) == if id in s.inFlight then 1 else 0
  }

  ghost predicate Histories(s: State) {
    && (forall id :: id !in s.inFlight ==> PhaseOf(s.history, id) == Free)
    && (forall i :: 0 <= i < |s.queue| ==> PhaseOf(s.history, s.queue[i]) == Claimed)
    && (s.dispatcher.Sending? ==> PhaseOf(s.history, s.dispatcher.id) == Claimed)
    && (forall w :: 0 <= w < |s.workers| ==> WorkerPhase(s, w))
  }

  ghost predicate Shape(s: State, w: nat) {
    && |s.workers| == w
    && |s.queue| <= 2 * w
    && (s.closed <==> s.dispatcher.Joining? || s.dispatcher.Returned?)
    && (s.closed ==> s.cancelled)
    && (forall i :: 0 <= i < w && s.workers[i].Exited? ==> s.closed && s.queue == [])
    && (s.dispatcher.Returned? ==> forall i :: 0 <= i < w ==> s.workers[i].Exited?)
    && (forall i :: 0 <= i < w && s.workers[i].Running? && s.workers[i].late ==> s.cancelled)
  }

  /** What a dispatch has done so far with the list it works through. */
  ghost predicate BatchSound(s: State) {
    (s.dispatcher.Scanning? || s.dispatcher.Sending?) ==>
      var b := s.dispatcher.batch;
      && b.next <= |b.listed| && Distinct(b.listed)
      && |b.before| <= 3 * |s.workers|
      && (forall i :: b.next <= i < |b.listed| && b.listed[i] in s.inFlight ==> b.listed[i] in b.before)
      && (forall i :: 0 <= i < b.next ==> b.listed[i] in b.taken || b.listed[i] in b.before)
      && (forall id :: id in b.taken ==> id in b.listed[..b.next])
  }

  /** Without cancellation no event gives a job up: none is aborted, none is taken late, none is released unrecorded. */
  ghost predicate Keeps(h: seq<Event>, j: nat)
    requires j < |h|
  {
    match h[j]
    case Aborted(_) => false
    case Taken(_, _, late) => !late
    case Released(v, id) => PhaseOf(h[..j], id) == Recorded(v)
    case _ => true
  }

  ghost predicate NothingLost(s: State) {
    !s.cancelled ==> forall j :: 0 <= j < |s.history| ==> Keeps(s.history, j)
  }

  ghost predicate Inv(s: State, w: nat) {
    Shape(s, w) && Ownership(s) && Histories(s) && BatchSound(s) && NothingLost(s)
  }

  // ---------- every check has one owner ----------

  /** A check on a worker is in flight, and nowhere else. */
  lemma OnOneWorkerOnly(s: State, w: nat, id: CheckId)
    requires Ownership(s) && w < |s.workers| && s.workers[w].Holds(id)
    ensures id in s.inFlight && id !in s.queue && !(s.dispatcher.Sending? && s.dispatcher.id == id)
    ensures forall v :: 0 <= v < |s.workers| && v != w ==> !s.workers[v].Holds(id)
  {
    HeldContains(s.workers, w, id);
    assert Owners(s, id) <= 1;
    forall v | 0 <= v < |s.workers| && v != w ensures !s.workers[v].Holds(id) {
      if s.workers[v].Holds(id) {
        HeldTwice(s.workers, if v < w then v else w, if v < w then w else v, id);
      }
    }
  }

  /** A check held by nobody's worker hands, whatever the reason. */
  lemma NotOnWorkers(s: State, id: CheckId)
    requires HeldBy(s.workers, id) == 0
    ensures forall v :: 0 <= v < |s.workers| ==> !s.workers[v].Holds(id)
  {
    forall v | 0 <= v < |s.workers| ensures !s.workers[v].Holds(id) {
      if s.workers[v].Holds(id) {
        HeldContains(s.workers, v, id);
      }
    }
  }

  /** A queued check is in flight, queued once, and nowhere else. */
  lemma QueuedOnce(s: State, i: nat)
    requires Ownership(s) && i < |s.queue|
    ensures s.queue[i] in s.inFlight && !(s.dispatcher.Sending? && s.dispatcher.id == s.queue[i])
    ensures forall j :: 0 <= j < |s.queue| && j != i ==> s.queue[j] != s.queue[i]
    ensures forall v :: 0 <= v < |s.workers| ==> !s.workers[v].Holds(s.queue[i])
  {
    var id := s.queue[i];
    assert Owners(s, id) <= 1;
    assert s.queue == s.queue[..i] + [id] + s.queue[i + 1..];
    forall j | 0 <= j < |s.queue| && j != i ensures s.queue[j] != id {
      assert s.queue[j] in s.queue[..i] || s.queue[j] in s.queue[i + 1..];
    }
    NotOnWorkers(s, id);
  }

  /** The check between acquire and send is in flight, and nowhere else. */
  lemma SentFromOnePlace(s: State)
    requires Ownership(s) && s.dispatcher.Sending?
    ensures s.dispatcher.id in s.inFlight && s.dispatcher.id !in s.queue
    ensures forall v :: 0 <= v < |s.workers| ==> !s.workers[v].Holds(s.dispatcher.id)
  {
    assert Owners(s, s.dispatcher.id) <= 1;
    NotOnWorkers(s, s.dispatcher.id);
  }

  // ---------- preservation ----------

  lemma InitialHolds(w: nat)
    ensures Inv(Initial(w), w)
  {
    forall id ensures Owners(Initial(w), id) == 0 {
      NobodyHolds(Initial(w).workers, id);
    }
  }

  lemma ShapeStep(s: State, step: Step, w: nat)
    requires Shape(s, w) && Enabled(s, step)
    ensures Shape(Apply(s, step), w)
  {
  }

  /** A worker's step moves its check from the queue to its hand, keeps it there, or lets it go. */
  lemma OwnersOfWorkerStep(s: State, step: Step, w: nat, id: CheckId)
    requires Enabled(s, step) && step in {Take(w), BeginRecord(w), EndRecord(w), Drop(w), Release(w), Exit(w)}
    ensures Owners(Apply(s, step), id) + (if step.Release? && s.workers[w].id == id then 1 else 0) == Owners(s, id)
  {
    hide HeldBy;
    var t := Apply(s, step);
    HeldAfterUpdate(s.workers, w, t.workers[w], id);
    if step.Take? {
      assert s.queue == [s.queue[0]] + t.queue;
    } else {
      assert s.queue == t.queue;
    }
  }

  lemma OwnershipOfWorker(s: State, step: Step, w: nat)
    requires Ownership(s) && Enabled(s, step)
    requires step in {Take(w), BeginRecord(w), EndRecord(w), Drop(w), Release(w), Exit(w)}
    ensures Ownership(Apply(s, step))
  {
    hide Owners, HeldBy;
    var t := Apply(s, step);
    if step.Release? {
      OnOneWorkerOnly(s, w, s.workers[w].id);
    }
    forall id ensures Owners(t, id) == if id in t.inFlight then 1 else 0 {
      assert Owners(s, id) == if id in s.inFlight then 1 else 0;
      OwnersOfWorkerStep(s, step, w, id);
    }
  }

  lemma OwnershipOfDispatcher(s: State, step: Step)
    requires Ownership(s) && Enabled(s, step)
    requires !(step.Take? || step.BeginRecord? || step.EndRecord? || step.Drop? || step.Release? || step.Exit?)
    ensures Ownership(Apply(s, step))
  {
    var t := Apply(s, step);
    forall id ensures Owners(t, id) == if id in t.inFlight then 1 else 0 {
      assert Owners(s, id) == if id in s.inFlight then 1 else 0;
    }
  }

  lemma OwnershipStep(s: State, step: Step)
    requires Ownership(s) && Enabled(s, step)
    ensures Ownership(Apply(s, step))
  {
    match step
    case Take(w) => OwnershipOfWorker(s, step, w);
    case BeginRecord(w) => OwnershipOfWorker(s, step, w);
    case EndRecord(w) => OwnershipOfWorker(s, step, w);
    case Drop(w) => OwnershipOfWorker(s, step, w);
    case Release(w) => OwnershipOfWorker(s, step, w);
    case Exit(w) => OwnershipOfWorker(s, step, w);
    case _ => OwnershipOfDispatcher(s, step);
  }

  /** A worker that does not hold the check of an event keeps its phase. */
  lemma OtherWorkersKeepPhase(s: State, t: State, e: Event, v: nat)
    requires v < |s.workers| == |t.workers| && t.workers[v] == s.workers[v] && t.history == s.history + [e] && t.cancelled == s.cancelled
    requires !s.workers[v].Holds(e.id) && WorkerPhase(s, v)
    ensures WorkerPhase(t, v)
  {
    PhasesAfter(s.history, e);
  }

  lemma HistoriesOfWorker(s: State, step: Step, w: nat)
    requires Shape(s, |s.workers|) && Ownership(s) && Histories(s) && Enabled(s, step)
    requires step == Take(w) || step == BeginRecord(w) || step == EndRecord(w) || step == Release(w)
    ensures Histories(Apply(s, step))
  {
    var t := Apply(s, step);
    var e := t.history[|s.history|];
    PhasesAfter(s.history, e);
    if step.Take? {
      QueuedOnce(s, 0);
    } else {
      OnOneWorkerOnly(s, w, e.id);
    }
    assert WorkerPhase(s, w);
    forall v | 0 <= v < |s.workers| ensures WorkerPhase(t, v) {
      if v != w {
        OtherWorkersKeepPhase(s, t, e, v);
      }
    }
  }

  lemma HistoriesOfDispatch(s: State, step: Step)
    requires Ownership(s) && Histories(s) && Enabled(s, step) && (step.Acquire? || step.Abort?)
    ensures Histories(Apply(s, step))
  {
    var t := Apply(s, step);
    var e := t.history[|s.history|];
    PhasesAfter(s.history, e);
    if step.Abort? {
      SentFromOnePlace(s);
    }
    forall v | 0 <= v < |s.workers| ensures WorkerPhase(t, v) {
      if s.workers[v].Holds(e.id) {
        OnOneWorkerOnly(s, v, e.id);
      } else {
        OtherWorkersKeepPhase(s, t, e, v);
      }
    }
    forall i | 0 <= i < |s.queue| ensures PhaseOf(t.history, s.queue[i]) == Claimed {
      QueuedOnce(s, i);
    }
  }

  lemma HistoriesStep(s: State, step: Step)
    requires Shape(s, |s.workers|) && Ownership(s) && Histories(s) && Enabled(s, step)
    ensures Histories(Apply(s, step))
  {
    match step
    case Take(w) => HistoriesOfWorker(s, step, w);
    case BeginRecord(w) => HistoriesOfWorker(s, step, w);
    case EndRecord(w) => HistoriesOfWorker(s, step, w);
    case Release(w) => HistoriesOfWorker(s, step, w);
    case Acquire => HistoriesOfDispatch(s, step);
    case Abort => HistoriesOfDispatch(s, step);
    case Drop(w) =>
      var t := Apply(s, step);
      forall v | 0 <= v < |s.workers| ensures WorkerPhase(t, v) { assert WorkerPhase(s, v); }
    case _ =>
      var t := Apply(s, step);
      forall v | 0 <= v < |s.workers| ensures WorkerPhase(t, v) { assert WorkerPhase(s, v); }
  }

  // ---------- nothing is given up ----------

  lemma KeepsInFront(h: seq<Event>, e: Event, j: nat)
    requires j < |h| && Keeps(h, j)
    ensures Keeps(h + [e], j)
  {
    assert (h + [e])[..j] == h[..j];
  }

  lemma NewEventKeeps(s: State, step: Step)
    requires Shape(s, |s.workers|) && Histories(s) && Enabled(s, step) && !s.cancelled
    requires |Apply(s, step).history| == |s.history| + 1
    ensures Keeps(Apply(s, step).history, |s.history|)
  {
    var t := Apply(s, step);
    assert t.history[..|s.history|] == s.history;
    if step.Release? {
      assert WorkerPhase(s, step.worker);
    }
  }

  lemma NothingLostStep(s: State, step: Step)
    requires Shape(s, |s.workers|) && Histories(s) && NothingLost(s) && Enabled(s, step)
    ensures NothingLost(Apply(s, step))
  {
    var t := Apply(s, step);
    if !t.cancelled {
      assert t.history == s.history || t.history == s.history + [t.history[|s.history|]];
      if t.history != s.history {
        NewEventKeeps(s, step);
      }
      hide Keeps, Enabled, Apply, Histories, Shape;
      forall j | 0 <= j < |t.history| ensures Keeps(t.history, j) {
        if j < |s.history| && t.history != s.history {
          KeepsInFront(s.history, t.history[|s.history|], j);
        }
      }
    }
  }

  // ---------- a dispatch and its list ----------

  function Held(workers: seq<Worker>): (ids: set<CheckId>)
    ensures |ids| <= |workers|
    ensures forall w :: 0 <= w < |workers| && !workers[w].Idle? && !workers[w].Exited? ==> workers[w].id in ids
  {
    if workers == [] then {}
    else Held(workers[1..]) + (if workers[0].Idle? || workers[0].Exited? then {} else {workers[0].id})
  }

  function Members(queue: seq<CheckId>): (ids: set<CheckId>)
    ensures |ids| <= |queue|
    ensures forall i :: 0 <= i < |queue| ==> queue[i] in ids
  {
    if queue == [] then {} else Members(queue[1..]) + {queue[0]}
  }

  /** At most one check for every place in the queue, every worker, and the dispatcher's hand. */
  lemma InFlightBound(s: State, w: nat)
    requires Shape(s, w) && Ownership(s)
    ensures |s.inFlight| <= 3 * w + (if s.dispatcher.Sending? then 1 else 0)
  {
    var hand := if s.dispatcher.Sending? then {s.dispatcher.id} else {};
    forall id | id in s.inFlight ensures id in Members(s.queue) + Held(s.workers) + hand {
      assert Owners(s, id) == 1;
      if HeldBy(s.workers, id) >= 1 {
        var v := HeldBySome(s.workers, id);
      }
    }
    SubsetSize(s.inFlight, Members(s.queue) + Held(s.workers) + hand);
  }

  lemma BatchOfScan(s: State, step: Step)
    requires BatchSound(s) && Enabled(s, step) && (step.Acquire? || step.Skip?)
    ensures BatchSound(Apply(s, step))
  {
    var b := s.dispatcher.batch;
    assert b.listed[..b.next + 1] == b.listed[..b.next] + [b.listed[b.next]];
  }

  lemma BatchStep(s: State, step: Step, w: nat)
    requires Shape(s, w) && Ownership(s) && BatchSound(s) && Enabled(s, step)
    ensures BatchSound(Apply(s, step))
  {
    match step
    case Acquire => BatchOfScan(s, step);
    case Skip => BatchOfScan(s, step);
    case List(_) => InFlightBound(s, w);
    case _ =>
  }

  // ---------- every reachable state ----------

  lemma InvStep(s: State, step: Step, w: nat)
    requires Inv(s, w) && Enabled(s, step)
    ensures Inv(Apply(s, step), w)
  {
    ShapeStep(s, step, w);
    OwnershipStep(s, step);
    HistoriesStep(s, step);
    BatchStep(s, step, w);
    NothingLostStep(s, step);
  }

  lemma {:induction false} RunKeepsInv(states: seq<State>, steps: seq<Step>, w: nat)
    requires Run(states, steps) && Inv(states[0], w)
    ensures Inv(states[|states| - 1], w)
  {
    if steps != [] {
      InvStep(states[0], steps[0], w);
      RunKeepsInv(states[1..], steps[1..], w);
    }
  }

  lemma ReachableInv(w: nat, s: State)
    requires Reachable(w, s)
    ensures Inv(s, w)
  {
    var states, steps :| Run(states, steps) && states[0] == Initial(w) && states[|states| - 1] == s;
    InitialHolds(w);
    RunKeepsInv(states, steps, w);
  }

  /** In every reachable state each check in flight sits in exactly one place, and the places bound how many there are. */
  lemma OnePlaceEach(w: nat, s: State)
    requires Reachable(w, s)
    ensures forall id :: Owners(s, id) == if id in s.inFlight then 1 else 0
    ensures forall i, j :: 0 <= i < j < |s.queue| ==> s.queue[i] != s.queue[j]
    ensures forall v, u, id :: 0 <= v < u < |s.workers| && s.workers[v].Holds(id) ==> !s.workers[u].Holds(id)
    ensures |s.queue| <= 2 * w && |s.inFlight| <= 3 * w + 1
  {
    ReachableInv(w, s);
    InFlightBound(s, w);
    forall i, j | 0 <= i < j < |s.queue| ensures s.queue[i] != s.queue[j] { QueuedOnce(s, i); }
    forall v, u, id | 0 <= v < u < |s.workers| && s.workers[v].Holds(id) ensures !s.workers[u].Holds(id) { OnOneWorkerOnly(s, v, id); }
  }

  /** The events of every check follow each other in the one allowed order. */
  lemma HistoriesNeverBreak(w: nat, s: State, id: CheckId)
    requires Reachable(w, s)
    ensures PhaseOf(s.history, id) != Broken
  {
    ReachableInv(w, s);
    if id in s.inFlight {
      assert Owners(s, id) == 1;
      if HeldBy(s.workers, id) >= 1 {
        var v := HeldBySome(s.workers, id);
        assert WorkerPhase(s, v);
      }
    }
  }

  // ---------- runs of one check do not overlap ----------

  lemma {:induction false} BrokenForGood(h: seq<Event>, k: nat, id: CheckId)
    requires k <= |h| && PhaseOf(h, id) != Broken
    ensures PhaseOf(h[..k], id) != Broken
  {
    if k < |h| {
      assert h[..|h| - 1][..k] == h[..k];
      BrokenForGood(h[..|h| - 1], k, id);
    } else {
      assert h[..k] == h;
    }
  }

  lemma PhaseStep(h: seq<Event>, k: nat, id: CheckId)
    requires k < |h|
    ensures PhaseOf(h[..k + 1], id) == Advance(PhaseOf(h[..k], id), id, h[k])
  {
    assert h[..k + 1][..k] == h[..k];
  }

  /** The next event of a check before position `b`, when its phase changes by then. */
  lemma {:induction false} NextEvent(h: seq<Event>, id: CheckId, a: nat, b: nat) returns (k: nat)
    requires a <= b <= |h| && PhaseOf(h[..a], id) != PhaseOf(h[..b], id)
    ensures a <= k < b && h[k].id == id && forall n :: a <= n < k ==> h[n].id != id
    ensures PhaseOf(h[..k], id) == PhaseOf(h[..a], id)
    ensures PhaseOf(h[..k + 1], id) == Advance(PhaseOf(h[..a], id), id, h[k])
    decreases b - a
  {
    PhaseStep(h, a, id);
    if h[a].id == id {
      k := a;
    } else {
      k := NextEvent(h, id, a + 1, b);
    }
  }

  /** What one worker does with a check it took at `taken`: one whole record attempt and then the release; or only the release, if the scheduler is cancelled. */
  ghost predicate OneRun(h: seq<Event>, taken: nat, released: nat, cancelled: bool)
    requires taken < released < |h| && h[taken].Taken?
  {
    var e := h[taken];
    && h[released] == Released(e.worker, e.id)
    && (((e.late || cancelled) && forall n :: taken < n < released ==> h[n].id != e.id)
        || (!e.late && exists begun, ended :: RecordAttempt(h, taken, begun, ended, released)))
  }

  ghost predicate RecordAttempt(h: seq<Event>, taken: nat, begun: nat, ended: nat, released: nat)
    requires taken < released < |h| && h[taken].Taken?
  {
    var e := h[taken];
    && taken < begun < ended < released
    && h[begun] == RecordBegun(e.worker, e.id) && h[ended] == RecordEnded(e.worker, e.id)
    && forall n :: taken < n < released && n != begun && n != ended ==> h[n].id != e.id
  }

  /** After a take, the events of the check up to the next claim are exactly one run. */
  lemma RunEndsBeforeNextClaim(h: seq<Event>, i: nat, j: nat, cancelled: bool) returns (released: nat)
    requires i < j <= |h| && h[i].Taken?
    requires forall k :: 0 <= k <= |h| ==> PhaseOf(h[..k], h[i].id) != Broken
    requires PhaseOf(h[..i + 1], h[i].id) == OnWorker(h[i].worker, h[i].late) && PhaseOf(h[..j], h[i].id) == Claimed
    requires !cancelled ==> forall k :: 0 <= k < |h| ==> Keeps(h, k)
    ensures i < released < j && OneRun(h, i, released, cancelled)
  {
    hide PhaseOf;
    var id := h[i].id;
    var first := NextEvent(h, id, i + 1, j);
    assert PhaseOf(h[..first + 1], id) != Broken;
    assert !cancelled ==> Keeps(h, first);
    if h[first].Released? {
      released := first;
    } else {
      var second := NextEvent(h, id, first + 1, j);
      assert PhaseOf(h[..second + 1], id) != Broken;
      released := NextEvent(h, id, second + 1, j);
      assert PhaseOf(h[..released + 1], id) != Broken;
      assert RecordAttempt(h, i, first, second, released);
    }
  }

  /** Whenever a check is taken twice, the first run has ended, record attempt included, before the second starts; without cancellation there was such an attempt, and a job taken after cancellation is never recorded. */
  lemma RunsDoNotOverlap(w: nat, s: State, i: nat, j: nat) returns (released: nat)
    requires Reachable(w, s) && i < j < |s.history|
    requires s.history[i].Taken? && s.history[j].Taken? && s.history[i].id == s.history[j].id
    ensures i < released < j && OneRun(s.history, i, released, s.cancelled)
  {
    ReachableInv(w, s);
    hide PhaseOf, OneRun, Reachable, Keeps, Shape, Ownership, Histories, BatchSound;
    var h, id := s.history, s.history[i].id;
    HistoriesNeverBreak(w, s, id);
    forall k | 0 <= k <= |h| ensures PhaseOf(h[..k], id) != Broken { BrokenForGood(h, k, id); }
    PhaseStep(h, i, id);
    PhaseStep(h, j, id);
    assert PhaseOf(h[..j + 1], id) != Broken && PhaseOf(h[..i + 1], id) != Broken;
    released := RunEndsBeforeNextClaim(h, i, j, s.cancelled);
  }

  /** The last event of a check that is not free. */
  lemma {:induction false} LastEvent(h: seq<Event>, id: CheckId) returns (k: nat)
    requires PhaseOf(h, id) != Free
    ensures k < |h| && h[k].id == id && forall n :: k < n < |h| ==> h[n].id != id
    ensures PhaseOf(h, id) == Advance(PhaseOf(h[..k], id), id, h[k])
  {
    k := |h| - 1;
    if h[k].id != id {
      var front := h[..k];
      k := LastEvent(front, id);
      assert front[..k] == h[..k];
    }
  }

  /** A check whose record attempt has ended was taken, and the attempt begun, in that order, with nothing of the check in between. */
  lemma RecordedWasTaken(h: seq<Event>, id: CheckId, v: nat) returns (taken: nat, begun: nat, ended: nat)
    requires PhaseOf(h, id) == Recorded(v)
    ensures taken < begun < ended < |h| && h[taken] == Taken(v, id, false) && h[begun] == RecordBegun(v, id) && h[ended] == RecordEnded(v, id)
    ensures forall n :: taken < n < |h| && n != begun && n != ended ==> h[n].id != id
  {
    hide PhaseOf;
    ended := LastEvent(h, id);
    begun := LastEvent(h[..ended], id);
    assert h[..ended][..begun] == h[..begun];
    taken := LastEvent(h[..begun], id);
  }

  /** Until the scheduler is cancelled no job is given up: nothing is aborted, and whatever a worker has released it had taken, and had recorded from beginning to end, since its last take. */
  lemma ReleasedWasRecorded(w: nat, s: State, j: nat) returns (taken: nat, begun: nat, ended: nat)
    requires Reachable(w, s) && !s.cancelled && j < |s.history|
    ensures !s.history[j].Aborted?
    ensures s.history[j].Released? ==>
              && taken < j && s.history[taken] == Taken(s.history[j].worker, s.history[j].id, false)
              && RecordAttempt(s.history, taken, begun, ended, j)
  {
    ReachableInv(w, s);
    taken, begun, ended := 0, 0, 0;
    assert Keeps(s.history, j);
    if s.history[j].Released? {
      hide Inv, PhaseOf;
      taken, begun, ended := RecordedWasTaken(s.history[..j], s.history[j].id, s.history[j].worker);
    }
  }

  lemma StepAppends(s: State, step: Step)
    requires Enabled(s, step)
    ensures var t := Apply(s, step);
            && s.history <= t.history && |t.history| <= |s.history| + 1 && (s.cancelled ==> t.cancelled)
            && (s.cancelled && |t.history| == |s.history| + 1 ==>
                  var e := t.history[|s.history|]; !e.RecordBegun? && (e.Taken? ==> e.late))
  {
  }

  /** Once the scheduler is cancelled no record attempt begins, and whatever is still taken is known to be late. */
  lemma {:induction false} NothingBeginsAfterCancellation(states: seq<State>, steps: seq<Step>, i: nat, k: nat)
    requires Run(states, steps) && i <= k < |states| && states[i].cancelled
    ensures states[k].cancelled && states[i].history <= states[k].history
    ensures forall j :: |states[i].history| <= j < |states[k].history| ==>
              !states[k].history[j].RecordBegun? && (states[k].history[j].Taken? ==> states[k].history[j].late)
  {
    hide Enabled, Apply;
    if i < k {
      NothingBeginsAfterCancellation(states, steps, i, k - 1);
      StepAppends(states[k - 1], steps[k - 1]);
    }
  }

  /** Nothing is recorded for a job that was taken after cancellation. */
  lemma LateJobsAreNotRecorded(w: nat, s: State, v: nat)
    requires Reachable(w, s) && v < |s.workers| && s.workers[v].Recording?
    ensures PhaseOf(s.history, s.workers[v].id) == BeingRecorded(v)
    ensures exists k :: 0 <= k < |s.history| && s.history[k] == Taken(v, s.workers[v].id, false)
  {
    ReachableInv(w, s);
    assert WorkerPhase(s, v);
    TakenInTime(s.history, s.workers[v].id, v);
  }

  lemma {:induction false} TakenInTime(h: seq<Event>, id: CheckId, v: nat)
    requires PhaseOf(h, id) == BeingRecorded(v) || PhaseOf(h, id) == OnWorker(v, false)
    ensures exists k :: 0 <= k < |h| && h[k] == Taken(v, id, false)
  {
    var front, e := h[..|h| - 1], h[|h| - 1];
    if e != Taken(v, id, false) {
      TakenInTime(front, id, v);
      var k :| 0 <= k < |front| && front[k] == Taken(v, id, false);
      assert h[k] == Taken(v, id, false);
    }
  }

  // ---------- termination ----------

  function WorkersRank(workers: seq<Worker>): nat {
    if workers == [] then 0 else workers[0].Rank() + WorkersRank(workers[1..])
  }

  function Rank(s: State): nat
    requires s.dispatcher.Scanning? || s.dispatcher.Sending? ==> s.dispatcher.batch.next <= |s.dispatcher.batch.listed|
  {
    WorkersRank(s.workers) + 4 * |s.queue| + s.dispatcher.Rank() + (if s.cancelled then 0 else 1)
  }

  lemma {:induction false} RankAfterUpdate(workers: seq<Worker>, w: nat, x: Worker)
    requires w < |workers|
    ensures WorkersRank(workers[w := x]) + workers[w].Rank() == WorkersRank(workers) + x.Rank()
  {
    var updated := workers[w := x];
    if w == 0 {
      assert updated[1..] == workers[1..];
    } else {
      assert updated[1..] == workers[1..][w - 1 := x] && updated[0] == workers[0];
      RankAfterUpdate(workers[1..], w - 1, x);
    }
  }

  /** Only a poll, by the ticker or by ListDue, can make more work: every other step brings the scheduler nearer to rest. */
  predicate IsPoll(step: Step) { step.Tick? || step.List? }

  lemma WorkerStepLowersRank(s: State, step: Step, v: nat)
    requires Enabled(s, step) && step in {Take(v), BeginRecord(v), EndRecord(v), Drop(v), Release(v), Exit(v)}
    ensures var t := Apply(s, step);
            && t.dispatcher == s.dispatcher && t.cancelled == s.cancelled
            && WorkersRank(t.workers) + 4 * |t.queue| < WorkersRank(s.workers) + 4 * |s.queue|
  {
    RankAfterUpdate(s.workers, v, Apply(s, step).workers[v]);
  }

  lemma StepLowersRank(s: State, step: Step, w: nat)
    requires Inv(s, w) && Enabled(s, step) && !IsPoll(step)
    ensures BatchSound(Apply(s, step)) && Rank(Apply(s, step)) < Rank(s)
  {
    BatchStep(s, step, w);
    hide Ownership, Histories, Shape;
    match step
    case Take(v) => WorkerStepLowersRank(s, step, v);
    case BeginRecord(v) => WorkerStepLowersRank(s, step, v);
    case EndRecord(v) => WorkerStepLowersRank(s, step, v);
    case Drop(v) => WorkerStepLowersRank(s, step, v);
    case Release(v) => WorkerStepLowersRank(s, step, v);
    case Exit(v) => WorkerStepLowersRank(s, step, v);
    case _ =>
  }

  /** Without a poll every run is finite: a dispatch in progress ends, however the workers interleave with it. */
  lemma {:induction false} RunsWithoutPollsAreShort(states: seq<State>, steps: seq<Step>, w: nat)
    requires Run(states, steps) && Inv(states[0], w)
    requires forall i :: 0 <= i < |steps| ==> !IsPoll(steps[i])
    ensures |steps| <= Rank(states[0])
  {
    if steps != [] {
      StepLowersRank(states[0], steps[0], w);
      InvStep(states[0], steps[0], w);
      RunsWithoutPollsAreShort(states[1..], steps[1..], w);
    }
  }

  /** Once Run has taken the Done branch there are no more polls and no more sends, so every continuation is finite. */
  lemma {:induction false} ShutdownTerminates(states: seq<State>, steps: seq<Step>, w: nat)
    requires Run(states, steps) && Inv(states[0], w) && states[0].closed
    ensures |steps| <= Rank(states[0])
    ensures forall i :: 0 <= i < |steps| ==> !steps[i].Send? && !steps[i].Acquire? && !steps[i].BeginRecord?
  {
    if steps != [] {
      StepLowersRank(states[0], steps[0], w);
      InvStep(states[0], steps[0], w);
      ShutdownTerminates(states[1..], steps[1..], w);
    }
  }

  /** Unless Run has returned, somebody can always take a step of work: there is no deadlock, before or after cancellation. */
  lemma SomebodyCanStep(w: nat, s: State) returns (step: Step)
    requires w >= 1 && Reachable(w, s) && !s.dispatcher.Returned?
    ensures Enabled(s, step) && !step.Cancel?
  {
    ReachableInv(w, s);
    if s.dispatcher.Loading? {
      return ListFailed;
    } else if s.dispatcher.Waiting? {
      return Tick;
    } else if s.dispatcher.Scanning? {
      var b := s.dispatcher.batch;
      return if b.next == |b.listed| then EndDispatch else if b.listed[b.next] in s.inFlight then Skip else Acquire;
    } else if s.dispatcher.Sending? && |s.queue| < 2 * w {
      return Send;
    } else if v :| 0 <= v < |s.workers| && !s.workers[v].Exited? {
      match s.workers[v]
      case Idle => return if s.queue != [] then Take(v) else Exit(v);
      case Running(_, _) => return if s.cancelled then Drop(v) else BeginRecord(v);
      case Recording(_) => return EndRecord(v);
      case Releasing(_) => return Release(v);
    } else {
      assert s.workers[0].Exited?;
      return Join;
    }
  }

  /** When Run returns nothing is queued, nothing is in flight and every worker has stopped. */
  lemma ReturnLeavesNothing(w: nat, s: State)
    requires w >= 1 && Reachable(w, s) && s.dispatcher.Returned?
    ensures s.queue == [] && s.inFlight == {} && forall v :: 0 <= v < |s.workers| ==> s.workers[v].Exited?
  {
    ReachableInv(w, s);
    assert s.workers[0].Exited?;
    forall id | id in s.inFlight ensures false {
      assert Owners(s, id) == 1;
      NobodyHolds(s.workers, id);
    }
  }

  // ---------- dispatch makes progress ----------

  lemma {:induction false} DistinctMembers(s: seq<CheckId>)
    requires Distinct(s)
    ensures |Members(s)| == |s| && forall id :: id in Members(s) <==> id in s
  {
    if s != [] {
      assert s == [s[0]] + s[1..];
      DistinctMembers(s[1..]);
    }
  }

  /** A dispatch that works through its whole list has acquired every listed check that was not in flight when it began, and at least W of a full list. */
  lemma FinishedDispatchAcquired(w: nat, s: State)
    requires Reachable(w, s) && Enabled(s, EndDispatch)
    ensures var b := s.dispatcher.batch;
            && (forall id :: id in b.listed && id !in b.before ==> id in b.taken)
            && (forall id :: id in b.taken ==> id in b.listed)
            && |b.before| <= 3 * w && (|b.listed| == 4 * w ==> |b.taken| >= w)
            && (w >= 1 && ((exists id :: id in b.listed && id !in b.before) || |b.listed| == 4 * w) ==> b.taken != {})
  {
    hide Reachable;
    ReachableInv(w, s);
    var b := s.dispatcher.batch;
    assert b.listed[..b.next] == b.listed;
    DistinctMembers(b.listed);
    forall id | id in Members(b.listed) ensures id in b.taken + b.before {
      assert id in b.listed;
      var i :| 0 <= i < |b.listed| && b.listed[i] == id;
    }
    SubsetSize(Members(b.listed), b.taken + b.before);
    assert |b.taken + b.before| <= |b.taken| + |b.before|;
  }

  /** A dispatch that started from `start` with `listed` is under way, and what it has acquired since is in the history. */
  ghost predicate Dispatching(s: State, start: State, listed: seq<CheckId>) {
    && (s.dispatcher.Scanning? || s.dispatcher.Sending?)
    && s.dispatcher.batch.listed == listed && s.dispatcher.batch.before == start.inFlight && start.history <= s.history
    && forall id :: id in s.dispatcher.batch.taken ==> AcquiredSince(s.history, |start.history|, id)
  }

  ghost predicate AcquiredSince(h: seq<Event>, from: nat, id: CheckId) {
    exists j :: from <= j < |h| && h[j] == Acquired(id)
  }

  lemma DispatchingStep(s: State, start: State, listed: seq<CheckId>, step: Step)
    requires Dispatching(s, start, listed) && Enabled(s, step) && !step.EndDispatch? && !step.Abort?
    ensures Dispatching(Apply(s, step), start, listed)
  {
    StepAppends(s, step);
    var t := Apply(s, step);
    forall id | id in t.dispatcher.batch.taken ensures AcquiredSince(t.history, |start.history|, id) {
      if id in s.dispatcher.batch.taken {
        var j :| |start.history| <= j < |s.history| && s.history[j] == Acquired(id);
        assert t.history[j] == Acquired(id);
      } else {
        assert t.history[|s.history|] == Acquired(id);
      }
    }
  }

  lemma {:induction false} DispatchGoesOn(states: seq<State>, steps: seq<Step>, i: nat, k: nat, listed: seq<CheckId>)
    requires Run(states, steps) && i < k < |states| && steps[i] == List(listed)
    requires forall m :: i < m < k ==> !steps[m].EndDispatch? && !steps[m].Abort?
    ensures Dispatching(states[k], states[i], listed)
  {
    if k > i + 1 {
      DispatchGoesOn(states, steps, i, k - 1, listed);
      hide Enabled, Apply, Dispatching;
      DispatchingStep(states[k - 1], states[i], listed, steps[k - 1]);
    }
  }

  lemma {:induction false} RunReaches(states: seq<State>, steps: seq<Step>, w: nat, k: nat)
    requires Run(states, steps) && states[0] == Initial(w) && k < |states|
    ensures Reachable(w, states[k])
  {
    hide Enabled, Apply, Initial;
    var front, taken := states[..k + 1], steps[..k];
    assert Run(front, taken) && front[|front| - 1] == states[k];
  }

  /** In every run, between a listing and the end of its dispatch every listed check that was not in flight is acquired, and at least W of a full list. */
  lemma DispatchAcquires(states: seq<State>, steps: seq<Step>, w: nat, i: nat, k: nat, listed: seq<CheckId>)
    requires Run(states, steps) && states[0] == Initial(w) && i < k < |steps| && steps[i] == List(listed) && steps[k] == EndDispatch
    requires forall m :: i < m < k ==> !steps[m].EndDispatch? && !steps[m].Abort?
    ensures states[i].history <= states[k].history
    ensures forall id :: id in listed && id !in states[i].inFlight ==> AcquiredSince(states[k].history, |states[i].history|, id)
    ensures |listed| == 4 * w ==>
              exists some: set<CheckId> :: |some| >= w && forall id :: id in some ==> id in listed && AcquiredSince(states[k].history, |states[i].history|, id)
  {
    DispatchGoesOn(states, steps, i, k, listed);
    hide Apply, Reachable, AcquiredSince;
    RunReaches(states, steps, w, k);
    FinishedDispatchAcquired(w, states[k]);
    assert forall id :: id in states[k].dispatcher.batch.taken ==> id in listed;
  }

  /** What ListDue returns is a list the dispatcher can take: distinct checks, at most four per worker. */
  lemma ListDueFeedsDispatch(s: State, rows: seq<DueChecks.Listed>, now: int)
    requires s.dispatcher.Loading? && DueChecks.DistinctIds(rows)
    ensures Enabled(s, List(DueChecks.Ids(DueChecks.FirstDue(rows, now, 4 * |s.workers|))))
  {
    DueChecks.FirstDueIsSound(rows, now, 4 * |s.workers|);
    DueChecks.FirstDueKeepsDistinct(rows, now, 4 * |s.workers|);
  }

  /** In-flight work cannot starve a due check: if one due check was not in flight, a finished dispatch acquired something, even if that check did not fit the list. */
  lemma DueWorkIsNotStarved(w: nat, s: State, rows: seq<DueChecks.Listed>, now: int, row: DueChecks.Listed)
    requires w >= 1 && Reachable(w, s) && Enabled(s, EndDispatch)
    requires s.dispatcher.batch.listed == DueChecks.Ids(DueChecks.FirstDue(rows, now, 4 * w))
    requires row in rows && DueChecks.Due(row, now) && row.checkId !in s.dispatcher.batch.before
    ensures s.dispatcher.batch.taken != {}
    ensures |s.dispatcher.batch.listed| == 4 * w ==> |s.dispatcher.batch.taken| >= w
    ensures row.checkId in s.dispatcher.batch.listed ==> row.checkId in s.dispatcher.batch.taken
  {
    hide Reachable;
    FinishedDispatchAcquired(w, s);
    DueChecks.FirstDueIsSound(rows, now, 4 * w);
    var due := DueChecks.FirstDue(rows, now, 4 * w);
    if |due| < 4 * w {
      var k :| 0 <= k < |due| && due[k] == row;
      assert DueChecks.Ids(due)[k] == row.checkId;
    }
  }

  lemma SameWorkers(s: State, step: Step)
    requires Enabled(s, step)
    ensures |Apply(s, step).workers| == |s.workers|
  {
  }

  // ---------- the source's own operations ----------

  /** The shared fields, changed only under the mutex, through the channel, or by close; the goroutines' positions are fields too. */
  class Process {
    var cancelled: bool
    var closed: bool
    var inFlight: set<CheckId>
    var jobs: seq<CheckId>
    var workers: seq<Worker>
    var dispatcher: Dispatcher
    ghost var history: seq<Event>

    /** Every turn starts from and leaves a state that the theorems about all runs speak of. */
    ghost predicate Valid()
      reads this
    {
      Inv(View(), |workers|)
    }

    twostate predicate Did(step: Step)
      reads this
    {
      && Enabled(old(View()), step) && View() == Apply(old(View()), step)
      && (old(Valid()) ==> Valid())
    }

    twostate lemma Done(step: Step)
      requires Enabled(old(View()), step) && View() == Apply(old(View()), step)
      ensures Did(step)
    {
      hide Inv, Enabled, Apply;
      if old(Valid()) {
        InvStep(old(View()), step, old(|workers|));
        SameWorkers(old(View()), step);
      }
    }

    ghost function View(): State
      reads this
    {
      State(cancelled, closed, inFlight, jobs, workers, dispatcher, history)
    }

    constructor (option: int)
      ensures View() == Initial(WorkerCount(option)) && Valid()
      ensures |workers| == (if option < 1 then 4 else option) && jobs == [] && inFlight == {} && !cancelled && !closed && dispatcher.Loading?
    {
      cancelled, closed, inFlight, jobs := false, false, {}, [];
      workers := seq(WorkerCount(option), i => Idle);
      dispatcher := Loading;
      history := [];
      new;
      InitialHolds(WorkerCount(option));
    }

    /** The start of a dispatch: what the store lists, or its error. */
    method LoadDue(listed: seq<CheckId>, ok: bool) returns (ghost step: Step)
      requires dispatcher.Loading? && |listed| <= 4 * |workers| && Distinct(listed)
      modifies this
      ensures step == (if ok then List(listed) else ListFailed) && Did(step)
      ensures dispatcher == (if ok then Scanning(Batch(listed, 0, {}, old(inFlight))) else Waiting)
    {
      if ok {
        dispatcher := Scanning(Batch(listed, 0, {}, inFlight));
        step := List(listed);
      } else {
        dispatcher := Waiting;
        step := ListFailed;
      }
      Done(step);
    }

    /** One turn of Run's own loop: the tick, or the Done branch, which closes the jobs channel; with both ready the runtime picks. */
    method RunTurn(ticked: bool, preferDone: bool) returns (ghost step: Step, moved: bool)
      requires dispatcher.Waiting?
      modifies this
      ensures moved <==> ticked || old(cancelled)
      ensures if moved then step in {Tick, Close} && Did(step) else View() == old(View())
      ensures moved && !ticked ==> step == Close
      ensures moved && step == Tick ==> dispatcher.Loading? && closed == old(closed)
      ensures moved && step == Close ==> old(cancelled) && closed && dispatcher.Joining?
    {
      if cancelled && (preferDone || !ticked) {
        closed := true;
        dispatcher := Joining;
        Done(Close);
        return Close, true;
      } else if ticked {
        dispatcher := Loading;
        Done(Tick);
        return Tick, true;
      }
      return Close, false;
    }

    /** workers.Wait, and then Run returns. */
    method JoinTurn() returns (moved: bool)
      requires dispatcher.Joining?
      modifies this
      ensures moved <==> forall w :: 0 <= w < |old(workers)| ==> old(workers)[w].Exited?
      ensures if moved then Did(Join) else View() == old(View())
    {
      for w := 0 to |workers|
        invariant forall v :: 0 <= v < w ==> workers[v].Exited?
      {
        if !workers[w].Exited? {
          return false;
        }
      }
      dispatcher := Returned;
      Done(Join);
      return true;
    }

    /** Cancellation comes from outside. */
    method Cancel()
      requires !cancelled
      modifies this
      ensures Did(Step.Cancel)
    {
      cancelled := true;
      Done(Step.Cancel);
    }

    /** acquire */
    method Acquire(id: CheckId) returns (ok: bool)
      modifies `inFlight
      ensures ok <==> id !in old(inFlight)
      ensures inFlight == old(inFlight) + {id}
    {
      if id in inFlight {
        return false;
      }
      inFlight := inFlight + {id};
      return true;
    }

    /** release */
    method Release(id: CheckId)
      modifies `inFlight
      ensures inFlight == old(inFlight) - {id}
    {
      inFlight := inFlight - {id};
    }

    /** One turn of the loop over the due list: skip what is in flight, hold what could be acquired. */
    method DispatchNext() returns (ghost step: Step)
      requires dispatcher.Scanning? && dispatcher.batch.next <= |dispatcher.batch.listed|
      modifies this
      ensures Did(step)
      ensures step in {EndDispatch, Skip, Step.Acquire}
      ensures var b := old(dispatcher).batch;
              if b.next == |b.listed| then dispatcher.Waiting?
              else if b.listed[b.next] in old(inFlight) then dispatcher == Scanning(b.(next := b.next + 1))
              else dispatcher.Sending? && dispatcher.id == b.listed[b.next] && inFlight == old(inFlight) + {b.listed[b.next]}
    {
      var batch := dispatcher.batch;
      if batch.next == |batch.listed| {
        dispatcher := Waiting;
        Done(EndDispatch);
        return EndDispatch;
      }
      var id := batch.listed[batch.next];
      var ok := Acquire(id);
      if !ok {
        assert inFlight == old(inFlight);
        dispatcher := Scanning(batch.(next := batch.next + 1));
        Done(Skip);
        return Skip;
      }
      dispatcher := Sending(id, batch.(next := batch.next + 1, taken := batch.taken + {id}));
      history := history + [Acquired(id)];
      Done(Step.Acquire);
      return Step.Acquire;
    }

    /** The select around the send: with both cases ready the runtime picks, here by `preferSend`; with neither ready nothing happens. */
    method SendOrAbort(preferSend: bool) returns (ghost step: Step, moved: bool)
      requires dispatcher.Sending?
      modifies this
      ensures moved <==> |old(jobs)| < 2 * |old(workers)| || old(cancelled)
      ensures if moved then step in {Send, Abort} && Did(step) else View() == old(View())
      ensures moved && step == Send ==> jobs == old(jobs) + [old(dispatcher).id] && dispatcher == Scanning(old(dispatcher).batch)
      ensures moved && step == Abort ==> old(cancelled) && dispatcher.Waiting? && inFlight == old(inFlight) - {old(dispatcher).id} && jobs == old(jobs)
    {
      var id, batch := dispatcher.id, dispatcher.batch;
      var room := |jobs| < 2 * |workers|;
      if room && (preferSend || !cancelled) {
        jobs := jobs + [id];
        dispatcher := Scanning(batch);
        Done(Send);
        return Send, true;
      } else if cancelled {
        Release(id);
        dispatcher := Waiting;
        history := history + [Aborted(id)];
        Done(Abort);
        return Abort, true;
      }
      return Send, false;
    }

    /** The head of a worker's loop: receive a job, or leave once the channel is closed and drained. */
    method ReceiveTurn(w: nat) returns (ghost step: Step, moved: bool)
      requires w < |workers| && workers[w].Idle?
      modifies this
      ensures moved <==> old(jobs) != [] || old(closed)
      ensures if moved then step in {Take(w), Exit(w)} && Did(step) else View() == old(View())
      ensures old(jobs) != [] ==> workers[w] == Running(old(jobs)[0], old(cancelled)) && jobs == old(jobs)[1..]
      ensures old(jobs) == [] && old(closed) ==> workers[w].Exited?
    {
      hide Inv, Valid, Did;
      if jobs != [] {
        var id := jobs[0];
        jobs := jobs[1..];
        workers := workers[w := Running(id, cancelled)];
        history := history + [Taken(w, id, cancelled)];
        Done(Take(w));
        return Take(w), true;
      } else if closed {
        workers := workers[w := Exited];
        Done(Exit(w));
        return Exit(w), true;
      }
      return Exit(w), false;
    }

    /** One turn of a worker: receive or leave, decide after the check whether to record, record, release. */
    method WorkerTurn(w: nat) returns (ghost step: Step, moved: bool)
      requires w < |workers|
      modifies this
      ensures moved <==> !old(workers)[w].Exited? && (old(workers)[w].Idle? ==> old(jobs) != [] || old(closed))
      ensures if moved then step in {Take(w), Exit(w), BeginRecord(w), Drop(w), EndRecord(w), Step.Release(w)} && Did(step)
              else View() == old(View())
      ensures match old(workers)[w]
              case Running(id, _) => workers[w] == (if old(cancelled) then Releasing(id) else Recording(id)) && inFlight == old(inFlight)
              case Recording(id) => workers[w] == Releasing(id) && inFlight == old(inFlight)
              case Releasing(id) => workers[w] == Idle && inFlight == old(inFlight) - {id}
              case _ => true
    {
      hide Inv, Valid, Did;
      match workers[w]
      case Idle =>
        step, moved := ReceiveTurn(w);
      case Running(id, _) =>
        if !cancelled {
          workers := workers[w := Recording(id)];
          history := history + [RecordBegun(w, id)];
          Done(BeginRecord(w));
          return BeginRecord(w), true;
        }
        workers := workers[w := Releasing(id)];
        Done(Drop(w));
        return Drop(w), true;
      case Recording(id) =>
        workers := workers[w := Releasing(id)];
        history := history + [RecordEnded(w, id)];
        Done(EndRecord(w));
        return EndRecord(w), true;
      case Releasing(id) =>
        Release(id);
        workers := workers[w := Idle];
        history := history + [Released(w, id)];
        Done(Step.Release(w));
        return Step.Release(w), true;
      case Exited =>
        return Exit(w), false;
    }
  }
}
