/** The discovery scan: a feeder, workers, a closer and one consumer on unbuffered channels, with cancellation, as an interleaving of atomic steps. */
module ScanPipeline {
  import opened Fingerprints
  import opened Ipv4
  import RowText

  type Address = Addr
  type Port = RowText.Port

  /** No identity probe, a probe without slots, or a probe behind a bounded number of slots. */
  datatype Identity = NoProbe | Unslotted | Slotted(capacity: nat)

  datatype Config = Config(addresses: seq<Address>, ports: seq<Port>, workers: nat, identity: Identity) {
    /** What Scan demands of its input; a slot channel without capacity could never be entered. */
    predicate Valid() {
      1 <= |addresses| <= MAXIMUM_ADDRESSES && workers >= 1 && (identity.Slotted? ==> identity.capacity >= 1)
    }

    function WorkerCount(): nat { if workers < |addresses| then workers else |addresses| }
  }

  datatype Result = Result(address: Address, responsive: bool, openPorts: seq<Port>, fingerprints: seq<Fingerprint>)

  datatype Worker =
    | Idle
    | Probing(result: Result, next: nat)
    | AwaitingSlot(result: Result)
    | Identifying(result: Result, slot: bool)
    | Sending(result: Result)
    | Exited
  {
    predicate Busy() { !Idle? && !Exited? }

    predicate Has(a: Address) { Busy() && result.address == a }

    predicate InSlot() { Identifying? && slot }

    function Rank(ports: nat): nat
      requires Probing? ==> next <= ports
    {
      match this
      case Exited => 0 case Idle => 1 case Sending(_) => 3 case Identifying(_, _) => 4 case AwaitingSlot(_) => 5
      case Probing(_, next) => 6 + (ports - next)
    }
  }

  datatype Outcome = Ok | ConsumeFailed | ContextFailed

  datatype Consumer = Receiving | Consuming(result: Result) | Finished(outcome: Outcome)

  /** One call of consume and what it returned. */
  datatype Call = Call(result: Result, ok: bool)

  /** `feeding` until jobs is closed, `open` until results is closed; `lost` lists the addresses whose result nobody consumes. */
  datatype State = State(
    cancelled: bool,
    fed: nat,
    feeding: bool,
    workers: seq<Worker>,
    slots: nat,
    open: bool,
    consumer: Consumer,
    failed: bool,
    calls: seq<Call>,
    lost: seq<Address>)

  datatype Step =
    | Cancel
    | Feed(worker: nat)
    | StopFeeding
    | ProbePort(worker: nat, isOpen: bool)
    | EndPorts(worker: nat)
    | EnterSlot(worker: nat)
    | SkipSlot(worker: nat)
    | Identify(worker: nat, found: seq<Fingerprint>)
    | Deliver(worker: nat)
    | GiveUp(worker: nat)
    | Leave(worker: nat)
    | CloseResults
    | Consume(ok: bool)
    | Return

  function Initial(c: Config): State {
    State(false, 0, true, seq(c.WorkerCount(), i => Idle), 0, true, Receiving, false, [], [])
  }

  predicate Enabled(c: Config, s: State, step: Step) {
    match step
    case Cancel => !s.cancelled
    case Feed(w) => s.feeding && s.fed < |c.addresses| && w < |s.workers| && s.workers[w].Idle?
    case StopFeeding => s.feeding && (s.fed >= |c.addresses| || s.cancelled)
    case ProbePort(w, _) => w < |s.workers| && s.workers[w].Probing? && s.workers[w].next < |c.ports|
    case EndPorts(w) => w < |s.workers| && s.workers[w].Probing? && s.workers[w].next >= |c.ports|
    case EnterSlot(w) => w < |s.workers| && s.workers[w].AwaitingSlot? && c.identity.Slotted? && s.slots < c.identity.capacity
    case SkipSlot(w) => w < |s.workers| && s.workers[w].AwaitingSlot? && s.cancelled
    case Identify(w, _) => w < |s.workers| && s.workers[w].Identifying? && (s.workers[w].slot ==> s.slots > 0)
    case Deliver(w) => w < |s.workers| && s.workers[w].Sending? && s.consumer.Receiving? && s.open
    case GiveUp(w) => w < |s.workers| && s.workers[w].Sending? && s.cancelled
    case Leave(w) => w < |s.workers| && s.workers[w].Idle? && !s.feeding
    case CloseResults => s.open && forall w :: 0 <= w < |s.workers| ==> s.workers[w].Exited?
    case Consume(_) => s.consumer.Consuming?
    case Return => s.consumer.Receiving? && !s.open
  }

  function AfterPort(s: State, wk: Worker, port: Port, isOpen: bool): (x: Worker)
    requires wk.Probing?
    ensures x.Busy() && x.result.address == wk.result.address && !x.InSlot()
  {
    var r := if isOpen then wk.result.(responsive := true, openPorts := wk.result.openPorts + [port]) else wk.result;
    if s.cancelled then Sending(r) else Probing(r, wk.next + 1)
  }

  function AfterPorts(c: Config, s: State, r: Result): (x: Worker)
    ensures x.Busy() && x.result.address == r.address && !x.InSlot()
  {
    if !r.responsive || c.identity.NoProbe? || s.cancelled then Sending(r)
    else if c.identity.Unslotted? then Identifying(r, false)
    else AwaitingSlot(r)
  }

  function Apply(c: Config, s: State, step: Step): State
    requires Enabled(c, s, step)
  {
    match step
    case Cancel => s.(cancelled := true)
    case Feed(w) => s.(fed := s.fed + 1, workers := s.workers[w := Probing(Result(c.addresses[s.fed], false, [], []), 0)])
    case StopFeeding => s.(feeding := false)
    case ProbePort(w, isOpen) => s.(workers := s.workers[w := AfterPort(s, s.workers[w], c.ports[s.workers[w].next], isOpen)])
    case EndPorts(w) => s.(workers := s.workers[w := AfterPorts(c, s, s.workers[w].result)])
    case EnterSlot(w) => s.(workers := s.workers[w := Identifying(s.workers[w].result, true)], slots := s.slots + 1)
    case SkipSlot(w) => s.(workers := s.workers[w := Sending(s.workers[w].result)])
    case Identify(w, found) =>
      s.(workers := s.workers[w := Sending(s.workers[w].result.(fingerprints := found))], slots := if s.workers[w].slot then s.slots - 1 else s.slots)
    case Deliver(w) =>
      var t := s.(workers := s.workers[w := Idle]);
      if s.failed then t.(lost := s.lost + [s.workers[w].result.address]) else t.(consumer := Consuming(s.workers[w].result))
    case GiveUp(w) => s.(workers := s.workers[w := Exited], lost := s.lost + [s.workers[w].result.address])
    case Leave(w) => s.(workers := s.workers[w := Exited])
    case CloseResults => s.(open := false)
    case Consume(ok) =>
      var t := s.(calls := s.calls + [Call(s.consumer.result, ok)], consumer := Receiving);
      if ok then t else t.(failed := true, cancelled := true)
    case Return => s.(consumer := Finished(if s.failed then ConsumeFailed else if s.cancelled then ContextFailed else Ok))
  }

  ghost predicate Run(c: Config, states: seq<State>, steps: seq<Step>) {
    && |states| == |steps| + 1
    && forall i :: 0 <= i < |steps| ==> Enabled(c, states[i], steps[i]) && states[i + 1] == Apply(c, states[i], steps[i])
  }

  ghost predicate Reachable(c: Config, s: State) {
    exists states, steps :: Run(c, states, steps) && states[0] == Initial(c) && states[|states| - 1] == s
  }

  // ---------- counting ----------

  function Having(workers: seq<Worker>, a: Address): nat {
    if workers == [] then 0 else (if workers[0].Has(a) then 1 else 0) + Having(workers[1..], a)
  }

  function Slots(workers: seq<Worker>): nat {
    if workers == [] then 0 else (if workers[0].InSlot() then 1 else 0) + Slots(workers[1..])
  }

  function WorkersRank(workers: seq<Worker>, ports: nat): nat
    requires forall w :: 0 <= w < |workers| && workers[w].Probing? ==> workers[w].next <= ports
  {
    if workers == [] then 0 else workers[0].Rank(ports) + WorkersRank(workers[1..], ports)
  }

  lemma {:induction false} HavingAfterUpdate(workers: seq<Worker>, w: nat, x: Worker, a: Address)
    requires w < |workers|
    ensures Having(workers[w := x], a) + (if workers[w].Has(a) then 1 else 0) == Having(workers, a) + (if x.Has(a) then 1 else 0)
    ensures Slots(workers[w := x]) + (if workers[w].InSlot() then 1 else 0) == Slots(workers) + (if x.InSlot() then 1 else 0)
  {
    var updated := workers[w := x];
    if w == 0 {
      assert updated[1..] == workers[1..];
    } else {
      assert updated[1..] == workers[1..][w - 1 := x] && updated[0] == workers[0];
      HavingAfterUpdate(workers[1..], w - 1, x, a);
    }
  }

  lemma {:induction false} RankAfterUpdate(workers: seq<Worker>, w: nat, x: Worker, ports: nat)
    requires w < |workers| && (x.Probing? ==> x.next <= ports)
    requires forall v :: 0 <= v < |workers| && workers[v].Probing? ==> workers[v].next <= ports
    ensures WorkersRank(workers[w := x], ports) + workers[w].Rank(ports) == WorkersRank(workers, ports) + x.Rank(ports)
  {
    var updated := workers[w := x];
    if w == 0 {
      assert updated[1..] == workers[1..];
    } else {
      assert updated[1..] == workers[1..][w - 1 := x] && updated[0] == workers[0];
      RankAfterUpdate(workers[1..], w - 1, x, ports);
    }
  }

  lemma {:induction false} NobodyHas(workers: seq<Worker>, a: Address)
    requires forall w :: 0 <= w < |workers| ==> !workers[w].Busy()
    ensures Having(workers, a) == 0 && Slots(workers) == 0
  {
    if workers != [] {
      NobodyHas(workers[1..], a);
    }
  }

  lemma {:induction false} SomebodyInSlot(workers: seq<Worker>) returns (w: nat)
    requires Slots(workers) > 0
    ensures w < |workers| && workers[w].InSlot()
  {
    if workers[0].InSlot() {
      w := 0;
    } else {
      w := SomebodyInSlot(workers[1..]);
      w := w + 1;
    }
  }

  lemma {:induction false} InSlotCounts(workers: seq<Worker>, w: nat)
    requires w < |workers| && workers[w].InSlot()
    ensures Slots(workers) > 0
  {
    if w > 0 {
      InSlotCounts(workers[1..], w - 1);
    }
  }

  function Consumed(calls: seq<Call>): (addresses: seq<Address>)
    ensures |addresses| == |calls| && forall i :: 0 <= i < |calls| ==> addresses[i] == calls[i].result.address
  {
    seq(|calls|, i requires 0 <= i < |calls| => calls[i].result.address)
  }

  /** Where the fed copies of an address have gone: consumed, lost, on a worker, or in the consumer's hands. */
  function Places(s: State, a: Address): nat { Given(s, a) + Having(s.workers, a) }

  /** The copies that have left the workers. */
  function Given(s: State, a: Address): nat {
    multiset(Consumed(s.calls))[a] + multiset(s.lost)[a]
    + (if s.consumer.Consuming? && s.consumer.result.address == a then 1 else 0)
  }

  // ---------- the invariant ----------

  ghost predicate Accounting(c: Config, s: State) {
    s.fed <= |c.addresses| && forall a :: Places(s, a) == multiset(c.addresses[..s.fed])[a]
  }

  /** A result is responsive exactly if it lists an open port, lists only probed ports, and is identified only if responsive. */
  predicate SoundResult(c: Config, r: Result) {
    && (r.responsive <==> r.openPorts != [])
    && (forall i :: 0 <= i < |r.openPorts| ==> r.openPorts[i] in c.ports)
    && (!r.responsive ==> r.fingerprints == [])
    && r.address in c.addresses
  }

  ghost predicate SoundWorker(c: Config, w: Worker) {
    && (w.Busy() ==> SoundResult(c, w.result))
    && (w.AwaitingSlot? || w.Identifying? ==> w.result.responsive)
  }

  ghost predicate SoundResults(c: Config, s: State) {
    && (forall w :: 0 <= w < |s.workers| ==> SoundWorker(c, s.workers[w]))
    && (s.consumer.Consuming? ==> SoundResult(c, s.consumer.result))
    && (forall i :: 0 <= i < |s.calls| ==> SoundResult(c, s.calls[i].result))
  }

  /** Where the goroutines can be. */
  ghost predicate Goroutines(c: Config, s: State) {
    && |s.workers| == c.WorkerCount()
    && (forall w :: 0 <= w < |s.workers| && s.workers[w].Probing? ==> s.workers[w].next <= |c.ports|)
    && (forall w :: 0 <= w < |s.workers| && s.workers[w].Exited? ==> s.cancelled || !s.feeding)
    && (forall w :: 0 <= w < |s.workers| && (s.workers[w].AwaitingSlot? || s.workers[w].InSlot()) ==> c.identity.Slotted?)
    && (!s.open ==> forall w :: 0 <= w < |s.workers| ==> s.workers[w].Exited?)
  }

  /** What cancellation and the consumer's variables say. */
  ghost predicate Control(c: Config, s: State) {
    && (!s.feeding ==> s.cancelled || s.fed >= |c.addresses|)
    && (s.lost != [] || s.failed ==> s.cancelled)
    && (s.consumer.Consuming? ==> !s.failed)
    && (s.failed <==> s.calls != [] && !s.calls[|s.calls| - 1].ok)
    && (forall i :: 0 <= i < |s.calls| - 1 ==> s.calls[i].ok)
    && (s.consumer.Finished? ==> !s.open && match s.consumer.outcome
                                            case Ok => s.lost == [] && s.fed >= |c.addresses| && !s.failed
                                            case ConsumeFailed => s.failed
                                            case ContextFailed => s.cancelled && !s.failed)
  }

  ghost predicate SlotsSound(c: Config, s: State) {
    s.slots == Slots(s.workers) && (c.identity.Slotted? ==> s.slots <= c.identity.capacity)
  }

  ghost predicate Inv(c: Config, s: State) {
    Goroutines(c, s) && Control(c, s) && Accounting(c, s) && SlotsSound(c, s) && SoundResults(c, s)
  }

  // ---------- preservation ----------

  lemma InitialHolds(c: Config)
    requires c.Valid()
    ensures Inv(c, Initial(c))
  {
    var s := Initial(c);
    forall a ensures Places(s, a) == multiset(c.addresses[..s.fed])[a] {
      NobodyHas(s.workers, a);
    }
    NobodyHas(s.workers, 0);
  }

  lemma ControlOfReturn(c: Config, s: State)
    requires c.Valid() && Goroutines(c, s) && Control(c, s) && Enabled(c, s, Return)
    ensures Control(c, Apply(c, s, Return))
  {
    assert s.workers[0].Exited?;
  }

  lemma ControlOfConsume(c: Config, s: State, ok: bool)
    requires Control(c, s) && Enabled(c, s, Consume(ok))
    ensures Control(c, Apply(c, s, Consume(ok)))
  {
  }

  lemma ControlStep(c: Config, s: State, step: Step)
    requires c.Valid() && Goroutines(c, s) && Control(c, s) && Enabled(c, s, step)
    ensures Control(c, Apply(c, s, step))
  {
    match step
    case Return => ControlOfReturn(c, s);
    case Consume(ok) => ControlOfConsume(c, s, ok);
    case _ =>
      hide AfterPort, AfterPorts, Goroutines;
  }

  /** The worker a step moves, if it moves one. */
  function Moves(step: Step): (w: int)
    ensures w >= -1
  {
    match step
    case Feed(w) => w case ProbePort(w, _) => w case EndPorts(w) => w case EnterSlot(w) => w case SkipSlot(w) => w
    case Identify(w, _) => w case Deliver(w) => w case GiveUp(w) => w case Leave(w) => w
    case _ => -1
  }

  lemma OnlyOneWorkerMoves(c: Config, s: State, step: Step)
    requires Enabled(c, s, step)
    ensures var t, w := Apply(c, s, step), Moves(step);
            if w >= 0 then w < |s.workers| == |t.workers| && t.workers == s.workers[w := t.workers[w]] else t.workers == s.workers
  {
  }

  /** Where a step leaves the worker it moves. */
  lemma MovedWorkerPlace(c: Config, s: State, step: Step)
    requires Goroutines(c, s) && Enabled(c, s, step) && Moves(step) >= 0
    ensures var t, w := Apply(c, s, step), Moves(step);
            && s.open && w < |t.workers|
            && (t.workers[w].Probing? ==> t.workers[w].next <= |c.ports|)
            && (t.workers[w].Exited? ==> t.cancelled || !t.feeding)
            && (t.workers[w].AwaitingSlot? || t.workers[w].InSlot() ==> c.identity.Slotted?)
  {
  }

  lemma GoroutinesStep(c: Config, s: State, step: Step)
    requires Goroutines(c, s) && Enabled(c, s, step)
    ensures Goroutines(c, Apply(c, s, step))
  {
    OnlyOneWorkerMoves(c, s, step);
    if Moves(step) >= 0 {
      MovedWorkerPlace(c, s, step);
      assert Apply(c, s, step).open == s.open;
      hide AfterPort, AfterPorts, Enabled;
    }
  }

  /** Whose address the moved worker holds, before and after. */
  lemma MovedWorkerHas(c: Config, s: State, step: Step, a: Address)
    requires Enabled(c, s, step) && Moves(step) >= 0
    ensures var w, t := Moves(step), Apply(c, s, step);
            w < |s.workers| == |t.workers|
            && (if step.Feed? then !s.workers[w].Has(a) && (t.workers[w].Has(a) <==> c.addresses[s.fed] == a)
                else if step.Deliver? || step.GiveUp? then (s.workers[w].Has(a) <==> s.workers[w].result.address == a) && !t.workers[w].Has(a)
                else s.workers[w].Has(a) == t.workers[w].Has(a))
  {
  }

  /** A delivered or abandoned result leaves its worker. */
  lemma GivenByMove(c: Config, s: State, step: Step, a: Address)
    requires Enabled(c, s, step) && Moves(step) >= 0
    ensures Moves(step) < |s.workers|
    ensures Given(Apply(c, s, step), a) == Given(s, a)
              + (if (step.Deliver? || step.GiveUp?) && s.workers[Moves(step)].result.address == a then 1 else 0)
  {
    hide AfterPort, AfterPorts, Consumed;
    var t := Apply(c, s, step);
    if step.Deliver? {
      GivenByDelivery(c, s, step.worker, a);
    } else if step.GiveUp? {
      assert t.calls == s.calls && t.consumer == s.consumer && t.lost == s.lost + [s.workers[step.worker].result.address];
    } else {
      assert t.calls == s.calls && t.lost == s.lost && t.consumer == s.consumer;
    }
  }

  lemma GivenByDelivery(c: Config, s: State, w: nat, a: Address)
    requires Enabled(c, s, Deliver(w))
    ensures Given(Apply(c, s, Deliver(w)), a) == Given(s, a) + (if s.workers[w].result.address == a then 1 else 0)
  {
    hide Consumed;
  }

  lemma GivenByConsume(c: Config, s: State, ok: bool, a: Address)
    requires Enabled(c, s, Consume(ok))
    ensures Given(Apply(c, s, Consume(ok)), a) == Given(s, a) && Apply(c, s, Consume(ok)).workers == s.workers
  {
    assert Consumed(Apply(c, s, Consume(ok)).calls) == Consumed(s.calls) + [s.consumer.result.address];
  }

  lemma PlacesStep(c: Config, s: State, step: Step, a: Address)
    requires Enabled(c, s, step)
    ensures Places(Apply(c, s, step), a) == Places(s, a) + (if step.Feed? && c.addresses[s.fed] == a then 1 else 0)
  {
    hide Having;
    if Moves(step) >= 0 {
      var t, w := Apply(c, s, step), Moves(step);
      OnlyOneWorkerMoves(c, s, step);
      MovedWorkerHas(c, s, step, a);
      GivenByMove(c, s, step, a);
      hide Given, Apply, Enabled;
      HavingAfterUpdate(s.workers, w, t.workers[w], a);
    } else if step.Consume? {
      GivenByConsume(c, s, step.ok, a);
      hide Given;
    } else {
      var t := Apply(c, s, step);
      assert t.calls == s.calls && t.lost == s.lost && t.workers == s.workers;
    }
  }

  lemma AccountingStep(c: Config, s: State, step: Step)
    requires Accounting(c, s) && Enabled(c, s, step)
    ensures Accounting(c, Apply(c, s, step))
  {
    hide Places;
    var t := Apply(c, s, step);
    forall a ensures Places(t, a) == multiset(c.addresses[..t.fed])[a] {
      assert Places(s, a) == multiset(c.addresses[..s.fed])[a];
      PlacesStep(c, s, step, a);
      if step.Feed? {
        assert c.addresses[..t.fed] == c.addresses[..s.fed] + [c.addresses[s.fed]];
      }
    }
  }

  lemma SlotsStep(c: Config, s: State, step: Step)
    requires Goroutines(c, s) && SlotsSound(c, s) && Enabled(c, s, step)
    ensures SlotsSound(c, Apply(c, s, step))
  {
    OnlyOneWorkerMoves(c, s, step);
    if Moves(step) >= 0 {
      HavingAfterUpdate(s.workers, Moves(step), Apply(c, s, step).workers[Moves(step)], 0);
    }
  }

  /** The worker a step moves carries a sound result on. */
  lemma MovedWorkerIsSound(c: Config, s: State, step: Step)
    requires SoundResults(c, s) && Enabled(c, s, step) && Moves(step) >= 0
    ensures Moves(step) < |s.workers| && SoundWorker(c, Apply(c, s, step).workers[Moves(step)])
  {
    var w := Moves(step);
    assert SoundWorker(c, s.workers[w]);
    if step.ProbePort? {
      var found := s.workers[w].result.openPorts + [c.ports[s.workers[w].next]];
      forall i | 0 <= i < |found| ensures found[i] in c.ports {}
    }
  }

  lemma ResultsStep(c: Config, s: State, step: Step)
    requires SoundResults(c, s) && Enabled(c, s, step)
    ensures SoundResults(c, Apply(c, s, step))
  {
    var t, w := Apply(c, s, step), Moves(step);
    OnlyOneWorkerMoves(c, s, step);
    if w >= 0 {
      MovedWorkerIsSound(c, s, step);
      assert SoundWorker(c, s.workers[w]);
    }
    hide SoundWorker, SoundResult, AfterPort, AfterPorts;
    assert t.consumer.Consuming? ==> t.consumer == s.consumer || (step.Deliver? && t.consumer.result == s.workers[w].result);
  }

  lemma InvStep(c: Config, s: State, step: Step)
    requires c.Valid() && Inv(c, s) && Enabled(c, s, step)
    ensures Inv(c, Apply(c, s, step))
  {
    GoroutinesStep(c, s, step);
    ControlStep(c, s, step);
    AccountingStep(c, s, step);
    SlotsStep(c, s, step);
    ResultsStep(c, s, step);
  }

  lemma {:induction false} RunKeepsInv(c: Config, states: seq<State>, steps: seq<Step>)
    requires c.Valid() && Run(c, states, steps) && Inv(c, states[0])
    ensures Inv(c, states[|states| - 1])
  {
    if steps != [] {
      InvStep(c, states[0], steps[0]);
      RunKeepsInv(c, states[1..], steps[1..]);
    }
  }

  lemma ReachableInv(c: Config, s: State)
    requires c.Valid() && Reachable(c, s)
    ensures Inv(c, s)
  {
    var states, steps :| Run(c, states, steps) && states[0] == Initial(c) && states[|states| - 1] == s;
    InitialHolds(c);
    RunKeepsInv(c, states, steps);
  }

  // ---------- exactly once ----------

  /** In every run no address is consumed more often than it was given, and nothing is consumed after the first failure. */
  lemma NeverTwiceNeverAfterFailure(c: Config, s: State)
    requires c.Valid() && Reachable(c, s)
    ensures multiset(Consumed(s.calls)) <= multiset(c.addresses)
    ensures forall i :: 0 <= i < |s.calls| - 1 ==> s.calls[i].ok
    ensures forall i :: 0 <= i < |s.calls| ==> SoundResult(c, s.calls[i].result)
  {
    ReachableInv(c, s);
    assert c.addresses == c.addresses[..s.fed] + c.addresses[s.fed..];
    forall a ensures multiset(Consumed(s.calls))[a] <= multiset(c.addresses)[a] {
      assert Places(s, a) == multiset(c.addresses[..s.fed])[a];
    }
  }

  /** A scan that ended well has consumed all it was given. */
  lemma FinishedOkIsComplete(c: Config, s: State)
    requires Inv(c, s) && s.consumer.Finished? && s.consumer.outcome.Ok?
    ensures multiset(Consumed(s.calls)) == multiset(c.addresses)
  {
    assert c.addresses[..s.fed] == c.addresses;
    forall a ensures multiset(Consumed(s.calls))[a] == multiset(c.addresses)[a] {
      assert Places(s, a) == multiset(c.addresses[..s.fed])[a];
      NobodyHas(s.workers, a);
    }
  }

  /** Only the consume call adds to the calls. */
  lemma InternalStepKeepsCalls(c: Config, s: State, step: Step)
    requires Enabled(c, s, step) && !step.Consume?
    ensures Apply(c, s, step).calls == s.calls && Apply(c, s, step).failed == s.failed
  {
  }

  /** Scan returns nil only after one successful consume call per given address, and it reports a consume error exactly if there was one. */
  lemma NilMeansExactlyOnce(c: Config, s: State)
    requires c.Valid() && Reachable(c, s) && s.consumer.Finished?
    ensures s.consumer.outcome.Ok? ==> multiset(Consumed(s.calls)) == multiset(c.addresses) && forall i :: 0 <= i < |s.calls| ==> s.calls[i].ok
    ensures s.consumer.outcome.ConsumeFailed? <==> exists i :: 0 <= i < |s.calls| && !s.calls[i].ok
    ensures !s.cancelled ==> s.consumer.outcome.Ok?
  {
    ReachableInv(c, s);
    if s.consumer.outcome.Ok? {
      FinishedOkIsComplete(c, s);
    }
  }

  // ---------- what a scan finds out ----------

  /** What the network answers: whether a port of an address is open, and which fingerprints an address with given open ports presents. */
  datatype Network = Network(open: (Address, Port) -> bool, prints: (Address, seq<Port>) -> seq<Fingerprint>)

  /** The open ones among the ports, in order. */
  function OpenPorts(net: Network, a: Address, ports: seq<Port>): seq<Port> {
    if ports == [] then []
    else
      var n := |ports| - 1;
      OpenPorts(net, a, ports[..n]) + (if net.open(a, ports[n]) then [ports[n]] else [])
  }

  /** The step reports what the network answers. */
  ghost predicate Honest(c: Config, s: State, step: Step, net: Network)
    requires Enabled(c, s, step)
  {
    match step
    case ProbePort(w, isOpen) => isOpen == net.open(s.workers[w].result.address, c.ports[s.workers[w].next])
    case Identify(w, found) => found == net.prints(s.workers[w].result.address, s.workers[w].result.openPorts)
    case _ => true
  }

  /** All ports were probed, and a responsive address identified, unless nobody asks for that. */
  ghost predicate FullResult(c: Config, net: Network, r: Result) {
    && r.openPorts == OpenPorts(net, r.address, c.ports)
    && (r.responsive <==> r.openPorts != [])
    && r.fingerprints == if r.responsive && !c.identity.NoProbe? then net.prints(r.address, r.openPorts) else []
  }

  ghost predicate PartialUpTo(c: Config, net: Network, r: Result, n: nat)
    requires n <= |c.ports|
  {
    && r.openPorts == OpenPorts(net, r.address, c.ports[..n])
    && (r.responsive <==> r.openPorts != [])
    && r.fingerprints == []
  }

  /** The result of a probe cut short: some of the ports were probed, and nothing was identified. */
  ghost predicate PartialResult(c: Config, net: Network, r: Result) {
    exists n: nat :: n <= |c.ports| && PartialUpTo(c, net, r, n)
  }

  ghost predicate TruthfulResult(c: Config, net: Network, r: Result, cancelled: bool) {
    FullResult(c, net, r) || (cancelled && PartialResult(c, net, r))
  }

  ghost predicate TruthfulWorker(c: Config, net: Network, w: Worker, cancelled: bool) {
    match w
    case Probing(r, next) => next <= |c.ports| && PartialUpTo(c, net, r, next)
    case AwaitingSlot(r) => PartialUpTo(c, net, r, |c.ports|) && r.responsive && c.identity.Slotted?
    case Identifying(r, _) => PartialUpTo(c, net, r, |c.ports|) && r.responsive && !c.identity.NoProbe?
    case Sending(r) => TruthfulResult(c, net, r, cancelled)
    case _ => true
  }

  ghost predicate Truthful(c: Config, net: Network, s: State) {
    && (forall w :: 0 <= w < |s.workers| ==> TruthfulWorker(c, net, s.workers[w], s.cancelled))
    && (s.consumer.Consuming? ==> TruthfulResult(c, net, s.consumer.result, s.cancelled))
    && (forall i :: 0 <= i < |s.calls| ==> TruthfulResult(c, net, s.calls[i].result, s.cancelled))
  }

  lemma PortProbed(c: Config, net: Network, s: State, w: nat, isOpen: bool)
    requires Enabled(c, s, ProbePort(w, isOpen)) && Honest(c, s, ProbePort(w, isOpen), net)
    requires TruthfulWorker(c, net, s.workers[w], s.cancelled)
    ensures TruthfulWorker(c, net, Apply(c, s, ProbePort(w, isOpen)).workers[w], s.cancelled)
  {
    var r, next := s.workers[w].result, s.workers[w].next;
    assert c.ports[..next + 1][..next] == c.ports[..next];
    var x := AfterPort(s, s.workers[w], c.ports[next], isOpen);
    assert PartialUpTo(c, net, x.result, next + 1);
  }

  lemma PortsEnded(c: Config, net: Network, s: State, w: nat)
    requires Enabled(c, s, EndPorts(w)) && TruthfulWorker(c, net, s.workers[w], s.cancelled)
    ensures TruthfulWorker(c, net, Apply(c, s, EndPorts(w)).workers[w], s.cancelled)
  {
    assert c.ports[..|c.ports|] == c.ports;
    assert PartialUpTo(c, net, s.workers[w].result, |c.ports|);
  }

  lemma Identified(c: Config, net: Network, s: State, step: Step)
    requires Enabled(c, s, step) && Honest(c, s, step, net) && (step.EnterSlot? || step.SkipSlot? || step.Identify?)
    requires TruthfulWorker(c, net, s.workers[step.worker], s.cancelled)
    ensures TruthfulWorker(c, net, Apply(c, s, step).workers[step.worker], s.cancelled)
  {
    assert c.ports[..|c.ports|] == c.ports;
  }

  lemma MovedWorkerIsTruthful(c: Config, net: Network, s: State, step: Step)
    requires Truthful(c, net, s) && Enabled(c, s, step) && Honest(c, s, step, net) && Moves(step) >= 0
    ensures Moves(step) < |s.workers| && TruthfulWorker(c, net, Apply(c, s, step).workers[Moves(step)], s.cancelled)
  {
    var w := Moves(step);
    assert TruthfulWorker(c, net, s.workers[w], s.cancelled);
    match step
    case ProbePort(_, isOpen) => PortProbed(c, net, s, w, isOpen);
    case EndPorts(_) => PortsEnded(c, net, s, w);
    case EnterSlot(_) => Identified(c, net, s, step);
    case SkipSlot(_) => Identified(c, net, s, step);
    case Identify(_, _) => Identified(c, net, s, step);
    case Feed(_) => assert c.ports[..0] == [];
    case _ =>
  }

  lemma CancellationAllowsMore(c: Config, net: Network, s: State)
    requires Truthful(c, net, s)
    ensures Truthful(c, net, s.(cancelled := true))
  {
    hide FullResult, PartialResult;
    forall w | 0 <= w < |s.workers| ensures TruthfulWorker(c, net, s.workers[w], true) {
      assert TruthfulWorker(c, net, s.workers[w], s.cancelled);
    }
  }

  lemma TruthfulStep(c: Config, net: Network, s: State, step: Step)
    requires Truthful(c, net, s) && Enabled(c, s, step) && Honest(c, s, step, net)
    ensures Truthful(c, net, Apply(c, s, step))
  {
    hide FullResult, PartialResult, PartialUpTo, AfterPort, AfterPorts;
    if Moves(step) >= 0 {
      OnlyOneWorkerMoves(c, s, step);
      MovedWorkerIsTruthful(c, net, s, step);
      assert TruthfulWorker(c, net, s.workers[Moves(step)], s.cancelled);
    } else if step.Cancel? || step.Consume? {
      CancellationAllowsMore(c, net, s);
    }
  }

  ghost predicate HonestRun(c: Config, states: seq<State>, steps: seq<Step>, net: Network) {
    Run(c, states, steps) && forall i :: 0 <= i < |steps| ==> Honest(c, states[i], steps[i], net)
  }

  lemma InitialIsTruthful(c: Config, net: Network)
    ensures Truthful(c, net, Initial(c))
  {
    hide TruthfulResult;
  }

  lemma {:induction false} HonestRunsAreTruthful(c: Config, states: seq<State>, steps: seq<Step>, net: Network)
    requires HonestRun(c, states, steps, net) && states[0] == Initial(c)
    ensures Truthful(c, net, states[|states| - 1])
  {
    hide Enabled, Apply, Honest;
    if steps == [] {
      InitialIsTruthful(c, net);
    } else {
      var n := |steps| - 1;
      assert HonestRun(c, states[..n + 1], steps[..n], net);
      HonestRunsAreTruthful(c, states[..n + 1], steps[..n], net);
      hide Truthful;
      TruthfulStep(c, net, states[n], steps[n]);
    }
  }

  /**
    * In every run in which the probes report what the network answers, each consumed result of a scan that is not
    * cancelled lists exactly the open ones among the scanned ports, in order, is responsive if there is one, and then
    * carries the fingerprints presented; after cancellation it may instead stop at some port, without fingerprints.
    */
  lemma ResultsTellTheNetwork(c: Config, states: seq<State>, steps: seq<Step>, net: Network, i: nat)
    requires HonestRun(c, states, steps, net) && states[0] == Initial(c) && i < |states[|states| - 1].calls|
    ensures var s := states[|states| - 1];
            && (!s.cancelled ==> FullResult(c, net, s.calls[i].result))
            && (FullResult(c, net, s.calls[i].result) || PartialResult(c, net, s.calls[i].result))
  {
    hide HonestRun, FullResult, PartialResult;
    HonestRunsAreTruthful(c, states, steps, net);
  }

  // ---------- termination and absence of deadlock ----------

  /** The work still to be fed: every address costs a whole probe. */
  function FeedRank(addresses: nat, ports: nat): nat { if addresses == 0 then 0 else 7 + ports + FeedRank(addresses - 1, ports) }

  function Rank(c: Config, s: State): nat
    requires s.fed <= |c.addresses|
    requires forall w :: 0 <= w < |s.workers| && s.workers[w].Probing? ==> s.workers[w].next <= |c.ports|
  {
    FeedRank(|c.addresses| - s.fed, |c.ports|) + WorkersRank(s.workers, |c.ports|)
    + (if s.feeding then 1 else 0) + (if s.open then 1 else 0) + (if s.cancelled then 0 else 1)
    + (match s.consumer case Receiving => 1 case Consuming(_) => 2 case Finished(_) => 0)
  }

  /** The moved worker has less to do, unless it is fed, and then the feeder has. */
  lemma MovedWorkerRank(c: Config, s: State, step: Step)
    requires Goroutines(c, s) && Control(c, s) && Enabled(c, s, step) && Moves(step) >= 0 && s.fed <= |c.addresses|
    ensures var w, t := Moves(step), Apply(c, s, step);
            && w < |s.workers| && (t.workers[w].Probing? ==> t.workers[w].next <= |c.ports|)
            && (if step.Feed? then t.workers[w].Rank(|c.ports|) == s.workers[w].Rank(|c.ports|) + 5 + |c.ports|
                else t.workers[w].Rank(|c.ports|) < s.workers[w].Rank(|c.ports|))
            && (step.Deliver? ==> t.workers[w].Rank(|c.ports|) + 2 == s.workers[w].Rank(|c.ports|))
  {
  }

  lemma MoveLowersRank(c: Config, s: State, step: Step)
    requires Goroutines(c, s) && Control(c, s) && s.fed <= |c.addresses| && Enabled(c, s, step) && Moves(step) >= 0
    requires Goroutines(c, Apply(c, s, step)) && Apply(c, s, step).fed <= |c.addresses|
    ensures Rank(c, Apply(c, s, step)) < Rank(c, s)
  {
    var t, w := Apply(c, s, step), Moves(step);
    OnlyOneWorkerMoves(c, s, step);
    MovedWorkerRank(c, s, step);
    hide Control, AfterPort, AfterPorts;
    RankAfterUpdate(s.workers, w, t.workers[w], |c.ports|);
  }

  lemma StepLowersRank(c: Config, s: State, step: Step)
    requires c.Valid() && Inv(c, s) && Enabled(c, s, step)
    ensures Inv(c, Apply(c, s, step)) && Rank(c, Apply(c, s, step)) < Rank(c, s)
  {
    InvStep(c, s, step);
    hide SoundResults, Places, SlotsSound, Control;
    if Moves(step) >= 0 {
      MoveLowersRank(c, s, step);
    } else {
      assert Apply(c, s, step).workers == s.workers;
    }
  }

  /** What a consume call adds. */
  lemma ConsumeEffect(c: Config, s: State, ok: bool)
    requires s.consumer.Consuming?
    ensures Enabled(c, s, Consume(ok))
    ensures var t := Apply(c, s, Consume(ok)); t.calls == s.calls + [Call(s.consumer.result, ok)] && t.failed == (s.failed || !ok)
  {
  }

  /** Every run is finite, whatever the interleaving, the probes and the consumer do. */
  lemma {:induction false} ScanTerminates(c: Config, states: seq<State>, steps: seq<Step>)
    requires c.Valid() && Run(c, states, steps) && Inv(c, states[0])
    ensures |steps| <= Rank(c, states[0])
  {
    if steps != [] {
      StepLowersRank(c, states[0], steps[0]);
      ScanTerminates(c, states[1..], steps[1..]);
    }
  }

  /** Until Scan has returned, some goroutine can take a step: nobody waits forever on jobs, results or a slot. */
  lemma NoDeadlock(c: Config, s: State) returns (step: Step)
    requires c.Valid() && Reachable(c, s) && !s.consumer.Finished?
    ensures Enabled(c, s, step) && !step.Cancel?
  {
    ReachableInv(c, s);
    if s.consumer.Consuming? {
      return Consume(true);
    } else if !s.open {
      return Return;
    } else if w :| 0 <= w < |s.workers| && s.workers[w].Busy() {
      match s.workers[w]
      case Probing(_, next) => return if next < |c.ports| then ProbePort(w, false) else EndPorts(w);
      case AwaitingSlot(_) =>
        if s.slots < c.identity.capacity {
          return EnterSlot(w);
        }
        var v := SomebodyInSlot(s.workers);
        return Identify(v, []);
      case Identifying(_, slot) =>
        if slot {
          InSlotCounts(s.workers, w);
        }
        return Identify(w, []);
      case Sending(_) => return Deliver(w);
    } else if w :| 0 <= w < |s.workers| && s.workers[w].Idle? {
      return if !s.feeding then Leave(w) else if s.fed < |c.addresses| then Feed(w) else StopFeeding;
    } else {
      assert s.workers[0].Exited?;
      return CloseResults;
    }
  }

  /** The number of identity probes under way never exceeds the slots, and a finished scan has given every slot back. */
  lemma SlotsAreBounded(c: Config, s: State)
    requires c.Valid() && Reachable(c, s)
    ensures c.identity.Slotted? ==> Slots(s.workers) == s.slots <= c.identity.capacity
    ensures s.consumer.Finished? ==> s.slots == 0
  {
    ReachableInv(c, s);
    if s.consumer.Finished? {
      NobodyHas(s.workers, 0);
    }
  }

  // ---------- the goroutines of Scan ----------

  /** The channels, the cancellation flag and the locals of the goroutines, changed one turn at a time. Where a select has two ready cases the runtime picks, here by a parameter. */
  class Process {
    const config: Config
    var cancelled: bool
    var fed: nat
    var feeding: bool
    var workers: seq<Worker>
    var slots: nat
    var open: bool
    var consumer: Consumer
    var failed: bool
    ghost var calls: seq<Call>
    ghost var lost: seq<Address>

    ghost function View(): State
      reads this
    {
      State(cancelled, fed, feeding, workers, slots, open, consumer, failed, calls, lost)
    }

    /** Every turn starts from and leaves a state that the theorems about all runs speak of. */
    ghost predicate Valid()
      reads this
    {
      config.Valid() && Inv(config, View())
    }

    twostate predicate Did(step: Step)
      reads this
    {
      && Enabled(config, old(View()), step) && View() == Apply(config, old(View()), step)
      && (old(Valid()) ==> Valid())
    }

    twostate lemma Done(step: Step)
      requires Enabled(config, old(View()), step) && View() == Apply(config, old(View()), step)
      ensures Did(step)
    {
      hide Inv, Enabled, Apply;
      if old(Valid()) {
        InvStep(config, old(View()), step);
      }
    }

    constructor (c: Config)
      ensures config == c && View() == Initial(c) && (c.Valid() ==> Valid())
      ensures |workers| == if c.workers < |c.addresses| then c.workers else |c.addresses|
    {
      config := c;
      cancelled, fed, feeding, slots, open, consumer, failed, calls := false, 0, true, 0, true, Receiving, false, [];
      workers := seq(c.WorkerCount(), i => Idle);
      lost := [];
      new;
      if c.Valid() {
        InitialHolds(c);
      }
    }

    /** The channels and goroutines of one scan, unless there is nothing to scan or too much. */
    static method Start(c: Config) returns (process: Process?)
      ensures process != null <==> 1 <= |c.addresses| <= MAXIMUM_ADDRESSES
      ensures process != null ==> fresh(process) && process.config == c && process.View() == Initial(c) && (c.Valid() ==> process.Valid())
    {
      if |c.addresses| == 0 || |c.addresses| > MAXIMUM_ADDRESSES {
        return null;
      }
      process := new Process(c);
    }

    /** The outer context ends. */
    method Cancel()
      requires !cancelled
      modifies this
      ensures Did(Step.Cancel)
    {
      cancelled := true;
      Done(Step.Cancel);
    }

    /** The feeder: hand the next address to an idle worker, or close jobs after the last address or on cancellation. */
    method FeederTurn(w: nat, preferDone: bool) returns (ghost step: Step, moved: bool)
      requires feeding && w < |workers|
      modifies this
      ensures moved ==> step in {Feed(w), StopFeeding} && Did(step)
      ensures !moved ==> View() == old(View())
      ensures moved <==> old(cancelled) || old(fed) >= |config.addresses| || old(workers)[w].Idle?
      ensures moved && step == Feed(w) ==>
                old(fed) < |config.addresses| && fed == old(fed) + 1
                && workers[w] == Probing(Result(config.addresses[old(fed)], false, [], []), 0)
      ensures moved && step == StopFeeding ==> !feeding && workers == old(workers)
    {
      if fed >= |config.addresses| || (cancelled && (preferDone || !workers[w].Idle?)) {
        feeding := false;
        Done(StopFeeding);
        return StopFeeding, true;
      } else if workers[w].Idle? {
        workers := workers[w := Probing(Result(config.addresses[fed], false, [], []), 0)];
        fed := fed + 1;
        Done(Feed(w));
        return Feed(w), true;
      }
      return StopFeeding, false;
    }

    /** One turn of probeAddress: a port, the identity slot, or the identity probe; `isOpen` and `found` are what the network answers. */
    method ProbeTurn(w: nat, isOpen: bool, found: seq<Fingerprint>, preferDone: bool) returns (ghost step: Step, moved: bool)
      requires w < |workers| && (workers[w].Probing? || workers[w].AwaitingSlot? || workers[w].Identifying?)
      requires workers[w].AwaitingSlot? ==> config.identity.Slotted?
      requires workers[w].InSlot() ==> slots > 0
      modifies this
      ensures moved ==> step in {ProbePort(w, isOpen), EndPorts(w), EnterSlot(w), SkipSlot(w), Identify(w, found)} && Did(step)
      ensures !moved ==> View() == old(View()) && workers[w].AwaitingSlot? && !cancelled
      ensures match old(workers)[w]
              case Probing(r, next) =>
                if next < |config.ports| then
                  && (workers[w].Probing? || workers[w].Sending?) && (workers[w].Sending? <==> cancelled)
                  && workers[w].result.openPorts == (if isOpen then r.openPorts + [config.ports[next]] else r.openPorts)
                  && workers[w].result.responsive == (r.responsive || isOpen)
                else
                  workers[w] == (if !r.responsive || config.identity.NoProbe? || cancelled then Sending(r)
                                 else if config.identity.Unslotted? then Identifying(r, false) else AwaitingSlot(r))
              case Identifying(r, _) => workers[w] == Sending(r.(fingerprints := found))
              case _ => true
    {
      hide Inv, Valid, Did;
      match workers[w]
      case Probing(r, next) =>
        if next < |config.ports| {
          var result := r;
          if isOpen {
            result := result.(responsive := true, openPorts := result.openPorts + [config.ports[next]]);
          }
          workers := workers[w := if cancelled then Sending(result) else Probing(result, next + 1)];
          Done(ProbePort(w, isOpen));
          return ProbePort(w, isOpen), true;
        }
        if r.responsive && !config.identity.NoProbe? && !cancelled {
          workers := workers[w := if config.identity.Unslotted? then Identifying(r, false) else AwaitingSlot(r)];
        } else {
          workers := workers[w := Sending(r)];
        }
        Done(EndPorts(w));
        return EndPorts(w), true;
      case AwaitingSlot(r) =>
        if slots < config.identity.capacity && !(cancelled && preferDone) {
          slots := slots + 1;
          workers := workers[w := Identifying(r, true)];
          Done(EnterSlot(w));
          return EnterSlot(w), true;
        } else if cancelled {
          workers := workers[w := Sending(r)];
          Done(SkipSlot(w));
          return SkipSlot(w), true;
        }
        return SkipSlot(w), false;
      case Identifying(r, slot) =>
        if slot {
          slots := slots - 1;
        }
        workers := workers[w := Sending(r.(fingerprints := found))];
        Done(Identify(w, found));
        return Identify(w, found), true;
    }

    /** The consumer's loop body up to the consume call: a result received after a failure is dropped. */
    method ReceiveTurn(w: nat)
      requires w < |workers| && workers[w].Sending? && consumer.Receiving? && open
      modifies this
      ensures Did(Deliver(w))
      ensures consumer == if old(failed) then Receiving else Consuming(old(workers)[w].result)
    {
      var result := workers[w].result;
      workers := workers[w := Idle];
      if failed {
        lost := lost + [result.address];
      } else {
        consumer := Consuming(result);
      }
      Done(Deliver(w));
    }

    /** The consume call: its first error cancels the scan. */
    method ConsumeTurn(ok: bool)
      requires consumer.Consuming?
      modifies this
      ensures Did(Consume(ok))
      ensures calls == old(calls) + [Call(old(consumer).result, ok)] && (failed <==> old(failed) || !ok) && (cancelled <==> old(cancelled) || !ok)
    {
      calls := calls + [Call(consumer.result, ok)];
      consumer := Receiving;
      if !ok {
        failed := true;
        cancelled := true;
      }
      Done(Consume(ok));
    }

    /** A worker leaves on cancellation instead of sending, or when jobs is closed. */
    method LeaveTurn(w: nat) returns (ghost step: Step)
      requires w < |workers| && ((workers[w].Sending? && cancelled) || (workers[w].Idle? && !feeding))
      modifies this
      ensures step in {GiveUp(w), Leave(w)} && Did(step)
    {
      if workers[w].Sending? {
        lost := lost + [workers[w].result.address];
        step := GiveUp(w);
      } else {
        step := Leave(w);
      }
      workers := workers[w := Exited];
      Done(step);
    }

    /** The closer, and then Scan's own return value. */
    method EndTurn() returns (ghost step: Step)
      requires (open && forall w :: 0 <= w < |workers| ==> workers[w].Exited?) || (!open && consumer.Receiving?)
      modifies this
      ensures step in {CloseResults, Return} && Did(step)
      ensures if old(open) then !open && consumer == old(consumer)
              else consumer == Finished(if failed then ConsumeFailed else if cancelled then ContextFailed else Ok)
    {
      if open {
        open := false;
        Done(CloseResults);
        return CloseResults;
      }
      if failed {
        consumer := Finished(ConsumeFailed);
      } else if cancelled {
        consumer := Finished(ContextFailed);
      } else {
        consumer := Finished(Ok);
      }
      Done(Return);
      return Return;
    }
  }
}
