/** Discovery jobs end to end: the single-runner flag, the job row, the scan that feeds it and the device rows. */
module DiscoveryService {
  import opened Text
  import opened Ipv4
  import opened Fingerprints
  import opened RowText
  import opened Sets
  import TargetText
  import Scan = ScanPipeline

  type JobId = int

  datatype Status = Pending | Running | Completed | Failed

  /** A row of discovered_devices with its port and fingerprint rows. */
  datatype Device = Device(detectedPort: Option<Port>, ports: seq<Port>, fingerprints: seq<Fingerprint>)

  /** A row of discovery_jobs with its devices by address text, and its history: `target` and `probes` are what the job was started for and what was recorded; no stored column holds them. */
  datatype Job = Job(
    status: Status,
    total: nat,
    processed: nat,
    responsive: nat,
    devices: map<string, Device>,
    target: seq<Addr>,
    probes: seq<Scan.Result>)

  // ---------- operations on one job row ----------

  function NewJob(target: seq<Addr>): Job { Job(Pending, |target|, 0, 0, map[], target, []) }

  function DeviceOf(openPorts: seq<Port>, fingerprints: seq<Fingerprint>): Device {
    var ports := NormalizedPorts(openPorts);
    Device(PreferredPort(ports), ports, NormalizedFingerprints(fingerprints))
  }

  /** RecordProbe: an empty address means an unresponsive one. Nothing is stored unless the job is running and the counters stay within the column checks. */
  function RecordProbe(job: Job, address: string, openPorts: seq<Port>, fingerprints: seq<Fingerprint>): Option<Job> {
    var found := if address != "" then 1 else 0;
    if job.status != Running || job.processed + 1 > job.total || job.responsive + found > job.total then None
    else
      Some(job.(processed := job.processed + 1,
                responsive := job.responsive + found,
                devices := if address != "" then job.devices[address := DeviceOf(openPorts, fingerprints)] else job.devices))
  }

  /** The callback of run: unresponsive results are recorded without an address. */
  function RecordResult(job: Job, r: Scan.Result): Option<Job> {
    var stored := if r.responsive then RecordProbe(job, TargetText.Dotted(r.address), r.openPorts, r.fingerprints)
                  else RecordProbe(job, "", [], []);
    match stored
    case None => None
    case Some(j) => Some(j.(probes := job.probes + [r]))
  }

  // ---------- the service ----------

  /** What the background goroutine of the one running scan is about to do. The flag `running` of the service is set in every phase but Free. */
  datatype Phase =
    | Free
    | Creating(target: seq<Addr>)
    | Starting(id: JobId)
    | Scanning(id: JobId, scan: Scan.State)
    | Completing(id: JobId)
    | Failing(id: JobId)

  datatype System = System(jobs: map<JobId, Job>, phase: Phase)

  datatype Setup = Setup(ports: seq<Port>, workers: nat, identity: Scan.Identity)

  function ConfigOf(setup: Setup, job: Job): Scan.Config {
    Scan.Config(job.target, setup.ports, setup.workers, setup.identity)
  }

  datatype Step =
    | Start(target: seq<Addr>)
    | CreateFailed
    | Created(id: JobId)
    | Unread(id: JobId)
    | MarkRunning(ok: bool)
    | Advance(step: Scan.Step)
    | Probe(ok: bool)
    | EndScan
    | Complete(ok: bool)
    | Fail(ok: bool)

  /** Any scan step but the consume call and the return, which touch the job. */
  predicate Internal(step: Scan.Step) { !step.Consume? && !step.Return? }

  predicate Enabled(u: Setup, s: System, step: Step) {
    match step
    case Start(target) => s.phase.Free? && 1 <= |target| <= MAXIMUM_ADDRESSES && Distinct(target)
    case CreateFailed => s.phase.Creating?
    case Created(id) => s.phase.Creating? && id !in s.jobs
    case Unread(id) => s.phase.Creating? && id !in s.jobs
    case MarkRunning(_) => s.phase.Starting? && s.phase.id in s.jobs
    case Advance(a) => s.phase.Scanning? && s.phase.id in s.jobs && Internal(a) && Scan.Enabled(ConfigOf(u, s.jobs[s.phase.id]), s.phase.scan, a)
    case Probe(ok) => s.phase.Scanning? && s.phase.id in s.jobs && s.phase.scan.consumer.Consuming?
                      && (ok ==> RecordResult(s.jobs[s.phase.id], s.phase.scan.consumer.result).Some?)
    case EndScan => s.phase.Scanning? && s.phase.id in s.jobs && Scan.Enabled(ConfigOf(u, s.jobs[s.phase.id]), s.phase.scan, Scan.Return)
    case Complete(_) => s.phase.Completing? && s.phase.id in s.jobs
    case Fail(_) => s.phase.Failing? && s.phase.id in s.jobs
  }

  /** A store call that fails leaves the tables as they were, but for an inserted job that could not be read back: its row stays, and no scan follows. */
  function Apply(u: Setup, s: System, step: Step): System
    requires Enabled(u, s, step)
  {
    match step
    case Start(target) => s.(phase := Creating(target))
    case CreateFailed => s.(phase := Free)
    case Created(id) => System(s.jobs[id := NewJob(s.phase.target)], Starting(id))
    case Unread(id) => System(s.jobs[id := NewJob(s.phase.target)], Free)
    case MarkRunning(ok) =>
      var id := s.phase.id;
      if ok then System(s.jobs[id := s.jobs[id].(status := Running)], Scanning(id, Scan.Initial(ConfigOf(u, s.jobs[id]))))
      else s.(phase := Failing(id))
    case Advance(a) =>
      s.(phase := Scanning(s.phase.id, Scan.Apply(ConfigOf(u, s.jobs[s.phase.id]), s.phase.scan, a)))
    case Probe(ok) =>
      var id := s.phase.id;
      var next := Scanning(id, Scan.Apply(ConfigOf(u, s.jobs[id]), s.phase.scan, Scan.Consume(ok)));
      if ok then System(s.jobs[id := RecordResult(s.jobs[id], s.phase.scan.consumer.result).value], next) else s.(phase := next)
    case EndScan =>
      var outcome := Scan.Apply(ConfigOf(u, s.jobs[s.phase.id]), s.phase.scan, Scan.Return).consumer.outcome;
      s.(phase := if outcome.Ok? then Completing(s.phase.id) else Failing(s.phase.id))
    case Complete(ok) => System(if ok then s.jobs[s.phase.id := s.jobs[s.phase.id].(status := Completed)] else s.jobs, Free)
    case Fail(ok) => System(if ok then s.jobs[s.phase.id := s.jobs[s.phase.id].(status := Failed)] else s.jobs, Free)
  }

  ghost predicate Run(u: Setup, states: seq<System>, steps: seq<Step>) {
    && |states| == |steps| + 1
    && forall i :: 0 <= i < |steps| ==> Enabled(u, states[i], steps[i]) && states[i + 1] == Apply(u, states[i], steps[i])
  }

  ghost predicate Reachable(u: Setup, s: System) {
    exists states, steps :: Run(u, states, steps) && states[0] == System(map[], Free) && states[|states| - 1] == s
  }

  ghost predicate ValidSetup(u: Setup) { u.workers >= 1 && (u.identity.Slotted? ==> u.identity.capacity >= 1) }

  // ---------- what a job row says ----------

  function AddressesOf(probes: seq<Scan.Result>): (a: seq<Addr>)
    ensures |a| == |probes| && forall i :: 0 <= i < |a| ==> a[i] == probes[i].address
  {
    seq(|probes|, i requires 0 <= i < |probes| => probes[i].address)
  }

  /** The texts of the responsive addresses among the probes. */
  function ResponsiveTexts(probes: seq<Scan.Result>): set<string> {
    set i | 0 <= i < |probes| && probes[i].responsive :: TargetText.Dotted(probes[i].address)
  }

  /** Every responsive probe has its device row. */
  ghost predicate DevicesHold(devices: map<string, Device>, probes: seq<Scan.Result>) {
    forall i :: 0 <= i < |probes| && probes[i].responsive ==> HoldsDevice(devices, probes[i])
  }

  ghost predicate HoldsDevice(devices: map<string, Device>, r: Scan.Result) {
    && TargetText.Dotted(r.address) in devices
    && devices[TargetText.Dotted(r.address)] == DeviceOf(r.openPorts, r.fingerprints)
  }

  predicate Distinct(s: seq<Addr>) { forall i, j :: 0 <= i < j < |s| ==> s[i] != s[j] }

  /** The counters count and the device rows are those of the responsive probes. */
  ghost predicate Faithful(j: Job) {
    && j.total == |j.target| && Distinct(j.target)
    && j.processed == |j.probes|
    && multiset(AddressesOf(j.probes)) <= multiset(j.target)
    && j.devices.Keys == ResponsiveTexts(j.probes)
    && DevicesHold(j.devices, j.probes)
    && j.responsive == |j.devices|
  }

  ghost predicate Whole(j: Job) { multiset(AddressesOf(j.probes)) == multiset(j.target) }

  /** The scan of the running job has been consumed into the row: every successful call is a recorded probe. */
  ghost predicate InStep(u: Setup, j: Job, scan: Scan.State) {
    && j.status == Running
    && ConfigOf(u, j).Valid() && Scan.Inv(ConfigOf(u, j), scan)
    && |j.probes| == |scan.calls| - (if scan.failed then 1 else 0)
    && forall i :: 0 <= i < |j.probes| ==> j.probes[i] == scan.calls[i].result
  }

  /** A recorded result is responsive exactly if it found an open port, and lists only ports that were probed. */
  ghost predicate SoundProbes(u: Setup, j: Job) {
    forall i :: 0 <= i < |j.probes| ==> Scan.SoundResult(ConfigOf(u, j), j.probes[i])
  }

  ghost predicate SoundJob(u: Setup, j: Job) {
    Faithful(j) && SoundProbes(u, j) && (j.status == Completed ==> Whole(j))
  }

  ghost predicate SoundPhase(u: Setup, s: System) {
    match s.phase
    case Free => true
    case Creating(target) => 1 <= |target| <= MAXIMUM_ADDRESSES && Distinct(target)
    case Starting(id) => id in s.jobs && s.jobs[id].status == Pending && 1 <= |s.jobs[id].target| <= MAXIMUM_ADDRESSES && s.jobs[id].probes == []
    case Scanning(id, scan) => id in s.jobs && InStep(u, s.jobs[id], scan)
    case Completing(id) => id in s.jobs && s.jobs[id].status == Running && Whole(s.jobs[id])
    case Failing(id) => id in s.jobs && s.jobs[id].status in {Pending, Running}
  }

  ghost predicate Inv(u: Setup, s: System) {
    (forall id :: id in s.jobs ==> SoundJob(u, s.jobs[id])) && SoundPhase(u, s)
  }

  // ---------- preservation ----------

  lemma NewJobSound(u: Setup, target: seq<Addr>)
    requires Distinct(target)
    ensures SoundJob(u, NewJob(target))
  {
  }

  lemma {:induction false} CountsOfDistinct(target: seq<Addr>, a: Addr)
    requires Distinct(target)
    ensures multiset(target)[a] <= 1
  {
    if target != [] {
      CountsOfDistinct(target[1..], a);
      assert target == [target[0]] + target[1..];
      if target[0] == a {
        assert a !in target[1..];
      }
    }
  }

  lemma RepeatedTwice(s: seq<Addr>, i: nat, j: nat)
    requires i < j < |s| && s[i] == s[j]
    ensures multiset(s)[s[i]] >= 2
  {
    assert s == s[..i] + [s[i]] + s[i + 1..j] + [s[j]] + s[j + 1..];
  }

  /** A result of a target without repetition is not on record yet, and neither is its text. */
  lemma NewResultIsNew(j: Job, r: Scan.Result)
    requires Distinct(j.target) && multiset(AddressesOf(j.probes + [r])) <= multiset(j.target)
    ensures TargetText.Dotted(r.address) !in ResponsiveTexts(j.probes)
  {
    var addresses := AddressesOf(j.probes + [r]);
    forall i | 0 <= i < |j.probes| ensures TargetText.Dotted(j.probes[i].address) != TargetText.Dotted(r.address) {
      if TargetText.Dotted(j.probes[i].address) == TargetText.Dotted(r.address) {
        TargetText.DottedInjective(j.probes[i].address, r.address);
        assert addresses[i] == addresses[|j.probes|];
        RepeatedTwice(addresses, i, |j.probes|);
        CountsOfDistinct(j.target, r.address);
      }
    }
  }

  lemma ResponsiveTextsGrow(probes: seq<Scan.Result>, r: Scan.Result)
    ensures ResponsiveTexts(probes + [r]) == ResponsiveTexts(probes) + (if r.responsive then {TargetText.Dotted(r.address)} else {})
  {
    hide TargetText.Dotted;
    var more := probes + [r];
    assert more[|probes|] == r && forall i :: 0 <= i < |probes| ==> more[i] == probes[i];
  }

  /** What a recorded result changes in the row. */
  lemma RecordEffect(j: Job, r: Scan.Result)
    requires RecordResult(j, r).Some?
    ensures var k := RecordResult(j, r).value;
            && k.status == j.status == Running && k.total == j.total && k.target == j.target
            && k.processed == j.processed + 1 && k.probes == j.probes + [r]
            && k.responsive == j.responsive + (if r.responsive then 1 else 0)
            && k.devices == if r.responsive then j.devices[TargetText.Dotted(r.address) := DeviceOf(r.openPorts, r.fingerprints)] else j.devices
  {
    TargetText.DottedShape(r.address);
    hide TargetText.Dotted, DeviceOf;
  }

  lemma DevicesKeepHolding(devices: map<string, Device>, probes: seq<Scan.Result>, r: Scan.Result)
    requires DevicesHold(devices, probes) && TargetText.Dotted(r.address) !in devices
    ensures DevicesHold(devices[TargetText.Dotted(r.address) := DeviceOf(r.openPorts, r.fingerprints)], probes + [r])
    ensures !r.responsive ==> DevicesHold(devices, probes + [r])
  {
    hide TargetText.Dotted, DeviceOf;
    var more := probes + [r];
    var grown := devices[TargetText.Dotted(r.address) := DeviceOf(r.openPorts, r.fingerprints)];
    forall i | 0 <= i < |more| && more[i].responsive ensures HoldsDevice(grown, more[i]) && (!r.responsive ==> HoldsDevice(devices, more[i])) {
      assert i < |probes| ==> more[i] == probes[i] && HoldsDevice(devices, probes[i]);
    }
  }

  /** Recording one more result of a distinct target keeps the row faithful. */
  lemma RecordKeepsFaithful(j: Job, r: Scan.Result)
    requires Faithful(j) && multiset(AddressesOf(j.probes + [r])) <= multiset(j.target)
    requires RecordResult(j, r).Some?
    ensures Faithful(RecordResult(j, r).value)
  {
    hide TargetText.Dotted, ResponsiveTexts, DeviceOf, AddressesOf, RecordResult, DevicesHold;
    NewResultIsNew(j, r);
    ResponsiveTextsGrow(j.probes, r);
    RecordEffect(j, r);
    DevicesKeepHolding(j.devices, j.probes, r);
    var k := RecordResult(j, r).value;
    if r.responsive {
      assert k.devices.Keys == j.devices.Keys + {TargetText.Dotted(r.address)};
      assert |k.devices| == |j.devices| + 1;
    }
  }

  lemma ProbeKeepsSound(u: Setup, j: Job, r: Scan.Result)
    requires SoundProbes(u, j) && Scan.SoundResult(ConfigOf(u, j), r) && RecordResult(j, r).Some?
    ensures SoundProbes(u, RecordResult(j, r).value) && ConfigOf(u, RecordResult(j, r).value) == ConfigOf(u, j)
  {
    hide Scan.SoundResult, RecordResult;
    RecordEffect(j, r);
  }

  /** One more consumed result, recorded, keeps row and scan in step. */
  lemma RecordingKeepsInStep(u: Setup, j: Job, scan: Scan.State)
    requires SoundJob(u, j) && InStep(u, j, scan) && scan.consumer.Consuming? && RecordResult(j, scan.consumer.result).Some?
    ensures Scan.Enabled(ConfigOf(u, j), scan, Scan.Consume(true))
    ensures var next := Scan.Apply(ConfigOf(u, j), scan, Scan.Consume(true));
            var k := RecordResult(j, scan.consumer.result).value;
            SoundJob(u, k) && InStep(u, k, next)
  {
    var c, r := ConfigOf(u, j), scan.consumer.result;
    Scan.ConsumeEffect(c, scan, true);
    Scan.InvStep(c, scan, Scan.Consume(true));
    var next := Scan.Apply(c, scan, Scan.Consume(true));
    assert !scan.failed && Scan.SoundResult(c, r) && Scan.Accounting(c, next);
    hide RecordResult, Faithful, Scan.Inv, Scan.Accounting, Scan.SoundResult, SoundProbes, Scan.Apply, Scan.Enabled;
    assert AddressesOf(j.probes + [r]) == Scan.Consumed(next.calls);
    ConsumedWithinTarget(c, next);
    assert multiset(AddressesOf(j.probes + [r])) <= multiset(j.target);
    RecordKeepsFaithful(j, r);
    ProbeKeepsSound(u, j, r);
    RecordEffect(j, r);
  }

  /** A result that could not be recorded ends the scan and leaves the row. */
  lemma FailureKeepsInStep(u: Setup, j: Job, scan: Scan.State)
    requires InStep(u, j, scan) && scan.consumer.Consuming?
    ensures Scan.Enabled(ConfigOf(u, j), scan, Scan.Consume(false))
    ensures InStep(u, j, Scan.Apply(ConfigOf(u, j), scan, Scan.Consume(false)))
  {
    Scan.ConsumeEffect(ConfigOf(u, j), scan, false);
    Scan.InvStep(ConfigOf(u, j), scan, Scan.Consume(false));
    assert !scan.failed;
    hide Scan.Inv, Scan.Apply, Scan.Enabled;
  }

  lemma AdvanceKeepsInStep(u: Setup, j: Job, scan: Scan.State, a: Scan.Step)
    requires InStep(u, j, scan) && Internal(a) && Scan.Enabled(ConfigOf(u, j), scan, a)
    ensures InStep(u, j, Scan.Apply(ConfigOf(u, j), scan, a))
  {
    hide Scan.Inv, Scan.Enabled, Scan.Apply;
    Scan.InvStep(ConfigOf(u, j), scan, a);
    Scan.InternalStepKeepsCalls(ConfigOf(u, j), scan, a);
  }

  lemma ConsumedWithinTarget(c: Scan.Config, s: Scan.State)
    requires Scan.Accounting(c, s)
    ensures multiset(Scan.Consumed(s.calls)) <= multiset(c.addresses)
  {
    assert c.addresses == c.addresses[..s.fed] + c.addresses[s.fed..];
    forall a ensures multiset(Scan.Consumed(s.calls))[a] <= multiset(c.addresses)[a] {
      assert Scan.Places(s, a) == multiset(c.addresses[..s.fed])[a];
    }
  }

  /** A scan that returns nil has recorded every address. */
  lemma NilScanIsWhole(u: Setup, j: Job, scan: Scan.State)
    requires InStep(u, j, scan) && Scan.Enabled(ConfigOf(u, j), scan, Scan.Return)
    requires Scan.Apply(ConfigOf(u, j), scan, Scan.Return).consumer.outcome.Ok?
    ensures Whole(j)
  {
    var c := ConfigOf(u, j);
    var next := Scan.Apply(c, scan, Scan.Return);
    Scan.InvStep(c, scan, Scan.Return);
    Scan.FinishedOkIsComplete(c, next);
    assert AddressesOf(j.probes) == Scan.Consumed(next.calls);
  }

  lemma CreationKeepsInv(u: Setup, s: System, step: Step)
    requires Inv(u, s) && Enabled(u, s, step) && (step.Start? || step.CreateFailed? || step.Created? || step.Unread?)
    ensures Inv(u, Apply(u, s, step))
  {
    hide SoundJob, Scan.Inv, Scan.Enabled, Scan.Apply, RecordResult;
    if step.Created? || step.Unread? {
      NewJobSound(u, s.phase.target);
    }
  }

  lemma MarkRunningKeepsInv(u: Setup, s: System, ok: bool)
    requires ValidSetup(u) && Inv(u, s) && Enabled(u, s, MarkRunning(ok))
    ensures Inv(u, Apply(u, s, MarkRunning(ok)))
  {
    var j := s.jobs[s.phase.id];
    assert SoundJob(u, j);
    StatusKeepsSound(u, j, Running);
    hide SoundJob;
    Scan.InitialHolds(ConfigOf(u, j));
    hide Scan.Inv, Scan.Enabled, Scan.Apply, RecordResult, Whole;
  }

  lemma EndKeepsInv(u: Setup, s: System, step: Step)
    requires Inv(u, s) && Enabled(u, s, step) && (step.Complete? || step.Fail?)
    ensures Inv(u, Apply(u, s, step))
  {
    hide SoundJob, Scan.Inv, Scan.Enabled, Scan.Apply, RecordResult, Whole, InStep;
    var j := s.jobs[s.phase.id];
    StatusKeepsSound(u, j, if step.Complete? then Completed else Failed);
  }

  lemma StatusKeepsSound(u: Setup, j: Job, status: Status)
    requires SoundJob(u, j)
    ensures status != Completed || Whole(j) ==> SoundJob(u, j.(status := status))
    ensures ConfigOf(u, j.(status := status)) == ConfigOf(u, j) && (Whole(j.(status := status)) <==> Whole(j))
  {
    hide Scan.SoundResult;
  }

  lemma AdvanceKeepsInv(u: Setup, s: System, a: Scan.Step)
    requires Inv(u, s) && Enabled(u, s, Advance(a))
    ensures Inv(u, Apply(u, s, Advance(a)))
  {
    hide SoundJob, InStep, Scan.Enabled, Scan.Apply, RecordResult;
    AdvanceKeepsInStep(u, s.jobs[s.phase.id], s.phase.scan, a);
  }

  lemma ProbeKeepsInv(u: Setup, s: System, ok: bool)
    requires Inv(u, s) && Enabled(u, s, Probe(ok))
    ensures Inv(u, Apply(u, s, Probe(ok)))
  {
    hide SoundJob, InStep, Scan.Enabled, Scan.Apply, RecordResult;
    var j := s.jobs[s.phase.id];
    if ok {
      RecordingKeepsInStep(u, j, s.phase.scan);
    } else {
      FailureKeepsInStep(u, j, s.phase.scan);
    }
  }

  lemma EndScanKeepsInv(u: Setup, s: System)
    requires Inv(u, s) && Enabled(u, s, EndScan)
    ensures Inv(u, Apply(u, s, EndScan))
  {
    hide SoundJob, InStep, Scan.Enabled, Scan.Apply, RecordResult, Whole;
    ScanOutcome(u, s.jobs[s.phase.id], s.phase.scan);
  }

  lemma ScanOutcome(u: Setup, j: Job, scan: Scan.State)
    requires InStep(u, j, scan) && Scan.Enabled(ConfigOf(u, j), scan, Scan.Return)
    ensures var consumer := Scan.Apply(ConfigOf(u, j), scan, Scan.Return).consumer;
            j.status == Running && consumer.Finished? && (consumer.outcome.Ok? ==> Whole(j))
  {
    if Scan.Apply(ConfigOf(u, j), scan, Scan.Return).consumer.outcome.Ok? {
      NilScanIsWhole(u, j, scan);
    }
  }

  lemma InvStep(u: Setup, s: System, step: Step)
    requires ValidSetup(u) && Inv(u, s) && Enabled(u, s, step)
    ensures Inv(u, Apply(u, s, step))
  {
    hide Inv, Enabled, Apply;
    match step {
      case Start(_) => CreationKeepsInv(u, s, step);
      case CreateFailed => CreationKeepsInv(u, s, step);
      case Created(_) => CreationKeepsInv(u, s, step);
      case Unread(_) => CreationKeepsInv(u, s, step);
      case MarkRunning(ok) => MarkRunningKeepsInv(u, s, ok);
      case Complete(_) => EndKeepsInv(u, s, step);
      case Fail(_) => EndKeepsInv(u, s, step);
      case Advance(a) => AdvanceKeepsInv(u, s, a);
      case Probe(ok) => ProbeKeepsInv(u, s, ok);
      case EndScan => EndScanKeepsInv(u, s);
    }
  }

  lemma {:induction false} RunKeepsInv(u: Setup, states: seq<System>, steps: seq<Step>)
    requires ValidSetup(u) && Run(u, states, steps) && Inv(u, states[0])
    ensures Inv(u, states[|states| - 1])
  {
    if steps != [] {
      InvStep(u, states[0], steps[0]);
      RunKeepsInv(u, states[1..], steps[1..]);
    }
  }

  // ---------- end to end ----------

  lemma ReachableInv(u: Setup, s: System)
    requires ValidSetup(u) && Reachable(u, s)
    ensures Inv(u, s)
  {
    hide Enabled, Apply;
    var states, steps :| Run(u, states, steps) && states[0] == System(map[], Free) && states[|states| - 1] == s;
    RunKeepsInv(u, states, steps);
  }

  /**
    * In every reachable state the row counts its device rows and its probes; there is a device row for exactly the
    * responsive probes, with their normalised ports and fingerprints, and responsive means that an open port was
    * found; and a completed job has recorded each address of its target once.
    */
  lemma JobsAreFaithful(u: Setup, s: System, id: JobId)
    requires ValidSetup(u) && Reachable(u, s) && id in s.jobs
    ensures var j := s.jobs[id];
            && j.responsive == |j.devices| <= j.processed <= j.total
            && j.devices.Keys == ResponsiveTexts(j.probes) && DevicesHold(j.devices, j.probes)
            && (forall i :: 0 <= i < |j.probes| ==> (j.probes[i].responsive <==> j.probes[i].openPorts != []))
            && (j.status == Completed ==> j.processed == j.total && multiset(AddressesOf(j.probes)) == multiset(j.target))
  {
    hide Reachable, ResponsiveTexts, DevicesHold, AddressesOf;
    ReachableInv(u, s);
    var j := s.jobs[id];
    assert SoundJob(u, j);
    forall i | 0 <= i < |j.probes| ensures j.probes[i].responsive <==> j.probes[i].openPorts != [] {
      assert Scan.SoundResult(ConfigOf(u, j), j.probes[i]);
    }
    hide SoundPhase;
    assert |multiset(AddressesOf(j.probes))| == |j.probes| && |multiset(j.target)| == |j.target|;
    ResponsiveAtMostProbed(j.probes);
    SubmultisetSize(multiset(AddressesOf(j.probes)), multiset(j.target));
  }

  lemma SubmultisetSize(a: multiset<Addr>, b: multiset<Addr>)
    requires a <= b
    ensures |a| <= |b|
  {
    assert b == a + (b - a);
  }

  lemma {:induction false} ResponsiveAtMostProbed(probes: seq<Scan.Result>)
    ensures |ResponsiveTexts(probes)| <= |probes|
  {
    if probes != [] {
      var front, last := probes[..|probes| - 1], probes[|probes| - 1];
      ResponsiveAtMostProbed(front);
      assert probes == front + [last];
      ResponsiveTextsGrow(front, last);
      hide ResponsiveTexts, TargetText.Dotted;
      assert |ResponsiveTexts(front) + {TargetText.Dotted(last.address)}| <= |ResponsiveTexts(front)| + 1;
    }
  }

  /** One scan at a time: a step touches no job but the one the service is busy with, and leaves it once it has ended. */
  lemma StepTouchesOwnJob(u: Setup, s: System, step: Step, id: JobId)
    requires ValidSetup(u) && Inv(u, s) && Enabled(u, s, step) && id in s.jobs
    ensures var t := Apply(u, s, step);
            && id in t.jobs
            && (t.jobs[id] != s.jobs[id] ==> !s.phase.Free? && !s.phase.Creating? && s.phase.id == id)
            && (s.jobs[id].status in {Completed, Failed} ==> t.jobs[id] == s.jobs[id])
  {
    hide SoundJob, Scan.Inv, Scan.Enabled, Scan.Apply, RecordResult, Whole;
  }

  lemma RunStep(u: Setup, states: seq<System>, steps: seq<Step>, k: nat)
    requires Run(u, states, steps) && k + 1 < |states|
    ensures k < |steps| && Enabled(u, states[k], steps[k]) && states[k + 1] == Apply(u, states[k], steps[k])
  {
    hide Enabled, Apply;
  }

  lemma RunReaches(u: Setup, states: seq<System>, steps: seq<Step>, k: nat)
    requires Run(u, states, steps) && states[0] == System(map[], Free) && k < |states|
    ensures Reachable(u, states[k])
  {
    hide Enabled, Apply;
    var front, taken := states[..k + 1], steps[..k];
    assert Run(u, front, taken) && front[|front| - 1] == states[k];
  }

  /** In every run a job that has completed or failed is the same row ever after. */
  lemma {:induction false} FinishedJobsRest(u: Setup, states: seq<System>, steps: seq<Step>, i: nat, k: nat, id: JobId)
    requires ValidSetup(u) && Run(u, states, steps) && states[0] == System(map[], Free)
    requires i <= k < |states| == |steps| + 1 && id in states[i].jobs && states[i].jobs[id].status in {Completed, Failed}
    ensures id in states[k].jobs && states[k].jobs[id] == states[i].jobs[id]
  {
    hide Inv, Enabled, Apply, Reachable, Run;
    if i < k {
      FinishedJobsRest(u, states, steps, i, k - 1, id);
      var s, step := states[k - 1], steps[k - 1];
      RunReaches(u, states, steps, k - 1);
      RunStep(u, states, steps, k - 1);
      ReachableInv(u, s);
      StepTouchesOwnJob(u, s, step, id);
    }
  }

  /** The column checks never get in the way of a scan: recording the result in the consumer's hands is always possible. */
  lemma RecordingFits(u: Setup, s: System)
    requires ValidSetup(u) && Inv(u, s) && s.phase.Scanning? && s.phase.scan.consumer.Consuming?
    ensures RecordResult(s.jobs[s.phase.id], s.phase.scan.consumer.result).Some?
  {
    var j, scan := s.jobs[s.phase.id], s.phase.scan;
    assert SoundJob(u, j) && InStep(u, j, scan);
    hide SoundJob, InStep, RecordResult;
    RoomForOneMore(u, j, scan);
    RecordWithRoom(j, scan.consumer.result);
  }

  lemma RecordWithRoom(j: Job, r: Scan.Result)
    requires j.status == Running && j.processed + 1 <= j.total && j.responsive <= j.processed
    ensures RecordResult(j, r).Some?
  {
    hide TargetText.Dotted, DeviceOf;
  }

  lemma RoomForOneMore(u: Setup, j: Job, scan: Scan.State)
    requires SoundJob(u, j) && InStep(u, j, scan) && scan.consumer.Consuming?
    ensures j.status == Running && j.processed + 1 <= j.total && j.responsive <= j.processed
  {
    var c := ConfigOf(u, j);
    Scan.InvStep(c, scan, Scan.Consume(true));
    var next := Scan.Apply(c, scan, Scan.Consume(true));
    assert Scan.Accounting(c, next) && !scan.failed;
    hide Scan.Inv, Scan.Accounting, ResponsiveTexts, SoundProbes;
    ConsumedWithinTarget(c, next);
    SubmultisetSize(multiset(Scan.Consumed(next.calls)), multiset(c.addresses));
    assert |multiset(Scan.Consumed(next.calls))| == |next.calls|;
    ResponsiveAtMostProbed(j.probes);
  }

  /** Every accepted target text can be scanned: its addresses are distinct and not too many. */
  lemma AcceptedTargetsCanStart(u: Setup, s: System, value: string, v6: TargetText.V6Parser)
    requires s.phase.Free?
    ensures match TargetText.ParseTarget(value, v6)
            case None => true
            case Some(target) => Enabled(u, s, Start(target.addresses))
  {
    hide TargetText.ParseTarget, TargetText.Dotted;
    TargetText.AcceptedTargetIsBounded(value, v6);
    TargetText.AcceptedTargetHasDistinctTexts(value, v6);
  }

  // ---------- what a completed job says about the network ----------

  /** Every recorded probe is a whole one. */
  ghost predicate AllFull(u: Setup, net: Scan.Network, j: Job) {
    forall i :: 0 <= i < |j.probes| ==> Scan.FullResult(ConfigOf(u, j), net, j.probes[i])
  }

  /** The probes of the scan report what the network answers. */
  ghost predicate Honest(u: Setup, s: System, step: Step, net: Scan.Network)
    requires Enabled(u, s, step)
  {
    step.Advance? ==> Scan.Honest(ConfigOf(u, s.jobs[s.phase.id]), s.phase.scan, step.step, net)
  }

  ghost predicate Told(u: Setup, net: Scan.Network, s: System) {
    && (forall id :: id in s.jobs && s.jobs[id].status == Completed ==> AllFull(u, net, s.jobs[id]))
    && match s.phase
       case Scanning(id, scan) => id in s.jobs && Scan.Truthful(ConfigOf(u, s.jobs[id]), net, scan)
       case Completing(id) => id in s.jobs && AllFull(u, net, s.jobs[id])
       case _ => true
  }

  /** A scan that ended well handed whole results to the job. */
  lemma NilScanIsFull(u: Setup, net: Scan.Network, j: Job, scan: Scan.State)
    requires InStep(u, j, scan) && Scan.Truthful(ConfigOf(u, j), net, scan) && Scan.Enabled(ConfigOf(u, j), scan, Scan.Return)
    requires Scan.Apply(ConfigOf(u, j), scan, Scan.Return).consumer.outcome.Ok?
    ensures AllFull(u, net, j)
  {
    hide Scan.FullResult, Scan.PartialResult;
    assert !scan.failed && !scan.cancelled;
  }

  lemma ConsumeIsHonest(c: Scan.Config, scan: Scan.State, step: Scan.Step, net: Scan.Network)
    requires Scan.Enabled(c, scan, step) && (step.Consume? || step.Return?)
    ensures Scan.Honest(c, scan, step, net)
  {
  }

  lemma AdvanceTells(u: Setup, net: Scan.Network, s: System, a: Scan.Step)
    requires Told(u, net, s) && Enabled(u, s, Advance(a)) && Honest(u, s, Advance(a), net)
    ensures Told(u, net, Apply(u, s, Advance(a)))
  {
    hide AllFull, Scan.Truthful, Scan.Enabled, Scan.Apply, Scan.Honest, RecordResult;
    Scan.TruthfulStep(ConfigOf(u, s.jobs[s.phase.id]), net, s.phase.scan, a);
  }

  lemma ProbeTells(u: Setup, net: Scan.Network, s: System, ok: bool)
    requires Inv(u, s) && Told(u, net, s) && Enabled(u, s, Probe(ok))
    ensures Told(u, net, Apply(u, s, Probe(ok)))
  {
    hide SoundJob, AllFull, Scan.Truthful, Scan.Enabled, Scan.Apply, RecordResult, Scan.Inv;
    var j, scan := s.jobs[s.phase.id], s.phase.scan;
    var c := ConfigOf(u, j);
    assert j.status == Running;
    Scan.ConsumeEffect(c, scan, ok);
    ConsumeIsHonest(c, scan, Scan.Consume(ok), net);
    Scan.TruthfulStep(c, net, scan, Scan.Consume(ok));
    hide InStep;
    if ok {
      RecordEffect(j, scan.consumer.result);
    }
  }

  lemma EndScanTells(u: Setup, net: Scan.Network, s: System)
    requires Inv(u, s) && Told(u, net, s) && Enabled(u, s, EndScan)
    ensures Told(u, net, Apply(u, s, EndScan))
  {
    var j, scan := s.jobs[s.phase.id], s.phase.scan;
    assert InStep(u, j, scan);
    hide SoundJob, InStep, AllFull, Scan.Truthful, Scan.Enabled, Scan.Apply, RecordResult;
    ScanOutcome(u, j, scan);
    if Scan.Apply(ConfigOf(u, j), scan, Scan.Return).consumer.outcome.Ok? {
      NilScanIsFull(u, net, j, scan);
    }
  }

  lemma StatusStepTells(u: Setup, net: Scan.Network, s: System, step: Step)
    requires Inv(u, s) && Told(u, net, s) && Enabled(u, s, step) && !step.Advance? && !step.Probe? && !step.EndScan?
    ensures Told(u, net, Apply(u, s, step))
  {
    hide SoundJob, InStep, Scan.FullResult, Scan.Enabled, Scan.Apply, RecordResult;
    if step.MarkRunning? {
      Scan.InitialIsTruthful(ConfigOf(u, s.jobs[s.phase.id]), net);
    }
    hide Scan.Truthful;
  }

  lemma TellStep(u: Setup, net: Scan.Network, s: System, step: Step)
    requires Inv(u, s) && Told(u, net, s) && Enabled(u, s, step) && Honest(u, s, step, net)
    ensures Told(u, net, Apply(u, s, step))
  {
    hide Inv, Told, Enabled, Apply, Honest;
    if step.Advance? {
      AdvanceTells(u, net, s, step.step);
    } else if step.Probe? {
      ProbeTells(u, net, s, step.ok);
    } else if step.EndScan? {
      EndScanTells(u, net, s);
    } else {
      StatusStepTells(u, net, s, step);
    }
  }

  ghost predicate HonestRun(u: Setup, states: seq<System>, steps: seq<Step>, net: Scan.Network) {
    Run(u, states, steps) && forall i :: 0 <= i < |steps| ==> Honest(u, states[i], steps[i], net)
  }

  lemma {:induction false} HonestRunsTell(u: Setup, states: seq<System>, steps: seq<Step>, net: Scan.Network)
    requires ValidSetup(u) && HonestRun(u, states, steps, net) && states[0] == System(map[], Free)
    ensures Inv(u, states[|states| - 1]) && Told(u, net, states[|states| - 1])
  {
    hide Enabled, Apply, Honest;
    if steps != [] {
      var n := |steps| - 1;
      assert HonestRun(u, states[..n + 1], steps[..n], net);
      HonestRunsTell(u, states[..n + 1], steps[..n], net);
      hide Inv, Told;
      TellStep(u, net, states[n], steps[n]);
      InvStep(u, states[n], steps[n]);
    }
  }

  /** The addresses of a target on which a scanned port is open. */
  ghost predicate Answers(u: Setup, net: Scan.Network, j: Job, a: Addr) { a in j.target && Scan.OpenPorts(net, a, u.ports) != [] }

  /** The device row of an address: its open ports, and the fingerprints it presents if anybody asks. */
  function DeviceAt(u: Setup, net: Scan.Network, a: Addr): Device {
    var ports := Scan.OpenPorts(net, a, u.ports);
    var stored := NormalizedPorts(ports);
    Device(PreferredPort(stored), stored, NormalizedFingerprints(if u.identity.NoProbe? then [] else net.prints(a, ports)))
  }

  /**
    * End to end: a completed job has a device row for exactly the target addresses with an open scanned port, and the
    * row holds all their open ports and their fingerprints, whatever the interleaving was.
    */
  lemma CompletedJobsTellTheNetwork(u: Setup, states: seq<System>, steps: seq<Step>, net: Scan.Network, id: JobId)
    requires ValidSetup(u) && HonestRun(u, states, steps, net) && states[0] == System(map[], Free)
    requires id in states[|states| - 1].jobs && states[|states| - 1].jobs[id].status == Completed
    ensures var j := states[|states| - 1].jobs[id];
            && (forall a :: Answers(u, net, j, a) ==>
                  TargetText.Dotted(a) in j.devices && j.devices[TargetText.Dotted(a)] == DeviceAt(u, net, a))
            && (forall text :: text in j.devices ==> exists a :: Answers(u, net, j, a) && text == TargetText.Dotted(a))
  {
    HonestRunsTell(u, states, steps, net);
    var j := states[|states| - 1].jobs[id];
    assert SoundJob(u, j) && Faithful(j) && Whole(j) && AllFull(u, net, j);
    hide Run, HonestRun, SoundPhase, NormalizedPorts, NormalizedFingerprints, PreferredPort, TargetText.Dotted, AddressesOf, ResponsiveTexts, Scan.OpenPorts;
    forall a | Answers(u, net, j, a)
      ensures TargetText.Dotted(a) in j.devices && j.devices[TargetText.Dotted(a)] == DeviceAt(u, net, a)
    {
      var i := ProbeOf(j, a);
      assert Scan.FullResult(ConfigOf(u, j), net, j.probes[i]);
      assert HoldsDevice(j.devices, j.probes[i]);
    }
    forall text | text in j.devices ensures exists a :: Answers(u, net, j, a) && text == TargetText.Dotted(a) {
      var i := ProbeOfText(j, text);
      assert Scan.FullResult(ConfigOf(u, j), net, j.probes[i]);
      assert Answers(u, net, j, j.probes[i].address);
    }
  }

  lemma ProbeOf(j: Job, a: Addr) returns (i: nat)
    requires Whole(j) && a in j.target
    ensures i < |j.probes| && j.probes[i].address == a
  {
    var addresses := AddressesOf(j.probes);
    assert a in multiset(addresses);
    i :| 0 <= i < |addresses| && addresses[i] == a;
  }

  lemma ProbeOfText(j: Job, text: string) returns (i: nat)
    requires Faithful(j) && text in j.devices
    ensures i < |j.probes| && j.probes[i].responsive && text == TargetText.Dotted(j.probes[i].address) && j.probes[i].address in j.target
  {
    hide TargetText.Dotted, DevicesHold;
    assert text in ResponsiveTexts(j.probes);
    i :| 0 <= i < |j.probes| && j.probes[i].responsive && text == TargetText.Dotted(j.probes[i].address);
    assert AddressesOf(j.probes)[i] == j.probes[i].address;
    assert j.probes[i].address in multiset(AddressesOf(j.probes));
    assert j.probes[i].address in multiset(j.target);
  }

  // ---------- the job table ----------

  /** The stored columns and child rows of a job. */
  datatype Row = Row(status: Status, total: nat, processed: nat, responsive: nat, devices: map<string, Device>)

  function StoredRow(j: Job): Row { Row(j.status, j.total, j.processed, j.responsive, j.devices) }

  /** How the insert of a job and the read-back of its row go. */
  datatype InsertAnswer = Inserted | InsertFailed | ReadBackFailed

  /** The statements of the discovery store on the job and device tables; a transaction that fails changes nothing. */
  class Store {
    var rows: map<JobId, Row>
    var nextId: JobId
    ghost var jobs: map<JobId, Job>

    ghost predicate Valid()
      reads this
    {
      rows.Keys == jobs.Keys && forall id :: id in jobs ==> id < nextId && rows[id] == StoredRow(jobs[id])
    }

    constructor ()
      ensures Valid() && jobs == map[]
    {
      rows, nextId, jobs := map[], 1, map[];
    }

    /** CreateJob: insert, then read the row back outside any transaction. */
    method CreateJob(total: nat, answer: InsertAnswer, ghost target: seq<Addr>) returns (r: Option<JobId>)
      requires Valid() && total == |target|
      modifies this
      ensures Valid() && old(nextId) !in old(jobs)
      ensures r == if answer.Inserted? then Some(old(nextId)) else None
      ensures jobs == if answer.InsertFailed? then old(jobs) else old(jobs)[old(nextId) := NewJob(target)]
    {
      if answer.InsertFailed? {
        return None;
      }
      var id := nextId;
      rows := rows[id := Row(Pending, total, 0, 0, map[])];
      jobs := jobs[id := NewJob(target)];
      nextId := nextId + 1;
      return if answer.Inserted? then Some(id) else None;
    }

    /** updateJobStatus: whatever the status was; only a missing row is an error. */
    method UpdateJobStatus(id: JobId, status: Status) returns (ok: bool)
      requires Valid()
      modifies `rows, `jobs
      ensures Valid() && ok == (id in old(jobs))
      ensures jobs == if ok then old(jobs)[id := old(jobs)[id].(status := status)] else old(jobs)
    {
      if id !in rows {
        return false;
      }
      rows := rows[id := rows[id].(status := status)];
      jobs := jobs[id := jobs[id].(status := status)];
      return true;
    }

    /** RecordProbe: the device row first, then the counters of the running job, all or nothing. */
    method StoreProbe(id: JobId, address: string, openPorts: seq<Port>, fingerprints: seq<Fingerprint>) returns (ok: bool)
      requires Valid()
      modifies `rows, `jobs
      ensures Valid()
      ensures ok <==> id in old(jobs) && RecordProbe(old(jobs)[id], address, openPorts, fingerprints).Some?
      ensures jobs == if ok then old(jobs)[id := RecordProbe(old(jobs)[id], address, openPorts, fingerprints).value] else old(jobs)
    {
      hide NormalizedPorts, NormalizedFingerprints, PreferredPort;
      if id !in rows {
        return false;
      }
      var row := rows[id];
      var responsive := 0;
      if address != "" {
        responsive := 1;
        var ports := NormalizePorts(openPorts);
        var kept := NormalizeFingerprints(fingerprints);
        row := row.(devices := row.devices[address := Device(PreferredPort(ports), ports, kept)]);
      }
      if row.status != Running || row.processed + 1 > row.total || row.responsive + responsive > row.total {
        return false;
      }
      rows := rows[id := row.(processed := row.processed + 1, responsive := row.responsive + responsive)];
      jobs := jobs[id := RecordProbe(jobs[id], address, openPorts, fingerprints).value];
      return true;
    }

    /** The callback of run: an unresponsive address is recorded without its text. */
    method StoreResult(id: JobId, result: Scan.Result) returns (ok: bool)
      requires Valid() && id in jobs
      modifies `rows, `jobs
      ensures Valid()
      ensures ok <==> RecordResult(old(jobs)[id], result).Some?
      ensures jobs == if ok then old(jobs)[id := RecordResult(old(jobs)[id], result).value] else old(jobs)
    {
      hide TargetText.Dotted, DeviceOf;
      if result.responsive {
        ok := StoreProbe(id, TargetText.Dotted(result.address), result.openPorts, result.fingerprints);
      } else {
        ok := StoreProbe(id, "", [], []);
      }
      if ok {
        jobs := jobs[id := jobs[id].(probes := jobs[id].probes + [result])];
      }
    }
  }

  // ---------- the service's own operations ----------

  datatype StartError = InvalidTarget | SensitiveTarget | ScanInProgress | StoreFailed

  datatype StartResult = Started(id: JobId) | Refused(error: StartError)

  predicate TouchesSensitive(addresses: seq<Addr>, sensitive: Addr -> bool) { exists i :: 0 <= i < |addresses| && sensitive(addresses[i]) }

  /** The running flag and the tables; where the background goroutine stands is known to the proof only. */
  class Service {
    const store: Store
    const setup: Setup
    const allowSensitiveTargets: bool
    var running: bool
    ghost var phase: Phase

    ghost predicate Valid()
      reads this, store
    {
      store.Valid() && (running <==> !phase.Free?)
    }

    /** The state is one that the theorems about all runs speak of. */
    ghost predicate Sound()
      reads this, store
    {
      ValidSetup(setup) && Inv(setup, View())
    }

    ghost function View(): System
      reads this, store
    {
      System(store.jobs, phase)
    }

    twostate predicate Did(step: Step)
      reads this, store
    {
      && Enabled(setup, old(View()), step) && View() == Apply(setup, old(View()), step)
      && (old(Sound()) ==> Sound())
    }

    twostate lemma Done(step: Step)
      requires Enabled(setup, old(View()), step) && View() == Apply(setup, old(View()), step)
      ensures Did(step)
    {
      hide Inv, Enabled, Apply;
      if old(Sound()) {
        InvStep(setup, old(View()), step);
      }
    }

    constructor (setup: Setup, allowSensitiveTargets: bool)
      ensures Valid() && fresh(store) && View() == System(map[], Free) && (ValidSetup(setup) ==> Sound())
      ensures this.setup == setup && this.allowSensitiveTargets == allowSensitiveTargets
    {
      store := new Store();
      this.setup, this.allowSensitiveTargets := setup, allowSensitiveTargets;
      running, phase := false, Free;
    }

    /** Parse, screen, claim the flag, create the row; the flag goes back if the row is not there or cannot be read. */
    method Start(value: string, v6: TargetText.V6Parser, sensitive: Addr -> bool, answer: InsertAnswer) returns (r: StartResult)
      requires Valid()
      modifies this, store
      ensures Valid() && (old(Sound()) ==> Sound())
      ensures match TargetText.ParseTarget(value, v6)
              case None => r == Refused(InvalidTarget) && View() == old(View())
              case Some(target) =>
                if !allowSensitiveTargets && TouchesSensitive(target.addresses, sensitive) then r == Refused(SensitiveTarget) && View() == old(View())
                else if old(running) then r == Refused(ScanInProgress) && View() == old(View())
                else
                  var id, created := old(store.nextId), old(store.jobs)[old(store.nextId) := NewJob(target.addresses)];
                  id !in old(store.jobs)
                  && (match answer
                      case Inserted => r == Started(id) && View() == System(created, Starting(id))
                      case InsertFailed => r == Refused(StoreFailed) && View() == old(View())
                      case ReadBackFailed => r == Refused(StoreFailed) && View() == System(created, Free))
    {
      hide TargetText.ParseTarget, Inv;
      var parsed := TargetText.ParseTarget(value, v6);
      if parsed.None? {
        return Refused(InvalidTarget);
      }
      var addresses := parsed.value.addresses;
      if !allowSensitiveTargets {
        for i := 0 to |addresses|
          invariant forall k :: 0 <= k < i ==> !sensitive(addresses[k])
        {
          if sensitive(addresses[i]) {
            return Refused(SensitiveTarget);
          }
        }
      }
      if running {
        return Refused(ScanInProgress);
      }
      ghost var before := View();
      running := true;
      var id := store.CreateJob(|addresses|, answer, addresses);
      AcceptedTargetsCanStart(setup, before, value, v6);
      if old(Sound()) {
        CreationIsSound(setup, before, addresses, old(store.nextId));
      }
      if id.None? {
        running := false;
        return Refused(StoreFailed);
      }
      phase := Starting(id.value);
      return Started(id.value);
    }

    /** MarkRunning, before the scan. */
    method MarkJobRunning(id: JobId, storeOk: bool)
      requires Valid() && phase == Starting(id) && id in store.jobs
      modifies this, store
      ensures Valid() && Did(MarkRunning(storeOk))
      ensures if storeOk then store.jobs[id].status == Running && phase.Scanning? else store.jobs == old(store.jobs) && phase == Failing(id)
    {
      hide Scan.Enabled, Scan.Apply, Inv, RecordResult;
      if storeOk {
        phase := Scanning(id, Scan.Initial(ConfigOf(setup, store.jobs[id])));
        var _ := store.UpdateJobStatus(id, Running);
      } else {
        phase := Failing(id);
      }
      Done(MarkRunning(storeOk));
    }

    /** The consume callback: an unresponsive address is recorded without its text; what the store refuses ends the scan. */
    method ConsumeResult(id: JobId, result: Scan.Result, storeOk: bool) returns (ok: bool)
      requires Valid() && phase.Scanning? && phase.id == id && id in store.jobs && phase.scan.consumer == Scan.Consuming(result)
      modifies this, store
      ensures Valid() && Did(Probe(ok))
      ensures ok <==> storeOk && RecordResult(old(store.jobs)[id], result).Some?
    {
      hide Scan.Apply, Scan.Enabled, Inv, RecordResult;
      ghost var config, scan := ConfigOf(setup, store.jobs[id]), phase.scan;
      ok := storeOk;
      if storeOk {
        ok := store.StoreResult(id, result);
      }
      Scan.ConsumeEffect(config, scan, ok);
      phase := Scanning(id, Scan.Apply(config, scan, Scan.Consume(ok)));
      Done(Probe(ok));
    }

    /** The scan moves on by itself, until it returns: to completion on nil, else to failure. */
    ghost method ScanMoves(step: Step)
      requires Valid() && (step.Advance? || step.EndScan?) && Enabled(setup, View(), step)
      modifies this
      ensures Valid() && Did(step)
      ensures step.EndScan? ==> phase == if old(phase).scan.failed || old(phase).scan.cancelled then Failing(old(phase).id) else Completing(old(phase).id)
    {
      hide Inv, RecordResult;
      phase := Apply(setup, View(), step).phase;
      Done(step);
    }

    /** The end of run: completed if Scan returned nil, else failed; the flag is cleared whether or not the store answers. */
    method EndJob(id: JobId, completed: bool, storeOk: bool)
      requires Valid() && phase == (if completed then Completing(id) else Failing(id)) && id in store.jobs
      modifies this, store
      ensures Valid() && !running && Did(if completed then Complete(storeOk) else Fail(storeOk))
      ensures if storeOk then id in store.jobs && store.jobs[id].status == (if completed then Completed else Failed) else store.jobs == old(store.jobs)
    {
      hide Scan.Enabled, Scan.Apply, Inv, RecordResult;
      if storeOk {
        var _ := store.UpdateJobStatus(id, if completed then Completed else Failed);
      }
      running, phase := false, Free;
      Done(if completed then Complete(storeOk) else Fail(storeOk));
    }
  }

  /** A started job, with its row read back or not, leaves the system sound. */
  lemma CreationIsSound(u: Setup, s: System, target: seq<Addr>, id: JobId)
    requires ValidSetup(u) && Inv(u, s) && Enabled(u, s, Start(target)) && id !in s.jobs
    ensures Inv(u, System(s.jobs[id := NewJob(target)], Starting(id))) && Inv(u, System(s.jobs[id := NewJob(target)], Free))
  {
    hide Inv;
    InvStep(u, s, Start(target));
    var t := Apply(u, s, Start(target));
    InvStep(u, t, Created(id));
    InvStep(u, t, Unread(id));
  }
}
