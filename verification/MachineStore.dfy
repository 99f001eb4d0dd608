/** Machines, their checks and the import of discovered devices: the tables, the operations on them and what every sequence of operations keeps. */
module MachineStore {
  import opened Text
  import opened Thresholds
  import opened Sets

  datatype CheckType = Tcp | Http | Https

  datatype Machine = Machine(name: string, target: string, status: Status, enabled: bool)

  datatype Check = Check(machineId: int, checkType: CheckType, port: int, path: string, health: Health,
                         failureThreshold: nat, recoveryThreshold: nat, enabled: bool)

  datatype DeviceStatus = New | Imported | Ignored

  datatype Device = Device(jobId: int, address: string, detectedPort: Option<int>, status: DeviceStatus, machineId: Option<int>)

  /** A row of check_results. */
  datatype ResultRow = ResultRow(checkId: int, raw: Raw)

  datatype Tables = Tables(
    machines: map<int, Machine>,
    checks: map<int, Check>,
    groups: map<int, string>,
    members: set<(int, int)>,
    devices: map<int, Device>,
    results: seq<ResultRow>,
    nextMachine: int,
    nextCheck: int,
    nextGroup: int)

  const EMPTY: Tables := Tables(map[], map[], map[], {}, map[], [], 1, 1, 1)

  // ---------- machine status ----------

  predicate HasCheck(t: Tables, machine: int, status: Status) {
    exists id :: id in t.checks && t.checks[id].machineId == machine && t.checks[id].enabled && t.checks[id].health.status == status
  }

  predicate AllHealthy(t: Tables, machine: int) {
    && (exists id :: id in t.checks && t.checks[id].machineId == machine && t.checks[id].enabled)
    && forall id :: id in t.checks && t.checks[id].machineId == machine && t.checks[id].enabled ==> t.checks[id].health.status.Healthy?
  }

  /** The CASE expression over the enabled checks of a machine. */
  function Aggregate(t: Tables, machine: int): (status: Status)
    ensures !status.Disabled?
  {
    if HasCheck(t, machine, Critical) then Critical
    else if HasCheck(t, machine, Unknown) then Unknown
    else if AllHealthy(t, machine) then Healthy
    else Unknown
  }

  // ---------- recordResult ----------

  /** An invalid status, a missing check and a disabled check are errors. */
  function RecordResult(t: Tables, checkId: int, status: Status): Option<Tables> {
    if !(status.Healthy? || status.Critical?) then None
    else if checkId !in t.checks || !t.checks[checkId].enabled || t.checks[checkId].machineId !in t.machines then None
    else
      var c := t.checks[checkId];
      var u := t.(checks := t.checks[checkId := c.(health := Observe(c.health, status, c.failureThreshold, c.recoveryThreshold))],
                  results := t.results + [ResultRow(checkId, status)]);
      Some(u.(machines := u.machines[c.machineId := u.machines[c.machineId].(status := Aggregate(u, c.machineId))]))
  }

  // ---------- Create ----------

  /** The new check's place: what no two checks may share. */
  datatype Endpoint = Endpoint(target: string, checkType: CheckType, port: int, path: string)

  function EndpointOf(t: Tables, c: Check): Option<Endpoint> {
    if c.machineId in t.machines then Some(Endpoint(t.machines[c.machineId].target, c.checkType, c.port, c.path)) else None
  }

  predicate Taken(t: Tables, e: Endpoint) {
    exists id :: id in t.checks && EndpointOf(t, t.checks[id]) == Some(e)
  }

  /** Insert a machine with its only check; both start unknown. */
  function AddMachine(t: Tables, name: string, e: Endpoint, failureThreshold: nat, recoveryThreshold: nat): Tables {
    t.(machines := t.machines[t.nextMachine := Machine(name, e.target, Unknown, true)],
       checks := t.checks[t.nextCheck := Check(t.nextMachine, e.checkType, e.port, e.path, FRESH, failureThreshold, recoveryThreshold, true)],
       nextMachine := t.nextMachine + 1, nextCheck := t.nextCheck + 1)
  }

  function Create(t: Tables, name: string, e: Endpoint, failureThreshold: nat, recoveryThreshold: nat): Option<Tables> {
    if Taken(t, e) then None else Some(AddMachine(t, name, e, failureThreshold, recoveryThreshold))
  }

  // ---------- ImportDevices ----------

  function CheckForDetectedPort(port: Option<int>): (CheckType, int) {
    match port
    case None => (Tcp, 22)
    case Some(p) => if p == 80 then (Http, 80) else if p == 443 then (Https, 443) else (Tcp, p)
  }

  function DeviceEndpoint(d: Device): Endpoint {
    var (checkType, port) := CheckForDetectedPort(d.detectedPort);
    Endpoint(d.address, checkType, port, "/")
  }

  /** The machine of some check at the endpoint, if there is one; SQL's LIMIT 1 leaves the choice open, the uniqueness of endpoints takes it away. */
  ghost predicate Owner(t: Tables, e: Endpoint, machine: int) {
    exists id :: id in t.checks && EndpointOf(t, t.checks[id]) == Some(e) && t.checks[id].machineId == machine
  }

  ghost function OwnerOf(t: Tables, e: Endpoint): (machine: int)
    requires Taken(t, e)
    ensures Owner(t, e, machine)
  {
    var id :| id in t.checks && EndpointOf(t, t.checks[id]) == Some(e);
    t.checks[id].machineId
  }

  ghost function FindOrCreate(t: Tables, e: Endpoint): (Tables, int) {
    if Taken(t, e) then (t, OwnerOf(t, e)) else (AddMachine(t, e.target, e, 3, 1), t.nextMachine)
  }

  predicate Importable(t: Tables, jobId: int, deviceId: int) {
    deviceId in t.devices && t.devices[deviceId].jobId == jobId && !t.devices[deviceId].status.Imported?
  }

  ghost function ImportOne(t: Tables, jobId: int, group: int, deviceId: int): Tables {
    if !Importable(t, jobId, deviceId) then t
    else
      var d := t.devices[deviceId];
      var (u, machine) := FindOrCreate(t, DeviceEndpoint(d));
      u.(members := u.members + {(machine, group)}, devices := u.devices[deviceId := d.(status := Imported, machineId := Some(machine))])
  }

  ghost function ImportAll(t: Tables, jobId: int, group: int, ids: seq<int>): Tables {
    if ids == [] then t else ImportOne(ImportAll(t, jobId, group, ids[..|ids| - 1]), jobId, group, ids[|ids| - 1])
  }

  ghost function ImportedCount(t: Tables, jobId: int, group: int, ids: seq<int>): nat {
    if ids == [] then 0
    else
      var front := ids[..|ids| - 1];
      ImportedCount(t, jobId, group, front) + (if Importable(ImportAll(t, jobId, group, front), jobId, ids[|ids| - 1]) then 1 else 0)
  }

  /** Positive ids, each at its first occurrence. */
  function UniquePositive(ids: seq<int>): seq<int> {
    if ids == [] then []
    else
      var front, last := UniquePositive(ids[..|ids| - 1]), ids[|ids| - 1];
      if last < 1 || last in front then front else front + [last]
  }

  /** COLLATE NOCASE folds ASCII letters only. */
  function NoCase(name: string): string {
    if name == "" then "" else [if 'A' <= name[0] <= 'Z' then (name[0] as int + 32) as char else name[0]] + NoCase(name[1..])
  }

  predicate HasGroup(t: Tables, name: string) { exists g :: g in t.groups && NoCase(t.groups[g]) == NoCase(name) }

  ghost function EnsureGroup(t: Tables, name: string): (r: (Tables, int))
    ensures r.1 in r.0.groups && NoCase(r.0.groups[r.1]) == NoCase(name)
  {
    if HasGroup(t, name) then
      var g :| g in t.groups && NoCase(t.groups[g]) == NoCase(name);
      (t, g)
    else (t.(groups := t.groups[t.nextGroup := name], nextGroup := t.nextGroup + 1), t.nextGroup)
  }

  predicate IsControl(c: char) { c < ' ' || '\U{7F}' <= c <= '\U{9F}' }

  /** The one rule for the names of machines and of groups. */
  predicate PrintableName(name: string) {
    1 <= ByteLength(name) <= 100 && forall i :: 0 <= i < |name| ==> !IsControl(name[i])
  }

  datatype ImportError = InvalidGroup | NoDevices

  datatype ImportOutcome = Refused(error: ImportError) | Done(count: nat, tables: Tables)

  ghost function ImportDevices(t: Tables, jobId: int, ids: seq<int>, groupName: string): ImportOutcome {
    var name := TrimSpace(groupName);
    if !PrintableName(name) then Refused(InvalidGroup)
    else if ids == [] then Refused(NoDevices)
    else
      var (u, group) := EnsureGroup(t, name);
      Done(ImportedCount(u, jobId, group, UniquePositive(ids)), ImportAll(u, jobId, group, UniquePositive(ids)))
  }

  // ---------- what every sequence of operations keeps ----------

  function HistoryOf(results: seq<ResultRow>, checkId: int): seq<Raw> {
    if results == [] then []
    else
      var last := results[|results| - 1];
      HistoryOf(results[..|results| - 1], checkId) + (if last.checkId == checkId then [last.raw] else [])
  }

  ghost predicate Linked(t: Tables) {
    && (forall m :: m in t.machines ==> m < t.nextMachine)
    && (forall id :: id in t.checks ==> id < t.nextCheck && t.checks[id].machineId in t.machines)
    && (forall i :: 0 <= i < |t.results| ==> t.results[i].checkId in t.checks)
  }

  /** The UNIQUE COLLATE NOCASE constraint on group names. */
  ghost predicate UniqueGroups(t: Tables) {
    && (forall g :: g in t.groups ==> g < t.nextGroup)
    && forall g, h :: g in t.groups && h in t.groups && NoCase(t.groups[g]) == NoCase(t.groups[h]) ==> g == h
  }

  ghost predicate UniqueEndpoints(t: Tables) {
    forall a, b :: a in t.checks && b in t.checks && EndpointOf(t, t.checks[a]) == EndpointOf(t, t.checks[b]) ==> a == b
  }

  ghost predicate StatusesAggregate(t: Tables) {
    forall m :: m in t.machines ==> t.machines[m].status == Aggregate(t, m)
  }

  ghost predicate CheckReplays(t: Tables, id: int)
    requires id in t.checks
  {
    var c := t.checks[id];
    && c.failureThreshold >= 1 && c.recoveryThreshold >= 1
    && c.health == Replay(HistoryOf(t.results, id), c.failureThreshold, c.recoveryThreshold)
  }

  ghost predicate HealthReplays(t: Tables) { forall id :: id in t.checks ==> CheckReplays(t, id) }

  ghost predicate Inv(t: Tables) { Linked(t) && UniqueGroups(t) && UniqueEndpoints(t) && StatusesAggregate(t) && HealthReplays(t) }

  lemma {:induction false} NoHistoryYet(results: seq<ResultRow>, checkId: int)
    requires forall i :: 0 <= i < |results| ==> results[i].checkId != checkId
    ensures HistoryOf(results, checkId) == []
  {
    if results != [] {
      NoHistoryYet(results[..|results| - 1], checkId);
    }
  }

  // ---------- recordResult keeps it ----------

  lemma RecordKeepsEndpoints(t: Tables, checkId: int, status: Status)
    requires Linked(t) && UniqueEndpoints(t) && RecordResult(t, checkId, status).Some?
    ensures Linked(RecordResult(t, checkId, status).value) && UniqueEndpoints(RecordResult(t, checkId, status).value)
  {
    hide Aggregate, Observe;
    var u := RecordResult(t, checkId, status).value;
    forall id | id in u.checks ensures EndpointOf(u, u.checks[id]) == EndpointOf(t, t.checks[id]) {
    }
  }

  /** Two tables with the same checks for a machine. */
  ghost predicate SameChecks(t: Tables, u: Tables, machine: int) {
    && (forall id :: id in t.checks && t.checks[id].machineId == machine ==> id in u.checks && u.checks[id] == t.checks[id])
    && (forall id :: id in u.checks && u.checks[id].machineId == machine ==> id in t.checks && u.checks[id] == t.checks[id])
  }

  lemma HasCheckLocal(t: Tables, u: Tables, machine: int, status: Status)
    requires SameChecks(t, u, machine) && HasCheck(t, machine, status)
    ensures HasCheck(u, machine, status)
  {
    var id :| id in t.checks && t.checks[id].machineId == machine && t.checks[id].enabled && t.checks[id].health.status == status;
    assert id in u.checks;
  }

  lemma AllHealthyLocal(t: Tables, u: Tables, machine: int)
    requires SameChecks(t, u, machine) && AllHealthy(t, machine)
    ensures AllHealthy(u, machine)
  {
    var id :| id in t.checks && t.checks[id].machineId == machine && t.checks[id].enabled;
    assert id in u.checks;
  }

  /** A machine's status looks at its own checks only. */
  lemma AggregateLocal(t: Tables, u: Tables, machine: int)
    requires SameChecks(t, u, machine)
    ensures Aggregate(t, machine) == Aggregate(u, machine)
  {
    hide HasCheck, AllHealthy;
    forall s ensures HasCheck(t, machine, s) == HasCheck(u, machine, s) {
      if HasCheck(t, machine, s) { HasCheckLocal(t, u, machine, s); }
      if HasCheck(u, machine, s) { HasCheckLocal(u, t, machine, s); }
    }
    if AllHealthy(t, machine) { AllHealthyLocal(t, u, machine); }
    if AllHealthy(u, machine) { AllHealthyLocal(u, t, machine); }
  }

  lemma RecordKeepsStatuses(t: Tables, checkId: int, status: Status)
    requires Linked(t) && StatusesAggregate(t) && RecordResult(t, checkId, status).Some?
    ensures StatusesAggregate(RecordResult(t, checkId, status).value)
  {
    var u := RecordResult(t, checkId, status).value;
    var own := t.checks[checkId].machineId;
    hide Observe, Aggregate;
    forall m | m in u.machines ensures u.machines[m].status == Aggregate(u, m) {
      if m == own {
        AggregateLocal(u.(machines := t.machines), u, m);
      } else {
        AggregateLocal(t, u, m);
      }
    }
  }

  lemma RecordExtendsHistory(t: Tables, checkId: int, status: Raw, id: int)
    ensures HistoryOf(t.results + [ResultRow(checkId, status)], id) == HistoryOf(t.results, id) + (if id == checkId then [status] else [])
  {
    assert (t.results + [ResultRow(checkId, status)])[..|t.results|] == t.results;
  }

  lemma RecordKeepsReplay(t: Tables, checkId: int, status: Status)
    requires HealthReplays(t) && RecordResult(t, checkId, status).Some?
    ensures HealthReplays(RecordResult(t, checkId, status).value)
  {
    hide Aggregate, Observe, HistoryOf, Replay;
    var u := RecordResult(t, checkId, status).value;
    forall id | id in u.checks ensures CheckReplays(u, id) {
      assert CheckReplays(t, id);
      RecordExtendsHistory(t, checkId, status, id);
      var h := HistoryOf(t.results, id);
      if id == checkId {
        ReplayOneMore(h, status, t.checks[id].failureThreshold, t.checks[id].recoveryThreshold);
      } else {
        assert h + [] == h;
      }
    }
  }

  lemma RecordKeepsInv(t: Tables, checkId: int, status: Status)
    requires Inv(t) && RecordResult(t, checkId, status).Some?
    ensures Inv(RecordResult(t, checkId, status).value)
  {
    var u := RecordResult(t, checkId, status).value;
    assert u.groups == t.groups && u.nextGroup == t.nextGroup;
    hide RecordResult, HealthReplays, StatusesAggregate, UniqueEndpoints, Linked, NoCase;
    RecordKeepsEndpoints(t, checkId, status);
    RecordKeepsStatuses(t, checkId, status);
    RecordKeepsReplay(t, checkId, status);
  }

  // ---------- a new machine keeps it ----------

  lemma AddKeepsInv(t: Tables, name: string, e: Endpoint, f: nat, r: nat)
    requires Inv(t) && !Taken(t, e) && f >= 1 && r >= 1
    ensures Inv(AddMachine(t, name, e, f, r)) && Owner(AddMachine(t, name, e, f, r), e, t.nextMachine)
  {
    var u, n, own := AddMachine(t, name, e, f, r), t.nextCheck, t.nextMachine;
    assert u.checks[n].machineId == own && EndpointOf(u, u.checks[n]) == Some(e);
    AddKeepsStatuses(t, name, e, f, r);
    AddKeepsReplay(t, name, e, f, r);
    hide Aggregate, CheckReplays, StatusesAggregate, HealthReplays;
    forall id | id in t.checks ensures EndpointOf(u, u.checks[id]) == EndpointOf(t, t.checks[id]) != Some(e) {
    }
  }

  lemma AddKeepsStatuses(t: Tables, name: string, e: Endpoint, f: nat, r: nat)
    requires Linked(t) && StatusesAggregate(t)
    ensures StatusesAggregate(AddMachine(t, name, e, f, r))
  {
    var u, own := AddMachine(t, name, e, f, r), t.nextMachine;
    assert var c := u.checks[t.nextCheck]; c.machineId == own && c.enabled && c.health.status.Unknown?;
    forall m | m in u.machines ensures u.machines[m].status == Aggregate(u, m) {
      if m == own {
        assert HasCheck(u, own, Unknown);
        assert !HasCheck(u, own, Critical);
      } else {
        hide Aggregate;
        AggregateLocal(t, u, m);
      }
    }
  }

  lemma AddKeepsReplay(t: Tables, name: string, e: Endpoint, f: nat, r: nat)
    requires Linked(t) && HealthReplays(t) && f >= 1 && r >= 1
    ensures HealthReplays(AddMachine(t, name, e, f, r))
  {
    var u, n := AddMachine(t, name, e, f, r), t.nextCheck;
    forall id | id in u.checks ensures CheckReplays(u, id) {
      if id == n {
        NoHistoryYet(u.results, n);
      } else {
        assert CheckReplays(t, id);
      }
    }
  }

  // ---------- imports keep it ----------

  lemma ImportOneKeepsInv(t: Tables, jobId: int, group: int, deviceId: int)
    requires Inv(t)
    ensures Inv(ImportOne(t, jobId, group, deviceId))
  {
    hide Aggregate, HealthReplays, StatusesAggregate, UniqueEndpoints;
    if Importable(t, jobId, deviceId) {
      var e := DeviceEndpoint(t.devices[deviceId]);
      if !Taken(t, e) {
        AddKeepsInv(t, e.target, e, 3, 1);
      }
      InvIgnoresDevices(FindOrCreate(t, e).0, ImportOne(t, jobId, group, deviceId));
    }
  }

  /** Memberships and devices play no part in the invariant, and groups only in their own. */
  lemma InvIgnoresDevices(t: Tables, u: Tables)
    requires Inv(t) && u.machines == t.machines && u.checks == t.checks && u.results == t.results
    requires u.nextMachine == t.nextMachine && u.nextCheck == t.nextCheck && UniqueGroups(u)
    ensures Inv(u)
  {
    forall id | id in u.checks ensures EndpointOf(u, u.checks[id]) == EndpointOf(t, t.checks[id]) && CheckReplays(u, id) {
      assert CheckReplays(t, id);
    }
    forall m | m in u.machines ensures u.machines[m].status == Aggregate(u, m) {
      hide Aggregate;
      AggregateLocal(t, u, m);
    }
  }

  lemma {:induction false} ImportAllKeepsInv(t: Tables, jobId: int, group: int, ids: seq<int>)
    requires Inv(t)
    ensures Inv(ImportAll(t, jobId, group, ids))
  {
    hide Inv, ImportOne;
    if ids != [] {
      ImportAllKeepsInv(t, jobId, group, ids[..|ids| - 1]);
      ImportOneKeepsInv(ImportAll(t, jobId, group, ids[..|ids| - 1]), jobId, group, ids[|ids| - 1]);
    }
  }

  lemma ImportKeepsInv(t: Tables, jobId: int, ids: seq<int>, groupName: string)
    requires Inv(t) && ImportDevices(t, jobId, ids, groupName).Done?
    ensures Inv(ImportDevices(t, jobId, ids, groupName).tables)
  {
    hide Inv, ImportAll, NoCase;
    var (u, group) := EnsureGroup(t, TrimSpace(groupName));
    GroupKeepsInv(t, TrimSpace(groupName));
    ImportAllKeepsInv(u, jobId, group, UniquePositive(ids));
  }

  lemma GroupKeepsInv(t: Tables, name: string)
    requires Inv(t)
    ensures Inv(EnsureGroup(t, name).0)
  {
    hide Aggregate, HealthReplays, StatusesAggregate, UniqueEndpoints, NoCase;
    InvIgnoresDevices(t, EnsureGroup(t, name).0);
  }

  // ---------- every run ----------

  /** The operations, with devices added by discovery in between. Thresholds are at least one, as validation and the column checks demand. */
  datatype Operation =
    | CreateMachine(name: string, endpoint: Endpoint, failureThreshold: nat, recoveryThreshold: nat)
    | Record(checkId: int, status: Status)
    | Import(jobId: int, ids: seq<int>, group: string)
    | Discover(deviceId: int, device: Device)

  /** A refused or failing operation changes nothing. */
  ghost function Apply(t: Tables, op: Operation): Tables {
    match op
    case CreateMachine(name, e, f, r) =>
      if f < 1 || r < 1 then t else (match Create(t, name, e, f, r) case Some(u) => u case None => t)
    case Record(checkId, status) => (match RecordResult(t, checkId, status) case Some(u) => u case None => t)
    case Import(jobId, ids, group) => (match ImportDevices(t, jobId, ids, group) case Done(_, u) => u case Refused(_) => t)
    case Discover(deviceId, device) => if deviceId in t.devices then t else t.(devices := t.devices[deviceId := device])
  }

  ghost function After(ops: seq<Operation>): Tables {
    if ops == [] then EMPTY else Apply(After(ops[..|ops| - 1]), ops[|ops| - 1])
  }

  lemma {:induction false} EveryRunKeepsInv(ops: seq<Operation>)
    ensures Inv(After(ops))
  {
    if ops != [] {
      hide Inv, RecordResult, Create, ImportDevices;
      var t, op := After(ops[..|ops| - 1]), ops[|ops| - 1];
      EveryRunKeepsInv(ops[..|ops| - 1]);
      match op
      case CreateMachine(name, e, f, r) =>
        if f >= 1 && r >= 1 { CreateKeepsInv(t, name, e, f, r); }
      case Record(checkId, status) =>
        if RecordResult(t, checkId, status).Some? { RecordKeepsInv(t, checkId, status); }
      case Import(jobId, ids, group) =>
        if ImportDevices(t, jobId, ids, group).Done? { ImportKeepsInv(t, jobId, ids, group); }
      case Discover(deviceId, device) => DiscoverKeepsInv(t, deviceId, device);
    } else {
      assert Inv(EMPTY);
    }
  }

  lemma CreateKeepsInv(t: Tables, name: string, e: Endpoint, f: nat, r: nat)
    requires Inv(t) && f >= 1 && r >= 1
    ensures Create(t, name, e, f, r).Some? ==> Inv(Create(t, name, e, f, r).value)
  {
    hide Inv, AddMachine;
    if !Taken(t, e) {
      AddKeepsInv(t, name, e, f, r);
    }
  }

  lemma DiscoverKeepsInv(t: Tables, deviceId: int, device: Device)
    requires Inv(t)
    ensures Inv(t.(devices := t.devices[deviceId := device]))
  {
    hide Aggregate, HealthReplays, StatusesAggregate, UniqueEndpoints;
    InvIgnoresDevices(t, t.(devices := t.devices[deviceId := device]));
  }

  /** After any sequence of operations: no two checks share target, type, port and path; every machine's status is the aggregate of its enabled checks; and every check's counters and status are those of its recorded history. */
  lemma TablesStayConsistent(ops: seq<Operation>)
    ensures var t := After(ops);
            && (forall a, b :: a in t.checks && b in t.checks && a != b ==> EndpointOf(t, t.checks[a]) != EndpointOf(t, t.checks[b]))
            && (forall id :: id in t.checks ==> EndpointOf(t, t.checks[id]).Some?)
            && (forall m :: m in t.machines ==> t.machines[m].status == Aggregate(t, m))
            && (forall id :: id in t.checks ==> CheckReplays(t, id))
  {
    EveryRunKeepsInv(ops);
    hide Aggregate, CheckReplays, After;
  }

  /** What a machine's status says about its enabled checks, after any sequence of operations. */
  lemma MachineStatusMeans(ops: seq<Operation>, m: int)
    requires m in After(ops).machines
    ensures var t := After(ops); var status := t.machines[m].status;
            && (status.Critical? <==>
                  exists id :: id in t.checks && t.checks[id].machineId == m && t.checks[id].enabled && t.checks[id].health.status.Critical?)
            && (status.Healthy? <==>
                  && (exists id :: id in t.checks && t.checks[id].machineId == m && t.checks[id].enabled)
                  && forall id :: id in t.checks && t.checks[id].machineId == m && t.checks[id].enabled ==> t.checks[id].health.status.Healthy?)
            && (status.Healthy? || status.Critical? || status.Unknown?)
  {
    EveryRunKeepsInv(ops);
    hide After;
    assert After(ops).machines[m].status == Aggregate(After(ops), m);
  }

  /** What the counters of a check say about its whole history. */
  lemma CheckSpeaksForHistory(ops: seq<Operation>, id: int)
    requires id in After(ops).checks
    ensures var t := After(ops);
            var c, h := t.checks[id], HistoryOf(t.results, id);
            && TrailingRun(h, Critical, c.health.failures) && TrailingRun(h, Healthy, c.health.successes)
            && StatusOf(h, c.health.status, c.failureThreshold, c.recoveryThreshold)
  {
    hide TrailingRun, StatusOf, After, Inv;
    EveryRunKeepsInv(ops);
    var t := After(ops);
    assert CheckReplays(t, id) by { ReplaysOf(t, id); }
    CountersRefineHistory(HistoryOf(t.results, id), t.checks[id].failureThreshold, t.checks[id].recoveryThreshold);
  }

  lemma ReplaysOf(t: Tables, id: int)
    requires Inv(t) && id in t.checks
    ensures CheckReplays(t, id)
  {
  }

  // ---------- Summary ----------

  datatype Summary = Summary(total: nat, healthy: nat, critical: nat, unknown: nat)

  function EnabledWith(t: Tables, status: Status): set<int> {
    set m | m in t.machines && t.machines[m].enabled && t.machines[m].status == status
  }

  function Summarize(t: Tables): Summary {
    Summary(|set m | m in t.machines && t.machines[m].enabled|,
            |EnabledWith(t, Healthy)|, |EnabledWith(t, Critical)|, |EnabledWith(t, Unknown)|)
  }

  /** The three counts of the dashboard add up to its total. */
  lemma SummaryAddsUp(ops: seq<Operation>)
    ensures var s := Summarize(After(ops)); s.total == s.healthy + s.critical + s.unknown
  {
    EveryRunKeepsInv(ops);
    var t := After(ops);
    hide After;
    var h, c, u := EnabledWith(t, Healthy), EnabledWith(t, Critical), EnabledWith(t, Unknown);
    assert StatusesAggregate(t);
    forall m | m in t.machines ensures !t.machines[m].status.Disabled? {
      assert t.machines[m].status == Aggregate(t, m);
    }
    assert (set m | m in t.machines && t.machines[m].enabled) == h + c + u;
    assert |h + c| == |h| + |c| by { assert h !! c; }
    assert |h + c + u| == |h + c| + |u| by { assert (h + c) !! u; }
  }

  /** The counts in terms of the checks: critical machines have an enabled critical check, healthy ones have enabled checks and only healthy ones. */
  lemma SummaryCountsMachines(ops: seq<Operation>)
    ensures var t := After(ops); var s := Summarize(t);
            && s.total == |set m | m in t.machines && t.machines[m].enabled|
            && s.critical == |set m | m in t.machines && t.machines[m].enabled && HasEnabled(t, m, (c: Check) => c.health.status.Critical?)|
            && s.healthy == |set m | m in t.machines && t.machines[m].enabled && HasEnabled(t, m, (c: Check) => true)
                                      && !HasEnabled(t, m, (c: Check) => !c.health.status.Healthy?)|
  {
    var t := After(ops);
    forall m | m in t.machines { MachineStatusMeans(ops, m); }
    hide After;
    assert EnabledWith(t, Critical)
        == set m | m in t.machines && t.machines[m].enabled && HasEnabled(t, m, (c: Check) => c.health.status.Critical?);
    assert EnabledWith(t, Healthy)
        == set m | m in t.machines && t.machines[m].enabled && HasEnabled(t, m, (c: Check) => true)
                   && !HasEnabled(t, m, (c: Check) => !c.health.status.Healthy?);
  }

  /** Some enabled check of the machine satisfies a property. */
  predicate HasEnabled(t: Tables, machine: int, property: Check -> bool) {
    exists id :: id in t.checks && t.checks[id].machineId == machine && t.checks[id].enabled && property(t.checks[id])
  }

  // ---------- importing again changes nothing ----------

  /** Nothing among the ids is left to import. */
  ghost predicate Settled(t: Tables, jobId: int, ids: seq<int>) {
    forall i :: 0 <= i < |ids| ==> !Importable(t, jobId, ids[i])
  }

  lemma {:induction false} ImportSettles(t: Tables, jobId: int, group: int, ids: seq<int>)
    ensures Settled(ImportAll(t, jobId, group, ids), jobId, ids)
  {
    if ids != [] {
      var front, last := ids[..|ids| - 1], ids[|ids| - 1];
      ImportSettles(t, jobId, group, front);
      var u := ImportAll(t, jobId, group, front);
      forall i | 0 <= i < |ids| ensures !Importable(ImportOne(u, jobId, group, last), jobId, ids[i]) {
        assert i < |front| ==> ids[i] == front[i];
      }
    }
  }

  lemma {:induction false} SettledImportDoesNothing(t: Tables, jobId: int, group: int, ids: seq<int>)
    requires Settled(t, jobId, ids)
    ensures ImportAll(t, jobId, group, ids) == t && ImportedCount(t, jobId, group, ids) == 0
  {
    if ids != [] {
      SettledImportDoesNothing(t, jobId, group, ids[..|ids| - 1]);
    }
  }

  lemma {:induction false} ImportKeepsGroups(t: Tables, jobId: int, group: int, ids: seq<int>)
    ensures ImportAll(t, jobId, group, ids).groups == t.groups
  {
    if ids != [] {
      ImportKeepsGroups(t, jobId, group, ids[..|ids| - 1]);
    }
  }

  /** Repeating an import with the same ids returns 0 and changes no machine, check, membership, device or result; with the same group it changes nothing at all. */
  lemma ImportIsIdempotent(t: Tables, jobId: int, ids: seq<int>, first: string, second: string)
    requires ImportDevices(t, jobId, ids, first).Done? && PrintableName(TrimSpace(second))
    ensures var u := ImportDevices(t, jobId, ids, first).tables;
            var again := ImportDevices(u, jobId, ids, second);
            && again.Done? && again.count == 0
            && again.tables.machines == u.machines && again.tables.checks == u.checks && again.tables.members == u.members
            && again.tables.devices == u.devices && again.tables.results == u.results
            && (NoCase(TrimSpace(second)) == NoCase(TrimSpace(first)) ==> again.tables == u)
  {
    hide ImportOne, NoCase, UniquePositive, TrimSpace, PrintableName;
    var (v, group) := EnsureGroup(t, TrimSpace(first));
    ImportSettles(v, jobId, group, UniquePositive(ids));
    ImportKeepsGroups(v, jobId, group, UniquePositive(ids));
    var u := ImportAll(v, jobId, group, UniquePositive(ids));
    var (w, other) := EnsureGroup(u, TrimSpace(second));
    SettledImportDoesNothing(w, jobId, other, UniquePositive(ids));
    assert group in u.groups;
  }

  // ---------- what an import imports ----------

  lemma {:induction false} UniquePositiveSpec(ids: seq<int>)
    ensures forall id :: id in UniquePositive(ids) <==> id in ids && id >= 1
    ensures forall i, j :: 0 <= i < j < |UniquePositive(ids)| ==> UniquePositive(ids)[i] != UniquePositive(ids)[j]
  {
    if ids != [] {
      UniquePositiveSpec(ids[..|ids| - 1]);
      assert ids == ids[..|ids| - 1] + [ids[|ids| - 1]];
    }
  }

  function Selected(t: Tables, jobId: int, ids: seq<int>): set<int> {
    set id | id in ids && id in t.devices && t.devices[id].jobId == jobId && t.devices[id].status != Imported
  }

  /** The device rows an import of one device leaves. */
  lemma ImportOneDevices(t: Tables, jobId: int, group: int, deviceId: int)
    ensures var u := ImportOne(t, jobId, group, deviceId);
            && u.devices.Keys == t.devices.Keys
            && (forall d :: d in t.devices && d != deviceId ==> u.devices[d] == t.devices[d])
            && (!Importable(t, jobId, deviceId) ==> u == t)
            && (Importable(t, jobId, deviceId) ==> u.devices[deviceId].status.Imported? && u.devices[deviceId].machineId.Some? && u.devices[deviceId].jobId == jobId)
  {
  }

  lemma SelectedGrows(t: Tables, jobId: int, front: seq<int>, last: int)
    requires last !in front
    ensures Selected(t, jobId, front + [last]) == Selected(t, jobId, front) + (if Importable(t, jobId, last) then {last} else {})
    ensures |Selected(t, jobId, front + [last])| == |Selected(t, jobId, front)| + (if Importable(t, jobId, last) then 1 else 0)
  {
    assert Selected(t, jobId, front + [last]) == Selected(t, jobId, front) + (if Importable(t, jobId, last) then {last} else {});
    assert last !in Selected(t, jobId, front);
  }

  /** The device rows differ from before in the selected devices only, and those are imported. */
  ghost predicate ImportedExactly(t: Tables, u: Tables, jobId: int, selected: set<int>) {
    && u.devices.Keys == t.devices.Keys
    && forall d :: d in t.devices ==>
         if d in selected then u.devices[d].status.Imported? && u.devices[d].machineId.Some? && u.devices[d].jobId == jobId
         else u.devices[d] == t.devices[d]
  }

  lemma ImportOneMore(t: Tables, u: Tables, jobId: int, group: int, selected: set<int>, last: int)
    requires ImportedExactly(t, u, jobId, selected) && last !in selected
    ensures Importable(u, jobId, last) == Importable(t, jobId, last)
    ensures ImportedExactly(t, ImportOne(u, jobId, group, last), jobId, selected + (if Importable(t, jobId, last) then {last} else {}))
  {
    hide ImportOne;
    ImportOneDevices(u, jobId, group, last);
  }

  /** Exactly the selected devices of the job that were not imported before are imported, and the count is their number. */
  lemma {:induction false} ImportsTheSelected(t: Tables, jobId: int, group: int, ids: seq<int>)
    requires forall i, j :: 0 <= i < j < |ids| ==> ids[i] != ids[j]
    ensures ImportedCount(t, jobId, group, ids) == |Selected(t, jobId, ids)|
    ensures ImportedExactly(t, ImportAll(t, jobId, group, ids), jobId, Selected(t, jobId, ids))
  {
    if ids == [] {
      assert Selected(t, jobId, ids) == {};
    } else {
      hide ImportOne, ImportedExactly, Importable;
      var front, last := ids[..|ids| - 1], ids[|ids| - 1];
      assert ids == front + [last] && last !in front;
      ImportsTheSelected(t, jobId, group, front);
      SelectedGrows(t, jobId, front, last);
      ImportOneMore(t, ImportAll(t, jobId, group, front), jobId, group, Selected(t, jobId, front), last);
    }
  }

  // ---------- what an import puts where ----------

  /** Existing rows stay, and an endpoint keeps its owner. */
  ghost predicate Extends(t: Tables, u: Tables) {
    && (forall m :: m in t.machines ==> m in u.machines && u.machines[m] == t.machines[m])
    && (forall id :: id in t.checks ==> id in u.checks && u.checks[id] == t.checks[id])
    && t.members <= u.members && u.groups == t.groups
  }

  lemma OwnerStays(t: Tables, u: Tables, e: Endpoint, machine: int)
    requires Extends(t, u) && Owner(t, e, machine)
    ensures Owner(u, e, machine)
  {
    var id :| id in t.checks && EndpointOf(t, t.checks[id]) == Some(e) && t.checks[id].machineId == machine;
    assert id in u.checks && u.checks[id] == t.checks[id];
  }

  lemma FindOrCreateExtends(t: Tables, e: Endpoint)
    requires Linked(t)
    ensures var (u, machine) := FindOrCreate(t, e);
            && Extends(t, u) && Owner(u, e, machine) && u.members == t.members && u.devices == t.devices
  {
    if !Taken(t, e) {
      var u := AddMachine(t, e.target, e, 3, 1);
      assert EndpointOf(u, u.checks[t.nextCheck]) == Some(e) && u.checks[t.nextCheck].machineId == t.nextMachine;
    }
  }

  /** The selected devices belong to the owners of their endpoints, and those owners, and nobody else, have joined the group. */
  ghost predicate JoinedExactly(t: Tables, u: Tables, group: int, selected: set<int>) {
    && t.members <= u.members
    && (forall d :: d in selected ==> d in t.devices && d in u.devices && Joined(t, u, group, d))
    && (forall pair :: pair in u.members && pair !in t.members ==>
          exists d :: d in selected && d in u.devices && u.devices[d].machineId == Some(pair.0) && pair.1 == group)
  }

  ghost predicate Joined(t: Tables, u: Tables, group: int, d: int)
    requires d in t.devices && d in u.devices
  {
    var machine := u.devices[d].machineId;
    machine.Some? && Owner(u, DeviceEndpoint(t.devices[d]), machine.value) && (machine.value, group) in u.members
  }

  lemma ImportOneJoins(t: Tables, jobId: int, group: int, d: int)
    requires Linked(t)
    ensures var u := ImportOne(t, jobId, group, d);
            && Extends(t, u)
            && (Importable(t, jobId, d) ==>
                  && u.devices[d].machineId.Some? && Owner(u, DeviceEndpoint(t.devices[d]), u.devices[d].machineId.value)
                  && u.members == t.members + {(u.devices[d].machineId.value, group)})
            && (!Importable(t, jobId, d) ==> u == t)
  {
    if Importable(t, jobId, d) {
      var e := DeviceEndpoint(t.devices[d]);
      FindOrCreateExtends(t, e);
      var (v, machine) := FindOrCreate(t, e);
      hide FindOrCreate;
      var u := ImportOne(t, jobId, group, d);
      assert Extends(v, u);
      OwnerStays(v, u, e, machine);
    }
  }

  lemma JoinOneMore(t: Tables, u: Tables, jobId: int, group: int, selected: set<int>, last: int)
    requires Linked(u) && JoinedExactly(t, u, group, selected) && ImportedExactly(t, u, jobId, selected) && last !in selected
    ensures JoinedExactly(t, ImportOne(u, jobId, group, last), group, selected + (if Importable(t, jobId, last) then {last} else {}))
  {
    hide Owner, DeviceEndpoint;
    ImportOneJoins(u, jobId, group, last);
    ImportOneDevices(u, jobId, group, last);
    var v := ImportOne(u, jobId, group, last);
    hide ImportOne;
    assert Importable(u, jobId, last) == Importable(t, jobId, last);
    forall d | d in selected ensures d in v.devices && Joined(t, v, group, d) {
      OwnerStays(u, v, DeviceEndpoint(t.devices[d]), u.devices[d].machineId.value);
    }
    forall pair | pair in v.members && pair !in t.members
      ensures exists d :: d in selected + (if Importable(t, jobId, last) then {last} else {}) && d in v.devices
                          && v.devices[d].machineId == Some(pair.0) && pair.1 == group
    {
      if pair in u.members {
        var d :| d in selected && d in u.devices && u.devices[d].machineId == Some(pair.0) && pair.1 == group;
        assert v.devices[d] == u.devices[d];
      } else {
        assert v.devices[last].machineId == Some(pair.0);
      }
    }
  }

  lemma {:induction false} ImportAllJoins(t: Tables, jobId: int, group: int, ids: seq<int>)
    requires Inv(t) && forall i, j :: 0 <= i < j < |ids| ==> ids[i] != ids[j]
    ensures JoinedExactly(t, ImportAll(t, jobId, group, ids), group, Selected(t, jobId, ids))
  {
    hide ImportOne, JoinedExactly, ImportedExactly, Importable, Inv;
    if ids == [] {
      assert Selected(t, jobId, ids) == {};
      NobodyJoins(t, group);
    } else {
      var front, last := ids[..|ids| - 1], ids[|ids| - 1];
      assert ids == front + [last] && last !in front;
      ImportAllJoins(t, jobId, group, front);
      ImportsTheSelected(t, jobId, group, front);
      ImportAllKeepsInv(t, jobId, group, front);
      SelectedGrows(t, jobId, front, last);
      var u := ImportAll(t, jobId, group, front);
      assert Linked(u) by { InvLinked(u); }
      JoinOneMore(t, u, jobId, group, Selected(t, jobId, front), last);
    }
  }

  lemma InvLinked(t: Tables)
    requires Inv(t)
    ensures Linked(t)
  {
  }

  lemma NobodyJoins(t: Tables, group: int)
    ensures JoinedExactly(t, t, group, {})
  {
  }

  /**
    * What an import leaves: there is a group of the given name; each selected device that was not imported before now
    * belongs to the machine that owns its address, type, port and path; that machine is in the group; and nobody else
    * has joined any group.
    */
  lemma ImportPutsInGroup(t: Tables, jobId: int, ids: seq<int>, groupName: string) returns (group: int)
    requires Inv(t) && ImportDevices(t, jobId, ids, groupName).Done?
    ensures var u := ImportDevices(t, jobId, ids, groupName).tables;
            && group in u.groups && NoCase(u.groups[group]) == NoCase(TrimSpace(groupName))
            && JoinedExactly(t, u, group, Selected(t, jobId, UniquePositive(ids)))
            && ImportedExactly(t, u, jobId, Selected(t, jobId, UniquePositive(ids)))
  {
    hide Inv, ImportAll, NoCase, TrimSpace, PrintableName, Owner;
    var (v, g) := EnsureGroup(t, TrimSpace(groupName));
    group := g;
    var unique := UniquePositive(ids);
    UniquePositiveSpec(ids);
    GroupKeepsInv(t, TrimSpace(groupName));
    assert Selected(v, jobId, unique) == Selected(t, jobId, unique);
    ImportKeepsGroups(v, jobId, group, unique);
    ImportAllJoins(v, jobId, group, unique);
    ImportsTheSelected(v, jobId, group, unique);
  }

  /** Where a discovered device is checked: http on port 80, https on 443, otherwise tcp, on port 22 if none was detected; always at the root path. */
  lemma DeviceIsCheckedAt(d: Device)
    ensures var e := DeviceEndpoint(d);
            && e.target == d.address && e.path == "/"
            && e.port == (if d.detectedPort.Some? then d.detectedPort.value else 22)
            && (e.checkType.Http? <==> d.detectedPort == Some(80)) && (e.checkType.Https? <==> d.detectedPort == Some(443))
  {
  }

  /** When an import is refused, and with which error. */
  lemma ImportRefusals(t: Tables, jobId: int, ids: seq<int>, groupName: string)
    ensures var name, outcome := TrimSpace(groupName), ImportDevices(t, jobId, ids, groupName);
            var printable := 1 <= ByteLength(name) <= 100
                             && forall i :: 0 <= i < |name| ==> name[i] >= ' ' && !('\U{7F}' <= name[i] <= '\U{9F}');
            && (outcome == Refused(InvalidGroup) <==> !printable)
            && (outcome == Refused(NoDevices) <==> printable && ids == [])
  {
    hide TrimSpace, ImportAll, EnsureGroup, ImportedCount;
  }

  /** The ids keep the order of their first occurrences. */
  lemma {:induction false} UniquePositiveInOrder(ids: seq<int>, i: nat, j: nat) returns (x: nat, y: nat)
    requires i < j < |UniquePositive(ids)|
    ensures x < y < |ids| && ids[x] == UniquePositive(ids)[i] && ids[y] == UniquePositive(ids)[j] && UniquePositive(ids)[j] !in ids[..y]
  {
    var n := |ids| - 1;
    var front, last := ids[..n], ids[n];
    var before := UniquePositive(front);
    assert UniquePositive(ids) == (if last < 1 || last in before then before else before + [last]);
    UniquePositiveSpec(front);
    if j < |before| {
      x, y := UniquePositiveInOrder(front, i, j);
      assert ids[..y] == front[..y];
    } else {
      var value := before[i];
      assert value in UniquePositive(front);
      assert value in front;
      x :| 0 <= x < n && front[x] == value;
      y := n;
    }
  }

  /** Names that agree without case are alike letter by letter, up to the case of ASCII letters. */
  lemma {:induction false} NoCaseMeans(a: string, b: string)
    ensures NoCase(a) == NoCase(b) <==>
              |a| == |b| && forall i :: 0 <= i < |a| ==>
                a[i] == b[i] || ('A' <= a[i] <= 'Z' && b[i] as int == a[i] as int + 32) || ('A' <= b[i] <= 'Z' && a[i] as int == b[i] as int + 32)
  {
    NoCaseLength(a);
    NoCaseLength(b);
    if a != "" && b != "" {
      NoCaseMeans(a[1..], b[1..]);
      assert a == [a[0]] + a[1..] && b == [b[0]] + b[1..];
      assert NoCase(a) == [NoCase(a)[0]] + NoCase(a[1..]) && NoCase(b) == [NoCase(b)[0]] + NoCase(b[1..]);
      assert NoCase(a)[1..] == NoCase(a[1..]) && NoCase(b)[1..] == NoCase(b[1..]);
      assert forall i :: 0 < i < |a| ==> a[i] == a[1..][i - 1];
      assert forall i :: 0 < i < |b| ==> b[i] == b[1..][i - 1];
    }
  }

  lemma {:induction false} NoCaseLength(a: string)
    ensures |NoCase(a)| == |a|
  {
    if a != "" {
      NoCaseLength(a[1..]);
    }
  }

  // ---------- input of Create ----------

  const MILLISECOND: int := 1_000_000
  const SECOND: int := 1_000_000_000

  /** The form's values; durations in nanoseconds, an unsupported check type as None. */
  datatype Input = Input(name: string, target: string, checkType: Option<CheckType>, port: int, path: string,
                         timeout: int, interval: int, failureThreshold: int, recoveryThreshold: int)

  datatype Accepted = Accepted(name: string, endpoint: Endpoint, timeoutMs: int, intervalSeconds: int, failureThreshold: nat, recoveryThreshold: nat)

  function OrDefault(value: int, default: int): int { if value == 0 then default else value }

  /** validateCreateInput; `resolve` is the printed form of a unicast address literal, if the text is one. The description is left out. */
  function Validate(input: Input, resolve: string -> Option<string>): (r: Option<Accepted>)
    ensures r.Some? ==>
      && 1 <= r.value.failureThreshold <= 20 && 1 <= r.value.recoveryThreshold <= 20
      && 10 <= r.value.intervalSeconds <= 86400 && 100 <= r.value.timeoutMs <= 30000
      && 1 <= ByteLength(r.value.name) <= 100 && (forall i :: 0 <= i < |r.value.name| ==> !IsControl(r.value.name[i]))
      && r.value.endpoint.port == input.port && 1 <= input.port <= 65535
      && r.value.endpoint.path != "" && r.value.endpoint.path[0] == '/' && ByteLength(r.value.endpoint.path) <= 256
      && '\r' !in r.value.endpoint.path && '\n' !in r.value.endpoint.path
      && (TrimSpace(input.path) == "" ==> r.value.endpoint.path == "/")
      && (input.timeout == 0 ==> r.value.timeoutMs == 5000) && (input.interval == 0 ==> r.value.intervalSeconds == 60)
      && (input.failureThreshold == 0 ==> r.value.failureThreshold == 3) && (input.recoveryThreshold == 0 ==> r.value.recoveryThreshold == 1)
  {
    var name, target, given := TrimSpace(input.name), resolve(TrimSpace(input.target)), TrimSpace(input.path);
    var path := if given == "" then "/" else given;
    var timeout, interval := OrDefault(input.timeout, 5 * SECOND), OrDefault(input.interval, 60 * SECOND);
    var f, r := OrDefault(input.failureThreshold, 3), OrDefault(input.recoveryThreshold, 1);
    if !PrintableName(name) || target.None? || input.checkType.None? || !(1 <= input.port <= 65535) then None
    else if path[0] != '/' || ByteLength(path) > 256 || '\r' in path || '\n' in path then None
    else if !(100 * MILLISECOND <= timeout <= 30 * SECOND) || !(10 * SECOND <= interval <= 86400 * SECOND) then None
    else if !(1 <= f <= 20) || !(1 <= r <= 20) then None
    else Some(Accepted(name, Endpoint(target.value, input.checkType.value, input.port, path), timeout / MILLISECOND, interval / SECOND, f, r))
  }

  /** Exactly which input is accepted, and what is stored for it. */
  lemma ValidateExactly(input: Input, resolve: string -> Option<string>)
    ensures var r, name, path := Validate(input, resolve), TrimSpace(input.name), TrimSpace(input.path);
            && (r.Some? <==>
                  && 1 <= ByteLength(name) <= 100 && (forall i :: 0 <= i < |name| ==> name[i] >= ' ' && !('\U{7F}' <= name[i] <= '\U{9F}'))
                  && resolve(TrimSpace(input.target)).Some? && input.checkType.Some? && 1 <= input.port <= 65535
                  && (path == "" || (path[0] == '/' && ByteLength(path) <= 256 && '\r' !in path && '\n' !in path))
                  && (input.timeout == 0 || 100 * MILLISECOND <= input.timeout <= 30 * SECOND)
                  && (input.interval == 0 || 10 * SECOND <= input.interval <= 24 * 3600 * SECOND)
                  && 0 <= input.failureThreshold <= 20 && 0 <= input.recoveryThreshold <= 20)
            && (r.Some? ==>
                  && r.value.name == name && r.value.endpoint.target == resolve(TrimSpace(input.target)).value
                  && r.value.endpoint.checkType == input.checkType.value && r.value.endpoint.port == input.port
                  && r.value.endpoint.path == (if path == "" then "/" else path)
                  && r.value.timeoutMs == (if input.timeout == 0 then 5000 else input.timeout / MILLISECOND)
                  && r.value.intervalSeconds == (if input.interval == 0 then 60 else input.interval / SECOND)
                  && r.value.failureThreshold == (if input.failureThreshold == 0 then 3 else input.failureThreshold)
                  && r.value.recoveryThreshold == (if input.recoveryThreshold == 0 then 1 else input.recoveryThreshold))
  {
    hide TrimSpace;
    assert ByteLength("/") == 1;
  }

  // ---------- the stores' own operations ----------

  /** The database behind both stores. Every method is one transaction: on an error path nothing has changed. */
  class Database {
    var t: Tables

    constructor ()
      ensures t == EMPTY && Inv(t)
    {
      t := EMPTY;
      new;
      EveryRunKeepsInv([]);
    }

    /** machines.Store.Create on validated input. */
    method CreateMachine(input: Input, resolve: string -> Option<string>) returns (created: bool)
      requires Inv(t)
      modifies this
      ensures Inv(t)
      ensures created <==> Validate(input, resolve).Some? && !Taken(old(t), Validate(input, resolve).value.endpoint)
      ensures t == if created then var a := Validate(input, resolve).value; AddMachine(old(t), a.name, a.endpoint, a.failureThreshold, a.recoveryThreshold) else old(t)
    {
      hide Validate, Inv;
      var accepted := Validate(input, resolve);
      if accepted.None? {
        return false;
      }
      var a := accepted.value;
      assert a.failureThreshold >= 1 && a.recoveryThreshold >= 1 by { ThresholdsArePositive(input, resolve); }
      var duplicate := Taken(t, a.endpoint);
      if duplicate {
        return false;
      }
      AddKeepsInv(t, a.name, a.endpoint, a.failureThreshold, a.recoveryThreshold);
      var _ := InsertMachine(a.name, a.endpoint, a.failureThreshold, a.recoveryThreshold);
      return true;
    }

    /** recordResult: read the counters, update them locally, write check and history, then recompute the machine's status. */
    method Record(checkId: int, status: Status) returns (ok: bool)
      requires Inv(t)
      modifies this
      ensures Inv(t)
      ensures ok <==> RecordResult(old(t), checkId, status).Some?
      ensures t == if ok then RecordResult(old(t), checkId, status).value else old(t)
      ensures ok <==> (status.Healthy? || status.Critical?) && checkId in old(t).checks && old(t).checks[checkId].enabled
      ensures ok ==> t.results == old(t).results + [ResultRow(checkId, status)] && t.checks.Keys == old(t).checks.Keys && t.machines.Keys == old(t).machines.Keys
      ensures ok ==> forall id :: id in t.checks && id != checkId ==> t.checks[id] == old(t).checks[id]
      ensures ok ==> forall m :: m in t.machines && m != old(t).checks[checkId].machineId ==> t.machines[m] == old(t).machines[m]
    {
      if !(status.Healthy? || status.Critical?) {
        return false;
      }
      if checkId !in t.checks || !t.checks[checkId].enabled {
        return false;
      }
      RecordKeepsWhole(t, checkId, status);
      RecordedRows(t, checkId, status);
      RecordTouches(t, checkId, status);
      hide Inv, Aggregate, Observe, RecordResult;
      var check := t.checks[checkId];
      var health := NextHealth(check.health, status, check.failureThreshold, check.recoveryThreshold);
      t := t.(results := t.results + [ResultRow(checkId, status)]);
      t := t.(checks := t.checks[checkId := check.(health := health)]);
      var machineStatus := Aggregate(t, check.machineId);
      t := t.(machines := t.machines[check.machineId := t.machines[check.machineId].(status := machineStatus)]);
      assert t == RecordResult(old(t), checkId, status).value;
      return true;
    }

    /** The local counters of recordResult. */
    method NextHealth(current: Health, status: Raw, failureThreshold: nat, recoveryThreshold: nat) returns (next: Health)
      ensures next == Observe(current, status, failureThreshold, recoveryThreshold)
    {
      var nextStatus, failures, successes := current.status, current.failures, current.successes;
      if status.Healthy? {
        successes := successes + 1;
        failures := 0;
        if successes >= recoveryThreshold {
          nextStatus := Healthy;
        }
      } else {
        failures := failures + 1;
        successes := 0;
        if failures >= failureThreshold {
          nextStatus := Critical;
        }
      }
      return Health(nextStatus, failures, successes);
    }

    /** uniquePositiveIDs */
    method UniquePositiveIds(ids: seq<int>) returns (result: seq<int>)
      ensures result == UniquePositive(ids)
    {
      var seen: set<int> := {};
      result := [];
      for i := 0 to |ids|
        invariant result == UniquePositive(ids[..i])
        invariant forall id :: id in seen <==> id in result
      {
        assert ids[..i + 1][..i] == ids[..i];
        if ids[i] < 1 || ids[i] in seen {
          continue;
        }
        seen := seen + {ids[i]};
        result := result + [ids[i]];
      }
      assert ids[..|ids|] == ids;
    }

    /** findOrCreateMachine */
    method FindOrCreateMachine(e: Endpoint) returns (machineId: int)
      requires Inv(t)
      modifies this
      ensures Inv(t) && (t, machineId) == FindOrCreate(old(t), e)
      ensures !Taken(old(t), e) ==> t == AddMachine(old(t), e.target, e, 3, 1) && machineId == old(t).nextMachine
    {
      if id :| id in t.checks && EndpointOf(t, t.checks[id]) == Some(e) {
        OneOwner(t, e, id);
        hide Inv, EndpointOf, FindOrCreate;
        return t.checks[id].machineId;
      }
      NoOwner(t, e);
      hide Inv, EndpointOf, FindOrCreate, AddMachine, Taken;
      AddKeepsInv(t, e.target, e, 3, 1);
      machineId := InsertMachine(e.target, e, 3, 1);
    }

    /** The two inserts: the machine, then its check. */
    method InsertMachine(name: string, e: Endpoint, failureThreshold: nat, recoveryThreshold: nat) returns (machineId: int)
      modifies this
      ensures t == AddMachine(old(t), name, e, failureThreshold, recoveryThreshold) && machineId == old(t).nextMachine
      ensures machineId in t.machines && t.machines[machineId] == Machine(name, e.target, Unknown, true)
      ensures old(t).nextCheck in t.checks
              && t.checks[old(t).nextCheck]
                 == Check(machineId, e.checkType, e.port, e.path, Health(Unknown, 0, 0), failureThreshold, recoveryThreshold, true)
    {
      machineId := t.nextMachine;
      var checkId := t.nextCheck;
      t := t.(machines := t.machines[machineId := Machine(name, e.target, Unknown, true)], nextMachine := machineId + 1);
      t := t.(checks := t.checks[checkId := Check(machineId, e.checkType, e.port, e.path, FRESH, failureThreshold, recoveryThreshold, true)],
              nextCheck := checkId + 1);
    }

    /** The loop body of ImportDevices. */
    method ImportDevice(jobId: int, groupId: int, deviceId: int) returns (imported: nat)
      requires Inv(t)
      modifies this
      ensures Inv(t) && t == ImportOne(old(t), jobId, groupId, deviceId)
      ensures imported == if Importable(old(t), jobId, deviceId) then 1 else 0
    {
      hide Inv, FindOrCreate;
      if deviceId !in t.devices || t.devices[deviceId].jobId != jobId || t.devices[deviceId].status.Imported? {
        return 0;
      }
      ImportOneKeepsInv(t, jobId, groupId, deviceId);
      var device := t.devices[deviceId];
      var machineId := FindOrCreateMachine(DeviceEndpoint(device));
      t := t.(members := t.members + {(machineId, groupId)});
      t := t.(devices := t.devices[deviceId := device.(status := Imported, machineId := Some(machineId))]);
      return 1;
    }

    /** ImportDevices */
    method Import(jobId: int, deviceIds: seq<int>, groupName: string) returns (ok: bool, imported: nat)
      requires Inv(t)
      modifies this
      ensures Inv(t)
      ensures match ImportDevices(old(t), jobId, deviceIds, groupName)
              case Refused(_) => !ok && t == old(t)
              case Done(count, tables) => ok && imported == count && t == tables
    {
      hide Inv, ImportOne, UniquePositive, NoCase, TrimSpace, PrintableName;
      var name := TrimSpace(groupName);
      if !PrintableName(name) || deviceIds == [] {
        return false, 0;
      }
      var groupId := EnsureNamedGroup(name);
      ghost var u := t;
      var ids := UniquePositiveIds(deviceIds);
      imported := 0;
      for i := 0 to |ids|
        invariant Inv(t) && t == ImportAll(u, jobId, groupId, ids[..i]) && imported == ImportedCount(u, jobId, groupId, ids[..i])
      {
        assert ids[..i + 1][..i] == ids[..i];
        var one := ImportDevice(jobId, groupId, ids[i]);
        imported := imported + one;
      }
      assert ids[..|ids|] == ids;
      return true, imported;
    }

    /** The upsert of the group and the lookup of its id. */
    method EnsureNamedGroup(name: string) returns (groupId: int)
      requires Inv(t)
      modifies this
      ensures Inv(t) && (t, groupId) == EnsureGroup(old(t), name)
    {
      hide NoCase;
      GroupKeepsInv(t, name);
      if g :| g in t.groups && NoCase(t.groups[g]) == NoCase(name) {
        OneGroup(t, name, g);
        return g;
      }
      groupId := t.nextGroup;
      t := t.(groups := t.groups[groupId := name], nextGroup := groupId + 1);
    }
  }

  /** The rows after a recorded result. */
  lemma RecordedRows(t: Tables, checkId: int, status: Raw)
    requires checkId in t.checks && t.checks[checkId].enabled && t.checks[checkId].machineId in t.machines
    ensures var c := t.checks[checkId];
            var u := t.(results := t.results + [ResultRow(checkId, status)],
                        checks := t.checks[checkId := c.(health := Observe(c.health, status, c.failureThreshold, c.recoveryThreshold))]);
            RecordResult(t, checkId, status)
              == Some(u.(machines := u.machines[c.machineId := u.machines[c.machineId].(status := Aggregate(u, c.machineId))]))
  {
    hide Aggregate, Observe;
  }

  /** A recorded result leaves the other rows alone. */
  lemma RecordTouches(t: Tables, checkId: int, status: Raw)
    requires checkId in t.checks && t.checks[checkId].enabled && t.checks[checkId].machineId in t.machines
    ensures var u := RecordResult(t, checkId, status).value;
            && u.results == t.results + [ResultRow(checkId, status)] && u.checks.Keys == t.checks.Keys && u.machines.Keys == t.machines.Keys
            && (forall id :: id in u.checks && id != checkId ==> u.checks[id] == t.checks[id])
            && (forall m :: m in u.machines && m != t.checks[checkId].machineId ==> u.machines[m] == t.machines[m])
  {
    RecordedRows(t, checkId, status);
    hide RecordResult, Aggregate, Observe;
  }

  lemma ThresholdsArePositive(input: Input, resolve: string -> Option<string>)
    requires Validate(input, resolve).Some?
    ensures Validate(input, resolve).value.failureThreshold >= 1 && Validate(input, resolve).value.recoveryThreshold >= 1
  {
  }

  lemma RecordKeepsWhole(t: Tables, checkId: int, status: Status)
    requires Inv(t) && (status.Healthy? || status.Critical?) && checkId in t.checks && t.checks[checkId].enabled
    ensures RecordResult(t, checkId, status).Some? && Inv(RecordResult(t, checkId, status).value)
  {
    RecordKeepsInv(t, checkId, status);
  }

  /** The LIMIT 1 lookup has one candidate at most. */
  lemma OneOwner(t: Tables, e: Endpoint, id: int)
    requires Inv(t) && id in t.checks && EndpointOf(t, t.checks[id]) == Some(e)
    ensures FindOrCreate(t, e) == (t, t.checks[id].machineId)
  {
    var other :| other in t.checks && EndpointOf(t, t.checks[other]) == Some(e) && t.checks[other].machineId == OwnerOf(t, e);
    assert other == id;
  }

  lemma NoOwner(t: Tables, e: Endpoint)
    requires forall id :: id in t.checks ==> EndpointOf(t, t.checks[id]) != Some(e)
    ensures !Taken(t, e) && FindOrCreate(t, e) == (AddMachine(t, e.target, e, 3, 1), t.nextMachine)
  {
    hide EndpointOf, AddMachine;
  }

  lemma OneGroup(t: Tables, name: string, g: int)
    requires Inv(t) && g in t.groups && NoCase(t.groups[g]) == NoCase(name)
    ensures EnsureGroup(t, name) == (t, g)
  {
    hide NoCase;
  }
}
