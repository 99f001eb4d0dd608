# Verification of the agentless monitoring service

This project models the stateful core of the monitoring service in Dafny and proves what its code keeps in every run.
Each module follows one part of the Go source:

| module | what it models |
|---|---|
| `Scheduler`, `DueChecks` | `Scheduler.Run`: one dispatcher, W workers, a queue of 2W jobs, the in-flight set and cancellation, as an interleaving of atomic steps; `ListDue` |
| `Ipv4`, `TargetText` | target texts: mask and interval arithmetic on IPv4 addresses, the three accepted forms and their canonical text |
| `ScanPipeline` | `Scanner.Scan` and `probeAddress`: feeder, workers, closer and consumer on unbuffered channels, identity slots, cancellation |
| `DiscoveryService` | `Service.Start` and `Service.run` with the job row and the device rows, end to end over the scan |
| `Thresholds`, `MachineStore` | `recordResult`, `Create`, `Summary`, `ImportDevices`: thresholds over whole histories, statuses as aggregates, unique checks, repeated imports |
| `Limiter` | the login limiter against a limiter that remembers every charge |
| `Identity`, `RowText`, `Fingerprints` | identity groups and hints through maps walked in any order; the comma-joined row texts of ports and fingerprints |
| `Timestamps`, `Sessions` | RFC 3339 texts with nanoseconds, their order, and session expiry that compares them |
| `Text`, `Ordered`, `Sets` | strings in byte order, decimal numerals, splitting and joining; duplicate-free sorting; finite sets |

How the source is represented:

- A concurrent part is a datatype of atomic steps with `Enabled` and `Apply`; its theorems hold for every sequence of
  enabled steps. A class beside it (`Process`, `Service`) has the source's mutable fields, and every turn of a goroutine
  is a method proved to take one enabled step, or none, and to keep the invariant behind the theorems; `Service.Start`
  takes the two steps of claiming the flag and creating the job. A `select` with two ready cases becomes a parameter; so
  does whatever the network, the checks and the database answer.
- Tables are maps. A transaction commits whole or not at all, because the pool holds a single connection
  (`internal/storage/storage.go:37`).
- Times are integers in nanoseconds, and the limiter's clock never goes back. Where the source walks a map, the model
  picks the next key with `:|`, so that the contracts hold for every order.
- Results that would otherwise be lost are kept in ghost fields: the event history of the scheduler, the consume calls
  of a scan, the recorded probes of a job, the charge logs of the limiter.

Some properties that one might expect are not what the code gives. Each has a concrete input that shows it and the
exact condition under which the code does meet it:

- RFC 3339 text order is not time order inside one second, because trailing zeros are trimmed
  (`Timestamps.HalfSecondSortsFirst`); the earlier instant has the smaller text if and only if the two do not share a
  second in which the digits of the earlier begin those of the later (`Timestamps.TextOrder`).
- For the same reason a purge can remove a session that a lookup a moment later would still have accepted
  (`Sessions.PurgeMayComeEarly`); `Sessions.EarlyPurgeExactly` says for which instants it does, all of them inside the
  second in which the session expires.
- The port list shown to people is not a storage format (`RowText.TwoShownPortsLoseOne`); it reads back if and only if
  it has at most one port (`RowText.ShownPortsReadBack`).
- The walk that looks for the oldest limiter key uses the empty string for "none yet" (`Limiter.EmptyKeyIsForgotten`);
  it ends at an oldest key for every iteration order if and only if the table does not track the empty key as its one
  oldest among several (`Limiter.EvictionPicksTheOldest`). The whole eviction loop keeps the youngest keys, in every
  order, if and only if there is nothing to drop, no empty key, or at least as many other keys seen no later than it as
  there are keys to drop (`Limiter.EvictionKeepsTheYoungestIff`). In reachable states the loop never starts, since no
  table outgrows its capacity.
- Groups and hints depend on the iteration order of a map if a device presents two SSH keys
  (`Identity.TwoKeysMakeOrderMatter`). The lists of groups are the same for every order if and only if no two different
  groups have the same smallest member (`Identity.GroupingDeterminedIff`). The hints have a condition of
  their own, again an equivalence (`Identity.HintsDeterminedIff`), which the absence of ties implies
  (`Identity.NoTiesDetermineHints`): of the SSH groups that hold a device take those with
  the largest smallest member; they must be all the groups with that smallest member, alike in size and in sharing a
  certificate; and on a device without an SSH group the certificate groups so chosen must give one hint. The probes
  produce at most one key of each kind per device (`Identity.ProbedDevicesHaveOneEach`), which rules all ties out
  (`Identity.OneEachHasNoTies`), so that the hints of a scan are determined (`Identity.HintsAreDetermined`).

Check the whole project with `dafny verify dfyconfig.toml`.

## Model

| member | source | states |
|---|---|---|
| Scheduler.OnePlaceEach | internal/monitoring/scheduler.go:96-147 | in every reachable state each check in flight is queued, on one worker or in the dispatcher's hand, exactly once; no other check is; the queue holds at most 2W and at most 3W + 1 are in flight |
| Scheduler.HistoriesNeverBreak | internal/monitoring/scheduler.go:96-131 | the events of one check follow the order acquire, take or abort, record begun, record ended, release, in every run |
| Scheduler.RunsDoNotOverlap | internal/monitoring/scheduler.go:115-131 | when a check is taken twice, the first worker has released it before the second take; in between lies one whole record attempt, or, only in a cancelled scheduler, nothing |
| Scheduler.ReleasedWasRecorded | internal/monitoring/scheduler.go:115-131 | until cancellation nothing is aborted, and whatever a worker releases it had taken and recorded from begin to end since its last take |
| Scheduler.NothingBeginsAfterCancellation | internal/monitoring/scheduler.go:116-118 | in every run, after cancellation no record attempt begins and every take is marked late; the history only grows |
| Scheduler.LateJobsAreNotRecorded | internal/monitoring/scheduler.go:116-129 | a worker that is recording took its job before cancellation |
| Scheduler.StepLowersRank | internal/monitoring/scheduler.go:81-131 | every step but the ticker's and a successful listing lowers the measure, from any state of any run |
| Scheduler.RunsWithoutPollsAreShort | internal/monitoring/scheduler.go:96-131 | a run without new listings is no longer than its measure: a dispatch ends however the workers interleave |
| Scheduler.ShutdownTerminates | internal/monitoring/scheduler.go:85-131 | after the jobs channel is closed every continuation is finite and contains no send, no acquire and no record attempt |
| Scheduler.SomebodyCanStep | internal/monitoring/scheduler.go:65-131 | until Run has returned some goroutine can move without waiting for cancellation |
| Scheduler.ReturnLeavesNothing | internal/monitoring/scheduler.go:85-89 | when Run returns, the queue and the in-flight set are empty and every worker has stopped |
| Scheduler.FinishedDispatchAcquired | internal/monitoring/scheduler.go:96-113 | a dispatch that works through its list has acquired every listed check not in flight at its start, only listed ones, and at least W of a full list of 4W |
| Scheduler.DispatchAcquires | internal/monitoring/scheduler.go:96-113 | in every run, between a listing and the end of its dispatch the history acquires every listed check that was not in flight, and at least W of a full list |
| Scheduler.ListDueFeedsDispatch | internal/monitoring/scheduler.go:97-102 | what ListDue returns for 4W rows is a list of distinct checks that fits |
| Scheduler.DueWorkIsNotStarved | internal/monitoring/scheduler.go:96-113 | if some due check was not in flight, a finished dispatch acquired it if it was listed, and some check even if it did not fit the list |
| Scheduler.WorkerCount | internal/monitoring/scheduler.go:48-50 | there is at least one worker, whatever the option says |
| Scheduler.Process.constructor | internal/monitoring/scheduler.go:47-63 | a new scheduler has four workers for an option below one, else as many as asked for, all idle, and satisfies the invariant |
| Scheduler.Process.LoadDue | internal/monitoring/scheduler.go:97-101 | a listing of distinct checks starts a dispatch, an error ends it; either is one enabled step |
| Scheduler.Process.RunTurn | internal/monitoring/scheduler.go:84-93 | a tick starts a dispatch, the Done branch closes the jobs channel and only under cancellation; either is one enabled step, and it waits exactly while there is neither |
| Scheduler.Process.JoinTurn | internal/monitoring/scheduler.go:88-89 | Run returns by one enabled step exactly when every worker has stopped |
| Scheduler.Process.Cancel | internal/monitoring/scheduler.go:86-86 | cancellation from outside is one enabled step |
| Scheduler.Process.Acquire | internal/monitoring/scheduler.go:133-141 | says whether the check was free, and marks it in flight |
| Scheduler.Process.Release | internal/monitoring/scheduler.go:143-147 | takes the check, and only it, out of the in-flight set |
| Scheduler.Process.DispatchNext | internal/monitoring/scheduler.go:102-105 | at the end of the list the dispatcher waits for the ticker; a check in flight is skipped; any other is put in flight and held for sending; one enabled step each |
| Scheduler.Process.SendOrAbort | internal/monitoring/scheduler.go:106-111 | the check goes to the end of the queue, or, only under cancellation, is released and the dispatch ends; it waits exactly while the queue is full and nothing is cancelled |
| Scheduler.Process.ReceiveTurn | internal/monitoring/scheduler.go:116-116 | an idle worker takes the first job of the queue, or leaves once the channel is closed and drained, and otherwise waits |
| Scheduler.Process.WorkerTurn | internal/monitoring/scheduler.go:115-131 | a worker that has run its job records it unless the scheduler is cancelled, then releases it, then is idle; each turn is one enabled step |
| DueChecks.ListDue | internal/machines/store.go:227-246 | the loop returns the first due rows in table order, none for a limit below one |
| DueChecks.FirstDueIsSound | internal/machines/store.go:236-245 | only due rows are listed, at most the limit; a shorter list has left out none |
| DueChecks.DueMeans | internal/machines/store.go:237-239 | a listed check was never run or its interval has passed; with room left, every such check is listed |
| DueChecks.FirstDueIsBeginning | internal/machines/store.go:236-245 | the list is the beginning of all due rows in the order of the table |
| DueChecks.FirstDueKeepsDistinct | internal/machines/store.go:236-245 | rows with distinct check ids stay distinct |
| Ipv4.WalkBlock | internal/discovery/scanner.go:85-91 | walking a block by Next yields exactly its addresses, also where the next address does not exist |
| Ipv4.TargetFromPrefix | internal/discovery/scanner.go:75-99 | the loop computes the host addresses of the masked block, or refuses |
| Ipv4.TargetFromRange | internal/discovery/scanner.go:116-134 | the loop computes the interval between the two ends, or refuses |
| Ipv4.BlockIsInterval | internal/discovery/scanner.go:80-86 | the addresses a prefix contains are the interval of its size from its masked base |
| Ipv4.MaskIdempotent | internal/discovery/scanner.go:80-80 | masking twice is masking once |
| Ipv4.PrefixTargetIsSafe | internal/discovery/scanner.go:77-98 | an accepted block is a nonempty run of consecutive addresses of size 2^(32-b)-2, or 2^(32-b) for b of 31 and 32, none unspecified or multicast although only the base is looked at |
| Ipv4.BlockHosts | internal/discovery/scanner.go:85-94 | of an accepted block of length up to 30 exactly the addresses with both neighbours in the block are scanned, of a /31 or /32 all |
| Ipv4.BlockAcceptedIff | internal/discovery/scanner.go:77-83 | a block is accepted exactly for lengths 24 to 32 and a base that is neither unspecified nor multicast |
| Ipv4.BaseIsLeast | internal/discovery/scanner.go:80-80 | the masked address is the least of its block |
| Ipv4.RangeAcceptedIff | internal/discovery/scanner.go:116-138 | exactly which ends make a range, and that all addresses from one to the other are scanned |
| Ipv4.RangeTargetIsSafe | internal/discovery/scanner.go:116-138 | an accepted range runs from start to end, at most 256 addresses, none unspecified or multicast although only the ends are looked at |
| TargetText.TargetTextExactly | internal/discovery/scanner.go:61-134 | exactly which texts are targets and with which canonical text and addresses: a printed scannable address, a printed address with a printed length whose block is accepted, or two printed addresses around one of three separators whose range is accepted, white space around each part ignored |
| TargetText.V4Exactly | internal/discovery/scanner.go:63-63 | an IPv4 text is an address exactly if it is its printed form |
| TargetText.SingleRoundTrip | internal/discovery/scanner.go:63-67 | the printed form of a scannable address is a target for that address alone |
| TargetText.RangeText | internal/discovery/scanner.go:69-114 | hyphen, en dash and em dash separate the ends of a range with one meaning |
| TargetText.CidrRoundTrip | internal/discovery/scanner.go:72-98 | the printed masked block parses to the target of the block |
| TargetText.CanonicalRoundTrip | internal/discovery/scanner.go:61-134 | for every accepted text the canonical text is accepted and gives the same canonical text and addresses |
| TargetText.AcceptedTargetIsBounded | internal/discovery/scanner.go:61-138 | every accepted text denotes between 1 and 256 consecutive scannable addresses |
| TargetText.AcceptedTargetHasDistinctTexts | internal/discovery/scanner.go:61-134 | the addresses of a target are distinct, and so are their printed forms |
| TargetText.DottedInjective | internal/discovery/scanner.go:67-67 | two IPv4 addresses that print alike are the same |
| TargetText.ColonIsRefused | internal/discovery/scanner.go:75-79 | no text with a colon is a target, whatever the IPv6 parser accepts |
| ScanPipeline.NeverTwiceNeverAfterFailure | internal/discovery/scanner.go:201-225 | in every run the consumed addresses are contained in the input with multiplicity, and no consume call follows one that failed |
| ScanPipeline.NilMeansExactlyOnce | internal/discovery/scanner.go:216-232 | Scan returns nil only after one successful consume call per input address, and its error is the consumer's exactly if a call failed |
| ScanPipeline.FinishedOkIsComplete | internal/discovery/scanner.go:217-232 | a scan that ended well consumed all it was given |
| ScanPipeline.ResultsTellTheNetwork | internal/discovery/scanner.go:235-259 | in every run whose probes report what the network answers, each consumed result of an uncancelled scan lists exactly the open scanned ports in order and the fingerprints of a responsive address; after cancellation it may stop at some port, without fingerprints |
| ScanPipeline.StepLowersRank | internal/discovery/scanner.go:180-259 | every step of every goroutine lowers a measure |
| ScanPipeline.ScanTerminates | internal/discovery/scanner.go:180-259 | every run is at most as long as the measure of its first state |
| ScanPipeline.NoDeadlock | internal/discovery/scanner.go:180-259 | until Scan has returned some goroutine can move, with or without cancellation |
| ScanPipeline.SlotsAreBounded | internal/discovery/scanner.go:246-257 | identity probes under way equal the slots taken, never exceed the capacity, and a finished scan has returned every slot |
| ScanPipeline.Process.Start | internal/discovery/scanner.go:176-187 | a scan starts exactly for 1 to 256 addresses, in the initial state |
| ScanPipeline.Process.Cancel | internal/discovery/scanner.go:180-181 | the end of the outer context is one enabled step |
| ScanPipeline.Process.FeederTurn | internal/discovery/scanner.go:201-210 | the feeder hands the next address to an idle worker, whose probe starts at the first port, or closes jobs, by one enabled step; it waits exactly when neither is possible |
| ScanPipeline.Process.ProbeTurn | internal/discovery/scanner.go:235-259 | an open port is added to the result and a closed one is not; after the ports a responsive address is identified unless cancelled or unasked; the fingerprints found are stored; one enabled step each, waiting only for a slot |
| ScanPipeline.Process.ReceiveTurn | internal/discovery/scanner.go:217-220 | a received result goes to the consumer, or is dropped after a failure |
| ScanPipeline.Process.ConsumeTurn | internal/discovery/scanner.go:221-224 | the first failed consume call is remembered and cancels the scan |
| ScanPipeline.Process.LeaveTurn | internal/discovery/scanner.go:193-197 | a worker stops by giving up its result on cancellation, or when jobs is closed |
| ScanPipeline.Process.EndTurn | internal/discovery/scanner.go:211-232 | results is closed after the last worker; the return value is the consumer's error, else the context's, else nil |
| DiscoveryService.JobsAreFaithful | internal/discovery/service.go:46-91 | in every reachable state a job has responsive hosts = device rows <= processed <= total; its device rows are those of exactly the responsive probes with their normalised ports and fingerprints, and responsive means an open port; a completed job recorded every address once |
| DiscoveryService.CompletedJobsTellTheNetwork | internal/discovery/service.go:70-91 | end to end, in every run whose probes report what the network answers, a completed job has a device row for exactly the target addresses with an open scanned port, holding all their open ports, their detected port and their fingerprints |
| DiscoveryService.NilScanIsFull | internal/discovery/service.go:76-88 | a scan that returned nil has recorded no result cut short |
| DiscoveryService.StepTouchesOwnJob | internal/discovery/service.go:58-91 | a step touches only the job the service is busy with |
| DiscoveryService.FinishedJobsRest | internal/discovery/service.go:58-91 | in every run a job that has completed or failed is the same row in every later state |
| DiscoveryService.RecordingFits | internal/discovery/store.go:184-195 | during a scan the counters' column checks never refuse the next result |
| DiscoveryService.AcceptedTargetsCanStart | internal/discovery/service.go:47-66 | every accepted target text has the distinct, bounded addresses that a scan needs |
| DiscoveryService.RecordKeepsFaithful | internal/discovery/store.go:131-200 | recording one more result of a distinct target keeps counters and device rows in agreement with what was probed |
| DiscoveryService.NilScanIsWhole | internal/discovery/service.go:76-88 | a scan that returns nil has recorded every address of the target |
| DiscoveryService.Store.CreateJob | internal/discovery/store.go:68-81 | a fresh pending row with the number of addresses as its total, which stays when the read-back fails; nothing when the insert fails |
| DiscoveryService.Store.UpdateJobStatus | internal/discovery/store.go:217-232 | sets the status whatever it was; a missing row is the only error, and changes nothing |
| DiscoveryService.Store.StoreProbe | internal/discovery/store.go:131-200 | device row and counters change together, only for a running job and within the column checks, else nothing changes |
| DiscoveryService.Store.StoreResult | internal/discovery/service.go:76-83 | the callback stores a result with its address only if responsive, and fails exactly if the store refuses |
| DiscoveryService.Service.Start | internal/discovery/service.go:46-68 | refuses an invalid target, a sensitive one, a second scan and a failed insert, in that order and without a trace, and a failed read-back leaving only its pending row; otherwise claims the flag and creates the job of the parsed addresses |
| DiscoveryService.Service.MarkJobRunning | internal/discovery/service.go:72-75 | the job is running and its scan starts if the store answers, else the job is to fail and the tables are as before: one enabled step |
| DiscoveryService.Service.ConsumeResult | internal/discovery/service.go:76-83 | one consume call is one enabled step, and fails exactly if the store fails or refuses the result |
| DiscoveryService.Service.ScanMoves | internal/discovery/service.go:76-88 | the scan's own steps and its return are enabled steps; completion follows exactly if it returned nil |
| DiscoveryService.Service.EndJob | internal/discovery/service.go:84-99 | the stored status is completed or failed as the scan ended, if the store answers; the flag is cleared in any case; one enabled step |
| Thresholds.CountersRefineHistory | internal/machines/store.go:328-341 | the two counters are the lengths of the trailing runs of the whole history, and the status is the outcome of the latest prefix whose trailing run met its own threshold, or unknown |
| Thresholds.TrailingRunUnique | internal/machines/store.go:328-341 | only one number is the length of a trailing run, so the refinement determines the counters |
| Thresholds.FlapBound | internal/machines/store.go:328-341 | entering critical k times takes at least k failure runs and k-1 recovery runs of results |
| Thresholds.FlapBoundIsTight | internal/machines/store.go:328-341 | for every k and every pair of thresholds some history meets the bound |
| MachineStore.TablesStayConsistent | internal/machines/store.go:96-388 | after any operations no two checks share target, type, port and path, every machine's status is the aggregate of its enabled checks, and every check is the replay of its recorded history |
| MachineStore.MachineStatusMeans | internal/machines/store.go:362-378 | after any operations a machine is critical exactly if some enabled check of it is, healthy exactly if it has enabled checks and all are, and otherwise unknown |
| MachineStore.CheckSpeaksForHistory | internal/machines/store.go:328-358 | stored counters and status of every check are what its rows in the history define |
| MachineStore.RecordKeepsStatuses | internal/machines/store.go:362-378 | recomputing one machine after a result keeps every machine at the aggregate of its checks |
| MachineStore.AddKeepsInv | internal/machines/store.go:108-149 | inserting a machine and check whose endpoint is free keeps all table invariants |
| MachineStore.SummaryAddsUp | internal/machines/store.go:248-260 | the total equals healthy plus critical plus unknown |
| MachineStore.SummaryCountsMachines | internal/machines/store.go:248-260 | the counts in terms of enabled machines and their enabled checks |
| MachineStore.ImportIsIdempotent | internal/discovery/store.go:313-386 | repeating an import returns 0 and changes no machine, check, membership, device or result; with the same group name nothing at all |
| MachineStore.ImportPutsInGroup | internal/discovery/store.go:328-375 | an import leaves a group of the given name; each selected device belongs to the owner of its endpoint, that machine is in the group, and no other membership was added |
| MachineStore.ImportOneJoins | internal/discovery/store.go:357-375 | one imported device adds exactly the membership of its machine and keeps every row of machines and checks |
| MachineStore.DeviceIsCheckedAt | internal/discovery/store.go:450-462 | address, type, port and path of the check a discovered device gets |
| MachineStore.ImportRefusals | internal/discovery/store.go:314-320 | exactly which group names and selections are refused, and with which error |
| MachineStore.NoCaseMeans | internal/discovery/store.go:335-335 | group names agree exactly if they are alike up to the case of ASCII letters |
| MachineStore.ImportsTheSelected | internal/discovery/store.go:339-380 | an import marks exactly the named devices of the job that were not imported, and returns how many |
| MachineStore.UniquePositiveSpec | internal/discovery/store.go:388-402 | the ids kept are the positive ones, each once |
| MachineStore.Validate | internal/machines/store.go:433-489 | accepted input has a printable name of 1 to 100 bytes, a path that begins with a slash, has at most 256 bytes and no line break, and port, timeout, interval and thresholds in their ranges; missing values get their defaults |
| MachineStore.ValidateExactly | internal/machines/store.go:433-489 | exactly which input is accepted, and what is stored for each field of it |
| MachineStore.UniquePositiveInOrder | internal/discovery/store.go:388-402 | the ids keep the order of their first occurrences |
| MachineStore.OneOwner | internal/discovery/store.go:466-474 | the lookup that takes any one matching row has at most one to take |
| MachineStore.Database.CreateMachine | internal/machines/store.go:96-170 | creates machine and check exactly for valid input with a free endpoint, else changes nothing, and keeps the invariants |
| MachineStore.Database.Record | internal/machines/store.go:283-388 | succeeds exactly for a healthy or critical result of an enabled check; appends that result, updates that check and the status of its machine, and touches no other row; else changes nothing |
| MachineStore.Database.NextHealth | internal/machines/store.go:328-341 | the local counters compute the functional update |
| MachineStore.Database.InsertMachine | internal/machines/store.go:123-152 | the two inserts add an enabled machine of that name and target and its enabled check with those thresholds, both unknown, both under fresh ids |
| MachineStore.Database.UniquePositiveIds | internal/discovery/store.go:388-402 | the loop keeps the positive ids at their first occurrence |
| MachineStore.Database.FindOrCreateMachine | internal/discovery/store.go:464-497 | returns the owner of the endpoint, or creates a machine named after its address with thresholds 3 and 1, and keeps the invariants |
| MachineStore.Database.ImportDevice | internal/discovery/store.go:341-379 | one device: skipped, or found or created, made a member and marked |
| MachineStore.Database.Import | internal/discovery/store.go:313-386 | refuses a bad group name or an empty selection without a change; otherwise leaves the tables of the whole import and returns its count |
| MachineStore.Database.EnsureNamedGroup | internal/discovery/store.go:328-337 | the upsert leaves the one group of that name, letters compared without case |
| Limiter.ChargesAreBounded | internal/server/limiter.go:41-91 | in every run, for every key and instant, the charges since the last reset in the window ending there stay within the limit; so do the stored attempts, and the tables within 4096 keys |
| Limiter.AnswersAreNaive | internal/server/limiter.go:41-51 | the answer is that of counting both full logs, except that a key not tracked is refused while the swept table is full |
| Limiter.RunsRefineTheLog | internal/server/limiter.go:41-91 | while capacity refuses no key, a run charges exactly what a limiter that remembers everything would |
| Limiter.AnswersRefineTheLog | internal/server/limiter.go:41-91 | and each of its answers is the same |
| Limiter.FewKeysRefineTheLog | internal/server/limiter.go:41-91 | calls about at most 4096 sources and 4096 accounts get the logs and the answers of the limiter that remembers everything |
| Limiter.DecisionIsNaive | internal/server/limiter.go:72-91 | one attempt on a tracked key or with room is decided as the full log decides it |
| Limiter.ChargeKeepsBound | internal/server/limiter.go:82-90 | a charge allowed at its own time keeps every window within the limit, past windows and future ones |
| Limiter.SweepKeepsInv | internal/server/limiter.go:61-70 | sweeping leaves the agreement of table and log on every later window |
| Limiter.SweptKeysAreStale | internal/server/limiter.go:93-99 | a removed key has no charge in any window a later attempt looks at |
| Limiter.StaleKeysAreSwept | internal/server/limiter.go:61-70 | in every run no source is tracked that was last seen two minutes ago, and no account last seen six minutes ago |
| Limiter.EvictionPicksTheOldest | internal/server/limiter.go:103-111 | the walk ends at an oldest key for every iteration order if and only if the table does not fool it |
| Limiter.EmptyKeyIsForgotten | internal/server/limiter.go:105-110 | with the empty key oldest and walked first, the walk ends at the other key |
| Limiter.EvictionKeepsTheYoungestIff | internal/server/limiter.go:101-113 | the loop keeps only keys at least as young as those it drops, for all iteration orders, if and only if nothing is to be dropped, the empty key is not tracked, or at least as many others were seen no later than it as keys are to be dropped |
| Limiter.CompactInPlace | internal/server/limiter.go:76-82 | filtering a slice into its own front leaves there exactly the attempts after the cutoff, in order |
| Limiter.AttemptTable.AllowAttempt | internal/server/limiter.go:72-91 | a new key is refused by a full table; otherwise the recent attempts decide, they and a charged attempt are stored with the time of the call, and no other key changes |
| Limiter.AttemptTable.RemoveExpired | internal/server/limiter.go:93-99 | deleting while walking leaves exactly the records seen at or after the cutoff |
| Limiter.AttemptTable.PickOldest | internal/server/limiter.go:103-110 | the inner loop is the walk over some order of the keys |
| Limiter.AttemptTable.EvictOldest | internal/server/limiter.go:101-113 | terminates from any table with what some walks leave: 4096 keys, or the table unchanged below; the youngest ones under the exact condition |
| Limiter.LoginLimiter.constructor | internal/server/limiter.go:33-39 | a new limiter is empty and sound |
| Limiter.LoginLimiter.SweepTables | internal/server/limiter.go:61-70 | sweeps both tables at most once a minute; eviction changes nothing in a sound state |
| Limiter.LoginLimiter.Allow | internal/server/limiter.go:41-51 | charges and asks both tables, whatever the other says, and stays sound |
| Limiter.LoginLimiter.Reset | internal/server/limiter.go:53-59 | forgets source and account, and nothing else |
| RowText.NormalizePorts | internal/discovery/store.go:404-417 | collecting and sorting in any map order yields the normal form |
| RowText.NormalizedPortsSpec | internal/discovery/store.go:404-417 | sorted, unique, exactly the nonzero ports of the input |
| RowText.NormalizedPortsByMembers | internal/discovery/store.go:404-417 | idempotent, and blind to order and repetition |
| RowText.ReadPorts | internal/discovery/store.go:431-440 | the loop keeps the fields that are nonzero 16-bit numerals, normalised |
| RowText.PortRowsRoundTrip | internal/discovery/store.go:238-276 | the joined text of the stored rows, in any order, reads back as the normal form of the input |
| RowText.ShownPortsReadBack | internal/discovery/store.go:442-448 | the shown text reads back if and only if it has at most one port; otherwise only the first is read |
| RowText.DetectedPort | internal/discovery/store.go:419-429 | none without nonzero ports, else 443, 80 or 22 in this order, else the smallest |
| RowText.PortFieldExactly | internal/discovery/store.go:434-436 | exactly which fields are read as a port |
| RowText.TwoShownPortsLoseOne | internal/discovery/store.go:442-448 | the shown text of ports 22 and 80 reads back as 22 alone |
| RowText.NormalizeFingerprints | internal/discovery/identity.go:144-165 | collecting and sorting in any map order yields the normal form |
| RowText.NormalizedFingerprintsSpec | internal/discovery/identity.go:144-173 | sorted by kind and value, unique, trimmed, valid, exactly the usable members of the input |
| RowText.NormalizedFingerprintsExactly | internal/discovery/identity.go:144-173 | exactly which fingerprints are kept, by kind, length and characters, and in which order |
| RowText.NormalizedFingerprintsStable | internal/discovery/identity.go:144-165 | idempotent, and the same for every permutation |
| RowText.FingerprintRowsRoundTrip | internal/discovery/identity.go:175-184 | the joined kind=value text of the stored rows, in any order, reads back as the normal form of the input |
| Identity.GroupingIsDetermined | internal/discovery/identity.go:233-258 | with one key per device every map order gives the same groups: those of the leaders, by smallest member |
| Identity.GroupingDeterminedIff | internal/discovery/identity.go:249-257 | any two map orders give the same groups if and only if no two different groups have the same smallest member |
| Identity.OneEachHasNoTies | internal/discovery/identity.go:36-55 | one key per device rules such ties out |
| Identity.HintsDeterminedIff | internal/discovery/identity.go:186-231 | any two map orders leave the same hints if and only if the SSH ties that may decide a hint are settled, and so are the certificate ties on devices without an SSH group |
| Identity.NoTiesDetermineHints | internal/discovery/identity.go:186-231 | without ties among SSH groups and among certificate groups the hints are determined |
| Identity.HintsAreDetermined | internal/discovery/identity.go:186-224 | with one key and one certificate per device the hints depend on the devices only |
| Identity.TwoKeysMakeOrderMatter | internal/discovery/identity.go:249-257 | with two SSH keys on one device two map orders give different hints |
| Identity.ProbedDevicesHaveOneEach | internal/discovery/identity.go:36-55 | what one probe stores has at most one fingerprint of each kind |
| Identity.ProbeTlsExactly | internal/discovery/identity.go:43-53 | the certificate probe asks the first listed port that is open, and no other even if that one fails |
| Identity.ProbeSshExactly | internal/discovery/identity.go:38-42 | a probe reports the SSH key exactly if port 22 is open and the key was captured |
| Identity.HintsMean | internal/discovery/identity.go:186-231 | what each hint says, in terms of the devices that share a key or a certificate: how many they are, whether they share a certificate too, whether their keys differ, or whether there is anything to go by |
| Identity.NumberCountsFirsts | internal/discovery/identity.go:193-199 | groups are numbered from one in the order of their smallest members |
| Identity.ValuesMeans | internal/discovery/identity.go:288-296 | the values of a kind are those of the device's fingerprints of that kind |
| Identity.SameVmIffKeyShared | internal/discovery/identity.go:191-208 | "Likely same VM" exactly when another device presents the same SSH key |
| Identity.SameNumberIffSameKey | internal/discovery/identity.go:193-207 | two devices share a group number exactly when they present the same SSH key, and then the whole hint |
| Identity.CertificatesDoNotMoveGroups | internal/discovery/identity.go:210-230 | changing certificates never makes, merges, renumbers or breaks an SSH group |
| Identity.MatchingGroups | internal/discovery/identity.go:233-258 | the loops return a grouping: the members of each value with two or more, sorted by smallest member |
| Identity.IndicesByValue | internal/discovery/identity.go:234-245 | the map holds, for every value, the devices that present it in ascending order |
| Identity.GroupSharesFingerprint | internal/discovery/identity.go:260-272 | true exactly if two or more members have a value of the kind in common to all |
| Identity.GroupHasDifferentSshKeys | internal/discovery/identity.go:274-286 | true exactly if every member has a key and two keys differ |
| Identity.Intersect | internal/discovery/identity.go:298-310 | keeps exactly the values in both lists |
| Identity.MarkSshGroups | internal/discovery/identity.go:191-208 | the first pass leaves on every device the hint of the last group that holds it, and knows whom it marked |
| Identity.MarkTlsGroups | internal/discovery/identity.go:210-230 | the second pass writes over unmarked devices only |
| Identity.ClassifyIdentityGroups | internal/discovery/identity.go:186-231 | the hints written in place are those of some grouping, and with one key and certificate per device those that the devices determine |
| Timestamps.TextOrder | internal/auth/sessions.go:51-57 | the earlier instant has the smaller text if and only if the two do not share a second in which its digits begin the other's |
| Timestamps.TextOrderIsTimeOrder | internal/auth/sessions.go:51-57 | in different whole seconds text order is time order |
| Timestamps.HalfSecondSortsFirst | internal/auth/sessions.go:51-57 | half past a second sorts before the second itself |
| Timestamps.StampInjective | internal/auth/sessions.go:57-57 | different instants have different texts |
| Timestamps.StampReadsBack | internal/auth/sessions.go:95-98 | reading a printed instant gives it back to the nanosecond |
| Timestamps.GregorianYears | internal/auth/sessions.go:48-57 | years are counted by the Gregorian rule |
| Timestamps.EpochIsRight | internal/auth/sessions.go:48-57 | the first of January 1970 is day 719528 of the calendar |
| Timestamps.DateIsRight | internal/auth/sessions.go:48-57 | the printed date is a calendar date and has the day number it was printed from |
| Sessions.PurgeComplementsLookup | internal/auth/sessions.go:51-77 | at one instant a stored text is either purged or accepted |
| Sessions.AcceptedExactly | internal/auth/sessions.go:70-78 | exactly when the lookup accepts an expiry, in terms of instants |
| Sessions.ExpiryIsRightToTheSecond | internal/auth/sessions.go:70-78 | never accepted a second or more after expiry, never refused a second or more before it |
| Sessions.EarlyPurgeExactly | internal/auth/sessions.go:51-77 | exactly when a purge removes what a lookup then or later would accept, in terms of instants and their digits |
| Sessions.PurgedStaysDead | internal/auth/sessions.go:51-53 | a purge removes what a later lookup would accept only if all three instants share one second |
| Sessions.PurgeMayComeEarly | internal/auth/sessions.go:51-53 | and that does happen |
| Sessions.CreatedIsFound | internal/auth/sessions.go:48-100 | a new session is found, with the value it was created with, exactly while its text is ahead of now |
| Sessions.PurgeExactly | internal/auth/sessions.go:51-53 | a purge keeps exactly the rows that a lookup at that instant accepts, unchanged |
| Sessions.CreateExactly | internal/auth/sessions.go:30-63 | which creations fail, with which error and what is left, and what a successful one stores and returns |
| Sessions.FoundExactly | internal/auth/sessions.go:65-100 | exactly when a token finds a session, and which: a row whose expiry text is readable and ahead of now, and an active user |
| Sessions.RowSurvives | internal/auth/sessions.go:51-57 | whatever is created, purged or deleted, a row stays until its logout or the last second before its expiry |
| Sessions.SessionSurvives | internal/auth/sessions.go:30-100 | in every such run the token finds the created session at each moment a second or more before its expiry |
| Sessions.SessionEnds | internal/auth/sessions.go:65-93 | a second past expiry the token is refused |
| Sessions.LogoutIsLocal | internal/auth/sessions.go:102-111 | a logout refuses its token and leaves every other as it was |
| Sessions.SessionStore.CreateSession | internal/auth/sessions.go:30-63 | refuses a bad duration or user without a change, purges, and inserts unless a digest or CSRF token clashes |
| Sessions.SessionStore.SessionByToken | internal/auth/sessions.go:65-100 | finds the session of the token's digest if unexpired by text and its user is active |
| Sessions.SessionStore.DeleteSession | internal/auth/sessions.go:103-111 | removes the row of the token's digest; ignores malformed tokens |

## Left out

- Network probes, SSH and TLS handshakes and HTTP checks: whatever they answer is a parameter.
- The SQL engine and the SQL text: tables are maps with the column checks and unique constraints that matter here; files, migrations and permissions are not modelled.
- HTTP handlers, templates, cookies, assets and scripts.
- Password hashing, random tokens and SHA-256: a digest is an arbitrary function; where distinct digests matter the lemma says so.
- `LocalCIDRs`, `guessMachineType`, `IsSensitiveServiceAddress`, `clientAddress`, configuration: one-loop or host-dependent code; the sensitivity test is a parameter of `Service.Start`.
- `lastComplete`, `lastError`, `Stats` and logging of the scheduler; audit events; timestamp, description and error columns; response times.
- Truncation of summaries, error texts and worker names; the English wording of identity hints, which are a datatype here.
- IPv6 literals: their parser is a parameter, since no target with one is accepted.
- Manual check runs, which bypass the in-flight set; a second call of `Scheduler.Run` on one object.
- Scheduler.StepLowersRank: the ticker and a successful listing are excluded, because a scheduler that is not cancelled runs forever.
- Scheduler.ShutdownTerminates: counts steps of the scheduler; that a check runner and the store return is taken for granted.
- DiscoveryService.JobsAreFaithful: does not say that every job leaves the running status, because storing the final status may fail.
- Limiter.AttemptTable.AllowAttempt: copies the stored attempts into an array and compacts that in place; that the record and the compacted slice share one array is modelled by `CompactInPlace` alone.
- Identity.MatchingGroups: inserts each group at its place instead of sorting at the end; ties fall in the order of the walk, which is arbitrary, so that the reachable lists are the same. The `excluded` parameter, always nil, is dropped.
- Timestamps.StampReadsBack: only the shape that formatting produces is read; time zones other than UTC and years beyond 9999 are not part of this model.
- DueChecks.ListDue: takes the joined rows as a list in the order of the query; the query and the parsing of its columns are not modelled.
- MachineStore.Database.CreateMachine: the printed form of the target address comes from a parameter, and the description is dropped.
