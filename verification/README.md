# kvm-node-agent: a Dafny model and its proofs

kvm-node-agent is a Kubernetes operator that manages one KVM host: it reports what the host offers
and what its virtual machines take, updates the operating system, watches live migrations, delays
shutdowns until the host is evacuated, and installs TLS certificates for libvirt. This project models
the parts that keep state or do arithmetic, and proves what they promise for every input and every
interleaving.

| file | what it models |
|---|---|
| `Wrappers.dfy` | the optional value the other modules share |
| `Sums.dfy` | sums and permutations of lists, used by the accounting proofs |
| `Units.dfy` | 64-bit memory amounts, binary prefixes, the text form of a UUID |
| `Capacity.dfy` | NUMA capacity, allocation and effective capacity, as the code computes them |
| `CapacityLaws.dfy` | conservation, order independence and rounding of those numbers |
| `Processing.dfy` | the six-step libvirt pipeline that fills the hypervisor status |
| `OsUpdate.dfy` | the operating-system update with its retry budget, over whole histories of reconciles |
| `Inhibitor.dfy` | the shutdown inhibitor: reconcile thread, callback goroutines and channels, interleaved |
| `MigrationWatch.dfy` | migration watches: event handlers and polling goroutines, interleaved |
| `EventDispatch.dfy` | event subscription and the dispatching loop |
| `TlsFiles.dfy` | installation of the TLS files and links, with failures at any step |
| `TlsContent.dfy` | what the installed paths lead to on disks with any links |
| `TlsInstall.dfy` | the secret reconciler across errors, crashes and restarts |

`dafny verify dfyconfig.toml` checks everything. Calls into libvirt, systemd, logind, the file system
and the API server are inputs of the model: each operation takes their answers, or their failures, as
arguments, and the theorems quantify over all of them.

## What the proofs say about the code

Where the code does not do what its comments or its design promise, the model follows the code. For each
deviation below, one lemma or method exhibits it on a history that starts from the beginning or on a concrete
input, and another gives the exact condition under which the promise holds.

- **Process does not return the object unmodified on error** (comment at
  internal/libvirt/libvirt.go:270). It returns the result of the steps before the failing one
  (`Processing.UnmodifiedPromiseFails`). The accounting fields are never half updated; the object is
  unmodified exactly when the earlier steps had nothing new to write (`Processing.FailureLeaves`).
- **The inhibitor lock is never released by the shutdown callback.** The goroutine that runs the
  callback is the only receiver of the stop message it then sends, so the lock whose callback has
  started stays held in every continuation (`Inhibitor.FiredLockNeverReleased`, from the start in
  `Inhibitor.ShutdownIsNeverReleased`). `Inhibitor.ReleasableExactly` says when a held lock can still be
  released; a failed signal match leaks it (`Inhibitor.FailedMatchLeaks`).
- **Switching the inhibitor off after that hangs the reconciler for good**
  (`Inhibitor.ReconcilerHangs`). It gets out of its send exactly if a goroutine waits
  (`Inhibitor.SendCompletesExactly`).
- **A signal left in the channel when the inhibitor is switched off** fires the callback of the next lock
  without any new shutdown, as long as the bus is open (`Inhibitor.SpuriousCallbackExactly`, from the start in
  `Inhibitor.LeftoverSignalHappens`).
- **A migration watch that times out blocks its successor.** Its entry stays in the job table, and no
  watch for the domain starts until a stop event (`MigrationWatch.TimeoutBlocksRestart`,
  `MigrationWatch.SecondMigrationUnwatched`; `MigrationWatch.StartTakesEffect` is the exact condition).
- **A reaped job never ends its watch**, because the error is swallowed before it reaches the loop: a watch
  goes on exactly until its timeout or a stop event (`MigrationWatch.RunsUntilStopped`).
- **The event loop has no orderly exit.** A cancelled context is received as a closed channel and takes
  the panic (`EventDispatch.LibVirt.RunEventLoop`).
- **Ready can be false after a restart that cannot read a current version file**: memory then forgets
  the version, a reinstallation is cut short, and the next restart trusts the file again
  (`TlsInstall.FalseReadyHappens`). A restart is safe exactly when it reads the file, or the file is not
  current, or the current secret has only empty entries (`TlsInstall.RestartSafeExactly`).
- **A reported TLS installation can leave paths that lead to the wrong entry**, because writes follow
  symbolic links. On every disk a success is sure to leave every managed path leading to its own entry
  exactly if the disk led home before the call (`TlsContent.ServesExactly`): with the client links
  corrected every path ends, and all files written there have its entry. Links as such do no harm
  (`TlsContent.HarmlessLink`); a link between files of two entries does (`TlsContent.SharedLinkSpoils`),
  and so does a file behind a client link that gets corrected (`TlsContent.DetourSpoils`). Ready is
  reported on both (`TlsInstall.LinkedReady`). Over whole runs, on a disk without such detours, a Ready
  is true exactly if files that end at one path have the same content (`TlsInstall.ReadyIsTruthful`,
  `TlsInstall.SharedNeverTruthful`).
- **A target changed during an update is recorded as installed although its own unit was never started**
  (`OsUpdate.SwitchedTargetIsRecorded`). What a finish records is what was last begun exactly if the
  target has not changed since (`OsUpdate.FinishRecordsOwnExactly`), as it never has if the target is
  held while an update is in progress (`OsUpdate.HeldTargetRecordsOwn`).
- **The retry limit assumes stored statuses.** Three attempts at most are made between two refills for
  one target if no status write is lost; every lost write can cost one more, and the bound is attained
  for every number of them (`OsUpdate.TargetBudget`, `OsUpdate.BudgetIsExact`).
- A unit that is still activating ends the update as installed
  (internal/systemd/systemd.go:273 and 299); `OsUpdate.Judge` keeps that.
- Overcommitted values are converted by truncation, which is the documented rounding down exactly for
  products that are not negative fractions (`CapacityLaws.TruncIsFloor`).

## Model

| member | source | states |
|---|---|---|
| `Units.MemoryToResourceExact` | internal/libvirt/utils.go:65-83 | for every value and unit, the wrapping 64-bit products equal the exact product wrapped once; the amount is exact if and only if the exact product fits 64 bits; unknown units are the error case |
| `Units.UnitTable` | internal/libvirt/utils.go:65-83 | the four units with their sizes in bytes, and that every other unit is an error |
| `Units.ByteCountIEC` | internal/libvirt/utils.go:50-62 | for every 64-bit count the loop ends with div a power of 1024, div at most the count and the count below 1024 div, the prefix index in range and div within a signed 64-bit integer |
| `Units.PrefixUnique` | internal/libvirt/utils.go:55-61 | no other prefix puts the count in range |
| `Units.UuidString` | internal/libvirt/utils.go:36-48 | the buffer filled group by group is the canonical form |
| `Units.CanonicalShape` | internal/libvirt/utils.go:36-48 | 36 characters, dashes at 8, 13, 18 and 23, lower-case hexadecimal digits elsewhere (section 4 of RFC 9562) |
| `Units.CanonicalDigits` | internal/libvirt/utils.go:36-48 | every byte in its place, high half first, as hexadecimal digits |
| `Units.RoundTrip` | internal/libvirt/utils.go:36-48 | a decoder recovers all sixteen bytes from the canonical form |
| `Units.NamesAreDistinct` | internal/libvirt/libvirt_events.go:61-63 | two domains share a Migration object name if and only if their UUIDs are equal |
| `Capacity.AddCapabilities` | internal/libvirt/libvirt.go:331-356 | host memory and CPUs are the sums over all topology cells, or the first unknown unit is the error |
| `Capacity.ReadTopology` | internal/libvirt/libvirt.go:443-474 | totals over all cells, and one map entry per cell id, the last cell of an id winning |
| `Capacity.ChargeCells` | internal/libvirt/libvirt.go:503-520 | every cell gets the per-cell amount once for each time it is named, or the first unknown id is reported |
| `Capacity.ChargeDomain` | internal/libvirt/libvirt.go:483-544 | one domain is charged to its cells by the closed form, or its first failing check is the fault |
| `Capacity.CellSlice` | internal/libvirt/libvirt.go:545-548 | whatever the map order, the slice holds each cell exactly once |
| `Capacity.AddAllocationCapacity` | internal/libvirt/libvirt.go:435-558 | fails exactly when a check fails, with the first fault in order (nil dereferences included); otherwise totals and cells are the closed form up to cell order and nothing else changes |
| `CapacityLaws.Conservation` | internal/libvirt/libvirt.go:481-544 | for every topology, domain list and resource: total allocation equals the sum over the cells plus the remainders of the even splits plus the whole amount of domains that name no cell |
| `CapacityLaws.CpuFromDescriptions` | internal/libvirt/libvirt.go:496-544 | from the descriptions alone: without a fault the CPU allocation is the number of pinned vCPUs of all domains, and that of every reported cell the sum over the domains of an even share of their pins for each time they name the cell |
| `CapacityLaws.MemoryFromDescriptions` | internal/libvirt/libvirt.go:484-520 | the same for memory in bytes, over the memory nodes a domain names |
| `CapacityLaws.CapacityFromTopology` | internal/libvirt/libvirt.go:443-474 | from the topology alone: total capacities over all cells, and for a reported cell those of the last topology cell with its id |
| `CapacityLaws.DomainFaultExactly` | internal/libvirt/libvirt.go:484-531 | a domain passes if and only if nothing is missing and unit and cells are known; otherwise which fault it gets, after which passed checks |
| `CapacityLaws.FirstDomainFaultMeans` | internal/libvirt/libvirt.go:483-544 | the fault of a list of domains is that of the first domain with one |
| `CapacityLaws.CellsWithinTotal` | internal/libvirt/libvirt.go:512-517 | with non-negative amounts the cells never exceed the total, a placed domain loses less than one unit per cell it names, and all of them together at most that |
| `CapacityLaws.TakenIsExact` | internal/libvirt/libvirt.go:484-500 | a domain takes exactly the bytes its description names if and only if they fit 64 bits, and then a non-negative description takes a non-negative amount |
| `CapacityLaws.OrderIndependent` | internal/libvirt/libvirt.go:483-548 | permuting the domains, and any map order, changes neither success nor any total or cell |
| `CapacityLaws.CellsAreSurvivors` | internal/libvirt/libvirt.go:462-474 | the reported cells are exactly the topology cells no later cell with the same id replaces |
| `CapacityLaws.EachCellOnce` | internal/libvirt/libvirt.go:446-474 | with distinct ids every topology cell is reported exactly once, with its own capacity |
| `CapacityLaws.CapacityAddsUp` | internal/libvirt/libvirt.go:443-474 | with distinct ids the cell capacities sum to the total capacity |
| `CapacityLaws.CapacityAddsUpExactly` | internal/libvirt/libvirt.go:454-462 | with positive capacities the sums agree if and only if the ids are distinct |
| `Capacity.EffectiveAmounts` | internal/libvirt/libvirt.go:568-577 | the effective map has exactly the keys of the capacity map, each value truncated after multiplication by its ratio, 1.0 by default, in any map order |
| `Capacity.AddEffectiveCapacity` | internal/libvirt/libvirt.go:565-594 | totals and every cell get fresh effective capacities; nothing stale survives and nothing else changes |
| `CapacityLaws.TruncIsFloor` | internal/libvirt/libvirt.go:560-574 | truncation is the documented rounding down if and only if the product is not a negative fraction |
| `CapacityLaws.ProductsRounded` | internal/libvirt/libvirt.go:565-594 | in total and in every cell each effective amount is the exact product of capacity and ratio rounded toward zero, the capacity itself without a ratio, and nothing else in the status changes |
| `CapacityLaws.EffectiveFloors` | internal/libvirt/libvirt.go:565-594 | after both steps, for every non-negative ratio: sum of cell effective capacities at most the total effective capacity, which is at most that sum plus the number of cells minus one |
| `CapacityLaws.OvercommitNeverShrinks` | hack/crds/hypervisor-crd.yaml:186-188 | with ratios of at least one no non-negative capacity shrinks, neither the total, with or without cells, nor that of any cell |
| `CapacityLaws.NoRatioKeepsCapacity` | internal/libvirt/libvirt.go:570-573 | a resource without a ratio keeps its capacity, in total, with or without cells, and in every cell |
| `Processing.AddInstancesInfo` | internal/libvirt/libvirt.go:301-327 | active domains then inactive ones, flagged, with their number; the first failed listing is the error |
| `Processing.Process` | internal/libvirt/libvirt.go:272-289 | stops at the first failing step and returns exactly the result of the steps before it; succeeds if and only if every answer arrives and no check fails, whatever the status was |
| `Processing.FaultFromAnswers` | internal/libvirt/libvirt.go:272-289 | the failing step and the fault, from the answers: the first one missing or refused |
| `Processing.SuccessFromAnswers` | internal/libvirt/libvirt.go:272-289 | succeeds if and only if all answers arrive, all units and cells are known and no description is incomplete |
| `Processing.FailureFills` | internal/libvirt/libvirt.go:283-286 | every field of the status a failed call returns |
| `Processing.FailureLeaves` | internal/libvirt/libvirt.go:269-286 | on every error totals, cells and effective capacities are the old ones, and the object is unmodified if and only if the earlier steps had nothing new |
| `Processing.UnmodifiedPromiseFails` | internal/libvirt/libvirt.go:269-272 | a concrete failure that returns a modified object |
| `Processing.FiveSteps` | internal/libvirt/libvirt.go:273-287 | closed form of every field after a successful call |
| `Processing.StatusFromAnswers` | internal/libvirt/libvirt.go:301-356 | after a success: active domains listed as active, then inactive ones as inactive, versions, architecture, host totals in bytes and capabilities, from the answers alone |
| `Processing.AccountingFromAnswers` | internal/libvirt/libvirt.go:435-594 | after a success: allocation and rounded effective capacities, in total and in every cell, from the answers alone |
| `Processing.Determined` | internal/libvirt/libvirt.go:550-592 | two successful calls with the same answers and ratios agree up to cell order, whatever stale cells or capacities were present |
| `Processing.Idempotent` | internal/libvirt/libvirt.go:272-289 | processing its own output with the same answers changes nothing but the cell order |
| `Processing.StatusAddsUp` | internal/libvirt/libvirt.go:331-594 | end to end: allocation conserved; with one consistent topology and distinct ids the host totals, the capacity and the cell sums agree and flooring costs less than one unit a cell |
| `OsUpdate.Systemd.ReconcileSysUpdate` | internal/systemd/systemd.go:251-300 | units started, running flag and error are those of the verdict on stored status and unit state |
| `OsUpdate.HypervisorReconciler.Reconcile` | internal/controller/hypervisor_controller.go:228-310 | the stored status and the calls made are those of the verdict, the status only if its write lands |
| `OsUpdate.InstalledExactly` | internal/systemd/systemd.go:271-299 | one reconcile changes the installed version if and only if it is stored, there is something to update and a retry left, an update is in progress, and its unit is known and neither active nor failed, with the reboot started if one is due |
| `OsUpdate.RetrySpentExactly` | internal/controller/hypervisor_controller.go:255-273 | one reconcile spends a retry if and only if systemd cannot be asked, the unit failed, or a unit that had to be started was not; it then stops the update and keeps the version |
| `OsUpdate.FailedUnitCosts` | internal/systemd/systemd.go:275-277 | a failed unit in progress costs one retry, clears progress, keeps the version and starts nothing |
| `OsUpdate.RefillExactly` | internal/controller/hypervisor_controller.go:234-253 | the retries are refilled if and only if none is left for a pending target and the write lands; nothing is started with none left |
| `OsUpdate.BegunExactly` | internal/systemd/systemd.go:286-299 | an update begins if and only if the unit is found active or is started, and an active one goes on |
| `OsUpdate.CallsExactly` | internal/systemd/systemd.go:278-296 | the units one reconcile asks for, stored or not: exactly when the update unit of the target, exactly when the reboot |
| `OsUpdate.StandsStill` | internal/controller/hypervisor_controller.go:229-231 | with nothing to update, or unstored, the status stays; an empty, running or installed target starts nothing |
| `OsUpdate.SoundForever` | internal/controller/hypervisor_controller.go:234-297 | in every history retry stays in 0..3 and an update in progress has a retry left |
| `OsUpdate.ReportedForever` | internal/controller/hypervisor_controller.go:275-297 | an update in progress is always reported as running |
| `OsUpdate.StartsAreCalls` | internal/systemd/systemd.go:287-296 | the counted attempts are exactly the update-unit starts in the call log |
| `OsUpdate.RetryAccount` | internal/controller/hypervisor_controller.go:234-273 | in every history, start value plus three per refill equals stored failures plus end value |
| `OsUpdate.FailuresBeforeReset` | internal/controller/hypervisor_controller.go:234-273 | from retry k exactly k stored failures come before the refill |
| `OsUpdate.AttemptBudget` | internal/controller/hypervisor_controller.go:229-298 | for any targets, states and lost writes: attempts plus what is left never exceed the initial budget plus installations, three per refill and lost attempts |
| `OsUpdate.TargetBudget` | internal/controller/hypervisor_controller.go:229-298 | the same for one fixed target, without the allowance for installations |
| `OsUpdate.AtMostThreeStarts` | internal/controller/hypervisor_controller.go:229-298 | one target, no lost write, no refill: at most three attempts |
| `OsUpdate.LostWritesUnbounded` | internal/controller/hypervisor_controller.go:306-309 | for every n, a history of n lost writes with n attempts and an unchanged status |
| `OsUpdate.BudgetIsExact` | internal/controller/hypervisor_controller.go:229-309 | for every n a history of one target with no refill, n lost attempts and n + 3 attempts: the bound of `TargetBudget` is attained |
| `OsUpdate.InstalledOnlyAfterStart` | internal/systemd/systemd.go:271-299 | from a status not in progress, the installed version changes only after a stored reconcile started some update unit or saw it active |
| `OsUpdate.FinishRecordsOwnExactly` | internal/systemd/systemd.go:260-299 | for any targets: a stored finish records the current target, and the unit last started or seen active is the one of that version if and only if the reconcile that last began an update had the same target |
| `OsUpdate.LastBegunMeans` | internal/controller/hypervisor_controller.go:255-298 | the folded target is that of the last reconcile that began an update |
| `OsUpdate.UnitNamesDistinct` | internal/systemd/systemd.go:260-263 | the unit of "latest" and of every other version, and that two versions share a unit if and only if they are equal |
| `OsUpdate.HeldTargetRecordsOwn` | internal/systemd/systemd.go:260-299 | over whole runs: if no reconcile changes the target while an update is in progress, every stored finish records a version whose own unit was the last one started or seen active |
| `OsUpdate.FixedTargetRecordsOwn` | internal/controller/hypervisor_controller.go:255-298 | the same for one target throughout |
| `OsUpdate.SwitchedTargetIsRecorded` | internal/systemd/systemd.go:260-285 | for any two versions: started for the first, switched to the second, found inactive; the second is recorded as installed and only the unit of the first was ever started |
| `OsUpdate.InstalledIsFinal` | internal/controller/hypervisor_controller.go:229-233 | once the target is installed no unit is started, not even for reboot, and the status stands still |
| `OsUpdate.ExhaustedMeansStopped` | internal/controller/hypervisor_controller.go:234-253 | retry is zero only with nothing in progress; the next stored reconcile refills it and starts nothing |
| `OsUpdate.UpdateCompletes` | internal/controller/hypervisor_controller.go:255-298 | started once, seen active any number of times, then inactive: installed with no retry spent and exactly one start, plus the reboot if asked for |
| `Inhibitor.SystemdConn.EnableShutdownInhibit` | internal/systemd/systemd.go:117-190 | an uninterrupted call is the given sequence of protocol steps, with every failure, a closed connection included; an error after the lock was granted keeps lock and goroutine |
| `Inhibitor.SystemdConn.DisableShutdownInhibit` | internal/systemd/systemd.go:193-214 | the whole new state, whoever calls: nothing without a lock; otherwise the call blocks if and only if its receiver does not wait, and the lock goes only with a good close |
| `Inhibitor.SystemdConn.FollowSpec` | internal/controller/hypervisor_controller.go:165-177 | for every state: an uninterrupted pass is the given sequence of protocol steps, possibly ending stuck in the send; the flag adopts the specification exactly when the call succeeds |
| `Inhibitor.SystemdConn.HandleSignal` | internal/systemd/systemd.go:157-174 | the goroutine from signal to its own disable is the given sequence of protocol steps, and tells whether it stays blocked in its own send |
| `Inhibitor.StepKeepsInv` | internal/systemd/systemd.go:117-214 | every step of every thread keeps the protocol invariant |
| `Inhibitor.Safety` | internal/systemd/systemd.go:117-214 | in every interleaving: a live goroutine implies a held descriptor, at most one is live, each lock's callback runs at most once, and the reconciler's flag implies a held lock |
| `Inhibitor.FiredLockNeverReleased` | internal/systemd/systemd.go:157-174 | once a goroutine has taken the signal its lock is held in every continuation |
| `Inhibitor.ReleasableExactly` | internal/systemd/systemd.go:117-214 | at every point of every call a held lock has a releasing continuation if and only if its goroutine waits or is about to start, and the flag is set or can still be set over the open bus |
| `Inhibitor.LeakedForever` | internal/controller/hypervisor_controller.go:165-177 | otherwise the descriptor is kept and no goroutine is started but one already due, in every continuation |
| `Inhibitor.SendCompletesExactly` | internal/systemd/systemd.go:205-206 | the reconcile thread in its send has a continuation that gets it out if and only if a goroutine waits; otherwise it hangs forever |
| `Inhibitor.ShutdownIsNeverReleased` | internal/systemd/systemd.go:157-174 | from the start: one granted lock, one signal, and the lock is held in every continuation |
| `Inhibitor.ReconcilerHangs` | internal/controller/hypervisor_controller.go:165-177 | after that, switching the inhibitor off leaves the reconcile thread in its send in every continuation |
| `Inhibitor.FailedMatchLeaks` | internal/systemd/systemd.go:180-187 | a concrete history: granted lock, failed signal match, leak |
| `Inhibitor.BusCloseLeaks` | internal/systemd/systemd.go:157-161 | from the start: the bus closes, the waiting goroutine ends, and the lock is held in every continuation |
| `Inhibitor.SpuriousCallbackExactly` | internal/systemd/systemd.go:108-174 | with no lock held, a callback can start without a further signal if and only if a signal is left in the channel and the bus is open |
| `Inhibitor.LeftoverSignalHappens` | internal/systemd/systemd.go:193-214 | from the start: a run to a state without a lock from which a callback can start without a further signal |
| `Inhibitor.UnmatchedNeverFires` | internal/systemd/systemd.go:180-187 | as long as no signal match is added nothing reaches an empty channel and no callback starts |
| `MigrationWatch.LibVirt.StartMigrationWatch` | internal/libvirt/libvirt_events.go:140-186 | new table and goroutines after a start with any outcome of its API calls; when it fails, and that an error changes nothing |
| `MigrationWatch.LibVirt.StopMigrationWatch` | internal/libvirt/libvirt_events.go:188-194 | the stored watch is cancelled and its entry removed |
| `MigrationWatch.LibVirt.OnLifecycleEvent` | internal/libvirt/libvirt_events.go:86-138 | stopped and shutdown events stop the watch, all others leave it |
| `MigrationWatch.WatchMigrationLoop` | internal/libvirt/libvirt_events.go:230-259 | the loop patches on every turn before the first with a cancelled context and ends exactly there |
| `MigrationWatch.OneWatchPerDomain` | internal/libvirt/libvirt_events.go:154-194 | in every interleaving at most one uncancelled watch per name, its cancel function is the stored one, and only cancelled watches have ended |
| `MigrationWatch.NoneAfterStop` | internal/libvirt/libvirt_events.go:188-194 | after a stop the domain is unwatched until the next successful start |
| `MigrationWatch.StartTakesEffect` | internal/libvirt/libvirt_events.go:158-185 | an iteration event leaves the domain watched if and only if it was, or no entry is stored and every API call succeeds |
| `MigrationWatch.RestartsAfterStop` | internal/libvirt/libvirt_events.go:188-194 | after a stop the next iteration event whose API calls succeed starts a watch again |
| `MigrationWatch.StaleEntryBlocks` | internal/libvirt/libvirt_events.go:158-184 | an entry whose watch is cancelled stays and blocks every restart until a stop event |
| `MigrationWatch.TimeoutBlocksRestart` | internal/libvirt/libvirt_events.go:158-184 | in every history, a running watch that times out leaves its domain unwatched until a stop event |
| `MigrationWatch.SecondMigrationUnwatched` | internal/libvirt/libvirt_events.go:158-184 | from the start: a watch times out and a second migration of the domain goes unwatched |
| `MigrationWatch.CancelledWatchEnds` | internal/libvirt/libvirt_events.go:235-244 | in every schedule a cancelled watch begins no further patch and is out of its loop after at most three steps of its own |
| `MigrationWatch.CancelledCanEnd` | internal/libvirt/libvirt_events.go:235-252 | a cancelled watch is never stuck: from its select, either way, and after a patch it can go on to its end |
| `MigrationWatch.PatchesExactly` | internal/libvirt/libvirt_events.go:230-259 | in every schedule a watch begins one patch for every context check after its timer fired, up to its timeout or a stop event of its domain, and no other |
| `MigrationWatch.WatchPatches` | internal/libvirt/libvirt_events.go:230-259 | from the start: a watch that takes n turns, whatever its polls answer, patches n times |
| `MigrationWatch.RunsUntilStopped` | internal/libvirt/libvirt_events.go:188-259 | in every schedule a watch goes on if and only if neither its timeout nor a stop event of its domain has come: no answer of a poll, a reaped job included, ends it |
| `EventDispatch.LibVirt.WatchDomainChanges` | internal/libvirt/libvirt.go:240-267 | the table is the last registration of every pair, an id is subscribed successfully at most once and asked for only until then, every subscribed id has a handler |
| `EventDispatch.LibVirt.Distribute` | internal/libvirt/libvirt.go:219-229 | each handler registered for the id is called exactly once with the value, and no other |
| `EventDispatch.LibVirt.RunEventLoop` | internal/libvirt/libvirt.go:170-231 | over every sequence of registrations and receives, delivery follows the registrations made so far, and the loop ends only in the panic |
| `EventDispatch.ServedExactly` | internal/libvirt/libvirt.go:200-231 | the loop goes on exactly past registrations, receives over open channels and channels nobody subscribed to, delivering what it receives; it panics exactly where it cannot go on |
| `EventDispatch.LastRegisteredMeans` | internal/libvirt/libvirt.go:249-252 | a table entry is the handler of the last registration naming the pair, and conversely |
| `EventDispatch.DeliveredExactly` | internal/libvirt/libvirt.go:219-229 | the calls for an event, from the registrations: one with its value for every handler id named for it, with the last handler |
| `EventDispatch.DeliveryDetermined` | internal/libvirt/libvirt.go:227-229 | the calls for an event are determined up to order |
| `TlsFiles.TablesAgree` | internal/certificates/manage_libvirt.go:127-138 | the tables of files and links, read by path |
| `TlsFiles.ManagedByName` | internal/certificates/manage_libvirt.go:127-138 | the nine files with their entries and the six links with their server files, by name |
| `TlsFiles.CertificateStore.WriteTarget` | internal/certificates/manage_libvirt.go:154-162 | on any disk: succeeds if and only if directory and write go well and the links in its place end; the data, or a beginning of it if the write fails, is at the end of those links, wherever that is, and the links stay |
| `TlsFiles.CertificateStore.LinkTarget` | internal/certificates/manage_libvirt.go:172-207 | absent link made, right one kept, wrong one replaced, regular file refused; exact success condition and exact tree in every failure |
| `TlsFiles.CertificateStore.UpdateTLSCertificate` | internal/certificates/manage_libvirt.go:140-211 | on any disk, in any table order: the exact success condition; after a success every path a managed path leads to, in any directory or outside, holds what one leading there must, and nothing else changed; after a failure some paths are done, files before links, and the failing one is left as its failure says; no link changes but client links that were wrong |
| `TlsFiles.SuccessExactly` | internal/certificates/manage_libvirt.go:140-211 | the calls that succeed, by entry, failing system call and what is at each path |
| `TlsFiles.CompletedMeans` | internal/certificates/manage_libvirt.go:144-210 | without links in place of files, handling every path makes the managed paths right and leaves the rest untouched |
| `TlsContent.ServesExactly` | internal/certificates/manage_libvirt.go:140-211 | on every disk: all outcomes of a successful call leave every managed path leading to its own entry if and only if, on the disk before the call with its client links corrected, every managed path ends and all files that end there have its entry |
| `TlsContent.EndIsWritten` | internal/certificates/manage_libvirt.go:154-207 | following links through corrected client links always ends at a path some file was written to |
| `TlsContent.CalmExactly` | internal/certificates/manage_libvirt.go:172-207 | if no file is behind a client link the call changes, the condition is that files ending at one path have the same content |
| `TlsContent.InPlaceServesExactly` | internal/certificates/manage_libvirt.go:127-138 | what an installation leaves on such a disk serves every path if and only if files ending at one path have the same content |
| `TlsContent.HarmlessLink` | internal/certificates/manage_libvirt.go:154-162 | a linked disk on which the call succeeds and every path leads to its entry |
| `TlsContent.SharedLinkSpoils` | internal/certificates/manage_libvirt.go:154-162 | a CA path linked to a server certificate: success, and some path is wrong in every order |
| `TlsContent.DetourSpoils` | internal/certificates/manage_libvirt.go:172-207 | a CA path behind a wrong client link: no two files end together, and after the success the CA path leads to the server certificate |
| `TlsContent.InstalledServes` | internal/certificates/manage_libvirt.go:127-138 | on an installed tree every file leads to its secret entry and every client link to that of the server file of its own directory |
| `TlsFiles.ReplacedUnique` | internal/certificates/manage_libvirt.go:144-210 | the resulting tree does not depend on the order or on what was at managed paths before |
| `TlsFiles.InstallIdempotent` | internal/certificates/manage_libvirt.go:140-211 | on an installed tree the call succeeds even if no link can be made or removed, and changes nothing |
| `TlsInstall.SecretReconciler.SetupWithManager` | internal/controller/secret_controller.go:127-136 | memory after a restart is the version file, or empty if it cannot be read |
| `TlsInstall.SecretReconciler.Reconcile` | internal/controller/secret_controller.go:59-124 | every outcome of one reconcile, with the state each leaves |
| `TlsInstall.ReconcileExactly` | internal/controller/secret_controller.go:75-123 | one reconcile by what it meets: unwanted or unannounced it changes nothing, a known version is ready at once, a new one is ready and recorded if and only if the files were written, a service came up and the process survived |
| `TlsInstall.UnwantedTouchesNothing` | internal/controller/secret_controller.go:75-78 | a run without a wanted reconcile touches no file, records nothing and reports no Ready |
| `TlsInstall.StepKeepsInv` | internal/controller/secret_controller.go:80-136 | recorded versions stay trustworthy through every event |
| `TlsInstall.ReadyIsTruthful` | internal/controller/secret_controller.go:80-136 | across failures, files cut off anywhere, crashes and restarts, from any disk on which no file is behind a client link yet to be corrected, and with no unsafe restart: a Ready is true, every managed path leading to its entry of the version read, if and only if on the first disk files ending at one path have the same content in that version; without links in place of files it always is, and every managed path is a right file or link |
| `TlsInstall.InstalledOnce` | internal/controller/secret_controller.go:80-83 | through any sequence of reconciles of a recorded version and restarts that read the file, no file is touched and every wanted reconcile reports Ready |
| `TlsInstall.ReadyIsLasting` | internal/controller/secret_controller.go:80-136 | after a reported and recorded installation the paths lead to its version through every later reconcile of it and every restart that reads the file, if and only if files ending at one path of the first disk have the same content in it |
| `TlsInstall.BlindRestartMisleads` | internal/controller/secret_controller.go:130-136 | from every state with a current version file and a non-empty entry, an unreadable restart can be continued to a false Ready by one write cut off at its start |
| `TlsInstall.FalseReadyHappens` | internal/controller/secret_controller.go:80-136 | from an empty disk, for every history whose first secret is complete and not empty: a run to a false Ready |
| `TlsInstall.StaleReadMisleads` | internal/controller/secret_controller.go:59-124 | without the assumption that reads do not go back: a run from an empty disk to a false Ready |
| `TlsInstall.RestartSafeExactly` | internal/controller/secret_controller.go:130-136 | where files ending at one path agree, a restart is safe if and only if it reads the version file, or the file is not current, or every entry of the current secret is empty |
| `TlsInstall.SharedNeverTruthful` | internal/certificates/manage_libvirt.go:154-162 | in every run, blind restarts and stale reads included: as long as files of different content end at one path no Ready is true |
| `TlsInstall.LinkedReady` | internal/controller/secret_controller.go:59-136 | a new process does report Ready on both disks that spoil an installation, and some path is wrong |

## Assumptions

- Quantities are unbounded integers, as `resource.Quantity` becomes when it overflows; the 64-bit
  products in `MemoryToResource` do wrap in the model.
- Resource versions of the secret are not empty, never recur, and a later one is never the beginning
  of an earlier one, as for growing decimal numbers; only the agent writes the managed files; a cut
  write of the version file leaves a beginning of the version.
- A reconcile of the secret never reads an older version than an earlier one read, not even after a restart;
  `TlsInstall.StaleReadMisleads` shows that Ready can be false otherwise.
- The directories of the certificates are real directories, two names stand for two places unless a link
  says otherwise, and no link leads to the version file.
- A failed or cut write of a managed file leaves it untouched or with a beginning of the new data.
- One reconcile of the hypervisor at a time, and one event handler at a time, as the code arranges.

## Left out

- Floating-point rounding of the overcommit product: the model multiplies exactly; a float64 product can differ from it beyond 2^53.
- `ByteCountIEC` prints one decimal; the model stops at the number, divisor and prefix that are printed.
- `formatLibvirtVersion`, `addDomainCapabilities` list flattening and the operating-system descriptor: field-by-field copying with easy claims only; the pipeline takes the flattened lists as an answer.
- `populateDomainJobInfo`: a long field-by-field switch; the model keeps only whether the job was reaped.
- `EvictCurrentHost` and `EnsureCertificate`: calls into the API server; the callback is a step that starts and may return.
- Second status patch after a retry reset (internal/controller/hypervisor_controller.go:244-249): it depends on library behaviour and writes the same status, so one write lands or fails.
- Inhibitor.SystemdConn.EnableShutdownInhibit: covers a call no other thread interrupts; what interleaving does to it is proved on the state machine.
- Inhibitor.SystemdConn.FollowSpec: covers a pass no other thread interrupts, in which one given goroutine may take the stop message.
- Inhibitor.SystemdConn.HandleSignal: covers a goroutine no other thread interrupts from the signal to its send.
- Inhibitor.Safety: the interleaving is a state machine on values, because the methods block inside; the class methods beside it cover uninterrupted calls only, not the in-place updates of two threads at once.
- Inhibitor.ReleasableExactly: says when a release is possible, not that it happens; a goroutine may always be chosen to take a signal first.
- Go data races on maps touched outside their locks: handlers are atomic steps.
- TlsFiles.CertificateStore.UpdateTLSCertificate: directories are not part of the tree; if several file targets lead to one path the contract says that one of them won, not which, as the order of the tables is free.
- TlsInstall.ReadyIsTruthful: starts from a disk on which no file is behind a client link yet to be corrected; for other disks `TlsContent.ServesExactly` settles one call, not runs.
- XML parsing, Kubernetes client and watch machinery, kernel parameters, command-line wiring, emulators and charts.
