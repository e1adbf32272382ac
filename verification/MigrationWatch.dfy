/**
 Migration watches (internal/libvirt/libvirt_events.go): event handlers that start and stop one
 polling goroutine per migrating domain, interleaved with the steps of those goroutines.
 */
module MigrationWatch {

  /** Where a watch goroutine stands in its loop. */
  datatype Phase =
    | Selecting     // in the select over the context and the one-second timer
    | TimerFired    // the timer case was chosen, the context not yet checked
    | Patching      // the check passed, the status patch has begun
    | Exited

  /** `cancelled` is the state of the watch's context, by cancel function or by timeout. */
  datatype Watch = Watch(name: string, cancelled: bool, phase: Phase, patches: nat)

  /** `jobs` holds, for a domain name, the watch whose cancel function is stored under it. */
  datatype State = State(jobs: map<string, nat>, watches: seq<Watch>)

  const INIT := State(map[], [])

  /** How the API calls of a start end. */
  datatype ApiFate = CreateFails | GetFails | PatchFails | AllOk

  datatype Lifecycle = Defined | Undefined | Started | Suspended | Resumed | Stopped | Shutdown | PmSuspended | Crashed

  /** What libvirt says about the domain's job when a watch polls it. */
  datatype JobAnswer = JobInfo | NotRunning | Reaped | JobError

  datatype PatchError = NoError | DomainNotFound | OtherError

  datatype Label =
    | Iteration(name: string, fate: ApiFate)
    | LifecycleEvent(name: string, event: Lifecycle)
    | TimesOut(i: nat)
    | SeesDone(i: nat)
    | TimerFires(i: nat)
    | ChecksContext(i: nat)
    | PatchEnds(i: nat, getOk: bool, job: JobAnswer, patchOk: bool)

  predicate Is(s: State, i: nat, p: Phase) {
    i < |s.watches| && s.watches[i].phase == p
  }

  function Cancel(s: State, i: nat): State {
    if i < |s.watches| then s.(watches := s.watches[i := s.watches[i].(cancelled := true)]) else s
  }

  function Moved(s: State, i: nat, p: Phase): State
    requires i < |s.watches|
  {
    s.(watches := s.watches[i := s.watches[i].(phase := p)])
  }

  function Start(s: State, name: string, fate: ApiFate): State {
    if name in s.jobs || fate != AllOk then s
    else State(s.jobs[name := |s.watches|], s.watches + [Watch(name, false, Selecting, 0)])
  }

  function Stop(s: State, name: string): State {
    if name in s.jobs then Cancel(s, s.jobs[name]).(jobs := s.jobs - {name}) else s
  }

  /** The error a poll hands to the loop; a reaped job is swallowed on the way. */
  function PatchMigration(getOk: bool, job: JobAnswer, patchOk: bool): PatchError {
    if !getOk then OtherError
    else if job == NotRunning then NoError
    else if patchOk then NoError else OtherError
  }

  function Step(s: State, l: Label): State {
    match l
    case Iteration(name, fate) => Start(s, name, fate)
    case LifecycleEvent(name, event) => if event == Stopped || event == Shutdown then Stop(s, name) else s
    case TimesOut(i) => Cancel(s, i)
    case SeesDone(i) => if Is(s, i, Selecting) && s.watches[i].cancelled then Moved(s, i, Exited) else s
    case TimerFires(i) => if Is(s, i, Selecting) then Moved(s, i, TimerFired) else s
    case ChecksContext(i) =>
      if !Is(s, i, TimerFired) then s
      else if s.watches[i].cancelled then Moved(s, i, Exited)
      else s.(watches := s.watches[i := s.watches[i].(phase := Patching, patches := s.watches[i].patches + 1)])
    case PatchEnds(i, getOk, job, patchOk) =>
      if !Is(s, i, Patching) then s
      else if PatchMigration(getOk, job, patchOk) == DomainNotFound then Cancel(Moved(s, i, Exited), i)
      else Moved(s, i, Selecting)
  }

  function After(s: State, run: seq<Label>): State
    decreases run
  {
    if run == [] then s else After(Step(s, run[0]), run[1..])
  }

  // ----- the code -------------------------------------------------------------------

  class LibVirt {
    var migrationJobs: map<string, nat>
    var watches: seq<Watch>    // every goroutine ever started, with its context

    function View(): State
      reads this
    {
      State(migrationJobs, watches)
    }

    constructor ()
      ensures View() == INIT
    {
      migrationJobs, watches := map[], [];
    }

    method StartMigrationWatch(name: string, fate: ApiFate) returns (failed: bool)
      modifies this
      ensures View() == Step(old(View()), Iteration(name, fate))
      ensures failed ==> View() == old(View())
      ensures failed <==> fate == CreateFails || (name !in old(migrationJobs) && (fate == GetFails || fate == PatchFails))
    {
      if fate == CreateFails {
        return true;
      }
      if name in migrationJobs {
        return false;
      }
      if fate == GetFails {
        return true;
      }
      if fate == PatchFails {
        return true;
      }
      migrationJobs := migrationJobs[name := |watches|];
      watches := watches + [Watch(name, false, Selecting, 0)];
      failed := false;
    }

    method StopMigrationWatch(name: string)
      modifies this
      ensures View() == Stop(old(View()), name)
    {
      if name in migrationJobs {
        var i := migrationJobs[name];
        if i < |watches| {
          watches := watches[i := watches[i].(cancelled := true)];
        }
        migrationJobs := migrationJobs - {name};
      }
    }

    method OnLifecycleEvent(name: string, event: Lifecycle)
      modifies this
      ensures View() == Step(old(View()), LifecycleEvent(name, event))
    {
      match event
      case Stopped => StopMigrationWatch(name);
      case Shutdown => StopMigrationWatch(name);
      case _ =>
    }
  }

  /** What one turn of the watch loop meets: the context at the check, the select's choice, the poll's answers. */
  datatype Tick = Tick(cancelled: bool, timerChosen: bool, getOk: bool, job: JobAnswer, patchOk: bool)

  /** The loop of one watch: it patches on every turn up to the first with a cancelled context, and stops there. */
  method WatchMigrationLoop(ticks: seq<Tick>) returns (patches: nat, exited: bool)
    requires forall k | 0 <= k < |ticks| :: ticks[k].timerChosen || ticks[k].cancelled
    ensures patches <= |ticks|
    ensures forall k | 0 <= k < patches :: !ticks[k].cancelled
    ensures exited <==> patches < |ticks|
    ensures exited ==> ticks[patches].cancelled
  {
    patches, exited := 0, false;
    for k := 0 to |ticks|
      invariant patches == k
      invariant forall m | 0 <= m < k :: !ticks[m].cancelled
    {
      var tick := ticks[k];
      if !tick.timerChosen {
        return patches, true;
      }
      if tick.cancelled {
        return patches, true;
      }
      patches := patches + 1;
      var err := PatchMigration(tick.getOk, tick.job, tick.patchOk);
      if err == DomainNotFound {
        return patches, true;
      }
    }
  }

  // ----- one watch per domain -------------------------------------------------------

  predicate Running(s: State, i: nat, name: string) {
    i < |s.watches| && s.watches[i].name == name && !s.watches[i].cancelled
  }

  ghost predicate Inv(s: State) {
    && (forall name | name in s.jobs :: s.jobs[name] < |s.watches| && s.watches[s.jobs[name]].name == name)
    && (forall i: nat, name: string | Running(s, i, name) :: name in s.jobs && s.jobs[name] == i)
    && (forall i | 0 <= i < |s.watches| && s.watches[i].phase == Exited :: s.watches[i].cancelled)
  }

  lemma UpdateKeepsInv(s: State, i: nat, w: Watch)
    requires Inv(s) && i < |s.watches| && w.name == s.watches[i].name
    requires s.watches[i].cancelled ==> w.cancelled
    requires w.phase == Exited ==> w.cancelled
    ensures Inv(s.(watches := s.watches[i := w]))
  {
    var s' := s.(watches := s.watches[i := w]);
    forall k: nat, name: string | Running(s', k, name) ensures name in s'.jobs && s'.jobs[name] == k {
      assert Running(s, k, name);
    }
  }

  lemma StartKeepsInv(s: State, name: string, fate: ApiFate)
    requires Inv(s)
    ensures Inv(Start(s, name, fate))
  {
    var s' := Start(s, name, fate);
    forall k: nat, n: string | Running(s', k, n) ensures n in s'.jobs && s'.jobs[n] == k {
      if k < |s.watches| {
        assert Running(s, k, n);
      }
    }
  }

  lemma StopKeepsInv(s: State, name: string)
    requires Inv(s)
    ensures Inv(Stop(s, name))
  {
    var s' := Stop(s, name);
    forall k: nat, n: string | Running(s', k, n) ensures n in s'.jobs && s'.jobs[n] == k {
      assert Running(s, k, n);
    }
  }

  lemma StepKeepsInv(s: State, l: Label)
    requires Inv(s)
    ensures Inv(Step(s, l))
  {
    match l
    case Iteration(name, fate) => StartKeepsInv(s, name, fate);
    case LifecycleEvent(name, _) => StopKeepsInv(s, name);
    case _ =>
      if l.i < |Step(s, l).watches| {
        UpdateKeepsInv(s, l.i, Step(s, l).watches[l.i]);
      }
  }

  lemma {:induction false} InvForever(s: State, run: seq<Label>)
    requires Inv(s)
    ensures Inv(After(s, run))
    decreases run
  {
    if run != [] {
      StepKeepsInv(s, run[0]);
      InvForever(Step(s, run[0]), run[1..]);
    }
  }

  /**
   In every interleaving of events, stops, ticks and timeouts: at most one uncancelled watch runs
   for a domain name, the cancel function stored under the name is its own, and a goroutine has
   ended only if its context was cancelled.
   */
  lemma OneWatchPerDomain(run: seq<Label>, name: string, i: nat, j: nat)
    ensures var s := After(INIT, run);
      && (Running(s, i, name) ==> name in s.jobs && s.jobs[name] == i)
      && (Running(s, i, name) && Running(s, j, name) ==> i == j)
      && (Is(s, i, Exited) ==> s.watches[i].cancelled)
  {
    InvForever(INIT, run);
  }

  ghost predicate Watched(s: State, name: string) {
    exists i: nat :: Running(s, i, name)
  }

  predicate StartsFor(l: Label, name: string) {
    l == Iteration(name, AllOk)
  }

  predicate StopsFor(l: Label, name: string) {
    l == LifecycleEvent(name, Stopped) || l == LifecycleEvent(name, Shutdown)
  }

  lemma {:induction false} UnwatchedUntilStart(s: State, run: seq<Label>, name: string)
    requires !Watched(s, name)
    requires forall k | 0 <= k < |run| :: !StartsFor(run[k], name)
    ensures !Watched(After(s, run), name)
    decreases run
  {
    if run != [] {
      var s' := Step(s, run[0]);
      forall i: nat ensures !Running(s', i, name) {
        assert !Running(s, i, name);
        assert !StartsFor(run[0], name);
      }
      UnwatchedUntilStart(s', run[1..], name);
    }
  }

  /** After a stop the domain has no watch until the next successful start. */
  lemma NoneAfterStop(before: seq<Label>, stop: Label, run: seq<Label>, name: string)
    requires StopsFor(stop, name)
    requires forall k | 0 <= k < |run| :: !StartsFor(run[k], name)
    ensures !Watched(After(Step(After(INIT, before), stop), run), name)
  {
    InvForever(INIT, before);
    var s := After(INIT, before);
    var s' := Step(s, stop);
    forall i: nat ensures !Running(s', i, name) {
      if i < |s.watches| && s.watches[i].name == name && !s.watches[i].cancelled {
        assert Running(s, i, name);
      }
    }
    UnwatchedUntilStart(s', run, name);
  }

  // ----- when a start takes effect --------------------------------------------------

  /**
   An iteration event leaves its domain watched exactly if it was, or nothing is stored for it and every API
   call succeeds.
   */
  lemma StartTakesEffect(s: State, name: string, fate: ApiFate)
    requires Inv(s)
    ensures Watched(Step(s, Iteration(name, fate)), name) <==> Watched(s, name) || (name !in s.jobs && fate == AllOk)
  {
    var s' := Step(s, Iteration(name, fate));
    if Watched(s, name) {
      var i: nat :| Running(s, i, name);
      assert Running(s', i, name);
    } else if name !in s.jobs && fate == AllOk {
      assert Running(s', |s.watches|, name);
    }
  }

  /** A stop makes room: the next iteration event whose API calls succeed starts a watch again. */
  lemma RestartsAfterStop(before: seq<Label>, stop: Label, name: string)
    requires StopsFor(stop, name)
    ensures Watched(Step(Step(After(INIT, before), stop), Iteration(name, AllOk)), name)
  {
    InvForever(INIT, before);
    StepKeepsInv(After(INIT, before), stop);
    StartTakesEffect(Step(After(INIT, before), stop), name, AllOk);
  }

  ghost predicate Stale(s: State, name: string) {
    Inv(s) && name in s.jobs && s.watches[s.jobs[name]].cancelled
  }

  lemma StaleStep(s: State, l: Label, name: string)
    requires Stale(s, name) && !StopsFor(l, name)
    ensures Stale(Step(s, l), name)
  {
    StepKeepsInv(s, l);
  }

  /** A watch that timed out keeps its entry, and the entry blocks every restart until a stop event. */
  lemma {:induction false} StaleEntryBlocks(s: State, run: seq<Label>, name: string)
    requires Stale(s, name)
    requires forall k | 0 <= k < |run| :: !StopsFor(run[k], name)
    ensures Stale(After(s, run), name) && !Watched(After(s, run), name)
    decreases run
  {
    if run == [] {
      forall i: nat ensures !Running(s, i, name) {
      }
    } else {
      StaleStep(s, run[0], name);
      StaleEntryBlocks(Step(s, run[0]), run[1..], name);
    }
  }

  /**
   In every history a watch that times out leaves such an entry: its domain is not watched again, whatever
   comes before the next stop.
   */
  lemma TimeoutBlocksRestart(before: seq<Label>, name: string, i: nat, run: seq<Label>)
    requires Running(After(INIT, before), i, name)
    requires forall k | 0 <= k < |run| :: !StopsFor(run[k], name)
    ensures !Watched(After(Step(After(INIT, before), TimesOut(i)), run), name)
  {
    InvForever(INIT, before);
    var s := After(INIT, before);
    StepKeepsInv(s, TimesOut(i));
    StaleEntryBlocks(Step(s, TimesOut(i)), run, name);
  }

  /** It happens: a domain migrates, its watch times out, and a second migration of it goes unwatched. */
  lemma SecondMigrationUnwatched(name: string)
    ensures Running(After(INIT, [Iteration(name, AllOk)]), 0, name)
    ensures !Watched(After(Step(After(INIT, [Iteration(name, AllOk)]), TimesOut(0)), [Iteration(name, AllOk)]), name)
  {
    var start := [Iteration(name, AllOk)];
    assert start[1..] == [];
    assert After(INIT, start) == Step(INIT, start[0]);
    TimeoutBlocksRestart(start, name, 0, start);
  }

  // ----- the end of a watch ---------------------------------------------------------

  function Rank(p: Phase): nat {
    match p case Patching => 3 case Selecting => 2 case TimerFired => 1 case Exited => 0
  }

  /** The step belongs to goroutine `i` and changes something. */
  predicate OwnStep(s: State, l: Label, i: nat) {
    && (l == SeesDone(i) || l == TimerFires(i) || l == ChecksContext(i) || (l.PatchEnds? && l.i == i))
    && Step(s, l) != s
  }

  function OwnSteps(s: State, run: seq<Label>, i: nat): nat
    decreases run
  {
    if run == [] then 0
    else (if OwnStep(s, run[0], i) then 1 else 0) + OwnSteps(Step(s, run[0]), run[1..], i)
  }

  lemma CancelledStep(s: State, l: Label, i: nat)
    requires i < |s.watches| && s.watches[i].cancelled
    ensures var s' := Step(s, l);
      && i < |s'.watches| && s'.watches[i].cancelled && s'.watches[i].patches == s.watches[i].patches
      && Rank(s'.watches[i].phase) + (if OwnStep(s, l, i) then 1 else 0) <= Rank(s.watches[i].phase)
  {
  }

  /**
   In every schedule, a cancelled watch begins no further status patch, and each step its goroutine
   still takes leads it closer to the end of the loop, even with the timer ready at the same time.
   */
  lemma {:induction false} CancelledWatchEnds(s: State, run: seq<Label>, i: nat)
    requires i < |s.watches| && s.watches[i].cancelled
    ensures var s' := After(s, run);
      && i < |s'.watches| && s'.watches[i].cancelled && s'.watches[i].patches == s.watches[i].patches
      && Rank(s'.watches[i].phase) + OwnSteps(s, run, i) <= Rank(s.watches[i].phase)
      && (OwnSteps(s, run, i) >= 3 ==> s'.watches[i].phase == Exited)
    decreases run
  {
    if run != [] {
      CancelledStep(s, run[0], i);
      CancelledWatchEnds(Step(s, run[0]), run[1..], i);
    }
  }

  /** A poll never reports a reaped job, so the branch that would end the watch for it is dead. */
  lemma ReapedJobKeepsWatch(s: State, i: nat, getOk: bool, job: JobAnswer, patchOk: bool)
    requires Is(s, i, Patching)
    ensures Is(Step(s, PatchEnds(i, getOk, job, patchOk)), i, Selecting)
  {
  }

  predicate Ends(l: Label, i: nat, name: string) {
    l == TimesOut(i) || StopsFor(l, name)
  }

  lemma RunningStep(s: State, l: Label, i: nat, name: string)
    requires Inv(s) && Running(s, i, name)
    ensures Running(Step(s, l), i, name) <==> !Ends(l, i, name)
    ensures i < |Step(s, l).watches| && (Ends(l, i, name) ==> Step(s, l).watches[i].cancelled)
  {
    if l.PatchEnds? && Is(s, l.i, Patching) {
      ReapedJobKeepsWatch(s, l.i, l.getOk, l.job, l.patchOk);
    }
  }

  /**
   In every schedule a watch goes on exactly until its timeout or a stop event for its domain: nothing a poll
   answers, a reaped job included, and nothing that happens to other domains ends it.
   */
  lemma {:induction false} RunsUntilStopped(s: State, run: seq<Label>, i: nat, name: string)
    requires Inv(s) && Running(s, i, name)
    ensures Running(After(s, run), i, name) <==> forall k | 0 <= k < |run| :: !Ends(run[k], i, name)
    ensures Running(After(s, run), i, name) <==> forall k | 0 <= k < |run| ::
      run[k] != TimesOut(i) && run[k] != LifecycleEvent(name, Stopped) && run[k] != LifecycleEvent(name, Shutdown)
    decreases run
  {
    if run != [] {
      var s', rest := Step(s, run[0]), run[1..];
      RunningStep(s, run[0], i, name);
      if Ends(run[0], i, name) {
        CancelledWatchEnds(s', rest, i);
      } else {
        StepKeepsInv(s, run[0]);
        RunsUntilStopped(s', rest, i, name);
        assert forall k | 0 <= k < |rest| :: rest[k] == run[k + 1];
        if forall k | 0 <= k < |rest| :: !Ends(rest[k], i, name) {
          forall k | 0 <= k < |run| ensures !Ends(run[k], i, name) {
            assert k > 0 ==> run[k] == rest[k - 1];
          }
        }
      }
    }
  }

  // ----- what a watch does while it lives -------------------------------------------

  /**
   The patches a watch begins along a schedule, told by the labels alone: one for every context check after a timer
   that fired in the select, as long as neither its timeout nor a stop event of its domain has come.
   */
  function PatchesBegun(at: Phase, run: seq<Label>, i: nat, name: string): nat
    decreases run
  {
    if run == [] || Ends(run[0], i, name) then 0
    else if at == Selecting && run[0] == TimerFires(i) then PatchesBegun(TimerFired, run[1..], i, name)
    else if at == TimerFired && run[0] == ChecksContext(i) then 1 + PatchesBegun(Patching, run[1..], i, name)
    else if at == Patching && run[0].PatchEnds? && run[0].i == i then PatchesBegun(Selecting, run[1..], i, name)
    else PatchesBegun(at, run[1..], i, name)
  }

  /** In every schedule a watch begins exactly those patches. */
  lemma {:induction false} PatchesExactly(s: State, run: seq<Label>, i: nat, name: string)
    requires Inv(s) && Running(s, i, name)
    ensures i < |After(s, run).watches|
    ensures After(s, run).watches[i].patches == s.watches[i].patches + PatchesBegun(s.watches[i].phase, run, i, name)
    decreases run
  {
    if run != [] {
      RunningStep(s, run[0], i, name);
      if Ends(run[0], i, name) {
        EndingStep(s, run[0], i, name);
        CancelledWatchEnds(Step(s, run[0]), run[1..], i);
      } else {
        OneLabel(s, run[0], i, name);
        StepKeepsInv(s, run[0]);
        PatchesExactly(Step(s, run[0]), run[1..], i, name);
      }
    }
  }

  lemma EndingStep(s: State, l: Label, i: nat, name: string)
    requires Running(s, i, name) && Ends(l, i, name)
    ensures Step(s, l).watches[i].patches == s.watches[i].patches
  {
  }

  lemma OneLabel(s: State, l: Label, i: nat, name: string)
    requires Inv(s) && Running(s, i, name) && !Ends(l, i, name)
    ensures i < |Step(s, l).watches|
    ensures var w, w' := s.watches[i], Step(s, l).watches[i];
      if w.phase == Selecting && l == TimerFires(i) then w' == w.(phase := TimerFired)
      else if w.phase == TimerFired && l == ChecksContext(i) then w' == w.(phase := Patching, patches := w.patches + 1)
      else if w.phase == Patching && l.PatchEnds? && l.i == i then w' == w.(phase := Selecting)
      else w' == w
  {
  }

  /** The labels of `n` undisturbed turns of watch `i`. */
  function Turns(i: nat, ticks: seq<Tick>): seq<Label> {
    if ticks == [] then []
    else
      var t := ticks[0];
      [TimerFires(i), ChecksContext(i), PatchEnds(i, t.getOk, t.job, t.patchOk)] + Turns(i, ticks[1..])
  }

  /** A running watch left alone patches once a turn, whatever the polls answer, as its loop does. */
  lemma {:induction false} TurnsPatch(i: nat, ticks: seq<Tick>, name: string)
    ensures PatchesBegun(Selecting, Turns(i, ticks), i, name) == |ticks|
    decreases ticks
  {
    if ticks != [] {
      var run, rest := Turns(i, ticks), Turns(i, ticks[1..]);
      TurnsPatch(i, ticks[1..], name);
      assert run[1..][1..][1..] == rest;
      var r1, r2 := run[1..], run[1..][1..];
      assert PatchesBegun(Patching, r2, i, name) == PatchesBegun(Selecting, rest, i, name);
      assert PatchesBegun(TimerFired, r1, i, name) == 1 + PatchesBegun(Patching, r2, i, name);
    }
  }

  /** From the start: a watched domain whose watch takes n turns has its status patched n times. */
  lemma WatchPatches(name: string, ticks: seq<Tick>)
    ensures var s := Step(INIT, Iteration(name, AllOk));
      |After(s, Turns(0, ticks)).watches| > 0 && After(s, Turns(0, ticks)).watches[0].patches == |ticks|
  {
    var s := Step(INIT, Iteration(name, AllOk));
    StepKeepsInv(INIT, Iteration(name, AllOk));
    assert Running(s, 0, name);
    PatchesExactly(s, Turns(0, ticks), 0, name);
    TurnsPatch(0, ticks, name);
  }

  /** A cancelled watch is never stuck: whichever way its select turns, and after a patch, it can go on to its end. */
  lemma CancelledCanEnd(s: State, i: nat, getOk: bool, job: JobAnswer, patchOk: bool)
    requires i < |s.watches| && s.watches[i].cancelled
    ensures Is(s, i, Selecting) ==>
      && Is(Step(s, SeesDone(i)), i, Exited)
      && Is(Step(Step(s, TimerFires(i)), ChecksContext(i)), i, Exited)
    ensures Is(s, i, Patching) ==> Is(Step(Step(s, PatchEnds(i, getOk, job, patchOk)), SeesDone(i)), i, Exited)
  {
  }
}
