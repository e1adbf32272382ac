/**
 The operating-system update with its retry budget (internal/controller/hypervisor_controller.go
 and internal/systemd/systemd.go): one reconcile is a step over the stored update status, and the
 claims are about every run of such steps.
 */
module OsUpdate {
  import opened Wrappers
  import opened Sums

  datatype Reason = NoReason | Running | Stopped | Completed

  /** Status.Update, with the reason of the OperatingSystemUpdate condition. */
  datatype Update = Update(retry: int, inProgress: bool, installed: string, reason: Reason)

  datatype ActiveState = Active | Activating | Inactive | UnitFailed | OtherState(name: string)

  datatype Call = StartUpdate(unit: string) | StartReboot

  /** Everything one reconcile meets: the specification, the answers of systemd, the fate of its writes. */
  datatype Env = Env(
    reaches: bool,                // the earlier sections did not return
    target: string,
    osVersion: string,
    reboot: bool,
    connected: bool,
    unit: Option<ActiveState>,    // None: the lookup failed
    startOk: bool,
    rebootOk: bool,
    certificateOk: bool,
    patchOk: bool)

  const MAX_RETRY := 3

  function UnitName(version: string): string {
    if version == "latest" then "systemd-sysupdate.service" else "systemd-sysupdate@" + version + ".service"
  }

  // ----- what a reconcile amounts to ------------------------------------------------

  datatype Verdict =
    | Idle                            // nothing to update
    | Reset                           // the budget is used up: refill it
    | Failure(calls: seq<Call>)
    | Started                         // the unit was started
    | SeenActive                      // the unit is active
    | Finished(calls: seq<Call>)

  function Judge(u: Update, e: Env): Verdict {
    if e.target == "" || e.target == e.osVersion || e.target == u.installed then Idle
    else if u.retry == 0 then Reset
    else JudgeUnit(u, e)
  }

  /** The part of the verdict that systemd decides. */
  function JudgeUnit(u: Update, e: Env): Verdict {
    if !e.connected || e.unit.None? then Failure([])
    else if e.unit.value == Active then SeenActive
    else if !u.inProgress then
      if e.startOk then Started else Failure([StartUpdate(UnitName(e.target))])
    else if e.unit.value == UnitFailed then Failure([])
    else if e.unit.value == Inactive && e.reboot then
      if e.rebootOk then Finished([StartReboot]) else Failure([StartReboot])
    else Finished([])
  }

  function Calls(v: Verdict, e: Env): seq<Call> {
    match v
    case Started => [StartUpdate(UnitName(e.target))]
    case Failure(calls) => calls
    case Finished(calls) => calls
    case _ => []
  }

  function Applied(u: Update, v: Verdict, e: Env): Update {
    match v
    case Idle => u
    case Reset => u.(retry := MAX_RETRY)
    case Failure(_) => u.(retry := u.retry - 1, inProgress := false, reason := Stopped)
    case Started => u.(inProgress := true, reason := Running)
    case SeenActive => u.(inProgress := true, reason := if u.inProgress then u.reason else Running)
    case Finished(_) => u.(inProgress := false, installed := e.target, reason := Completed)
  }

  /** The reset is written at once; everything else after the certificate section. */
  predicate Persisted(u: Update, e: Env) {
    e.reaches && e.patchOk && (Judge(u, e) == Reset || e.certificateOk)
  }

  function Next(u: Update, e: Env): Update {
    if Persisted(u, e) then Applied(u, Judge(u, e), e) else u
  }

  function CallsOf(u: Update, e: Env): seq<Call> {
    if e.reaches then Calls(Judge(u, e), e) else []
  }

  // ----- the code -------------------------------------------------------------------

  class Systemd {
    var calls: seq<Call>

    constructor ()
      ensures calls == []
    {
      calls := [];
    }

    method StartUnit(c: Call, ok: bool) returns (r: bool)
      modifies this
      ensures calls == old(calls) + [c] && r == ok
    {
      calls := calls + [c];
      r := ok;
    }

    /** Orchestrates the update unit; `running` and `failed` are the two results. */
    method ReconcileSysUpdate(u: Update, e: Env) returns (running: bool, failed: bool)
      modifies this
      ensures calls == old(calls) + Calls(JudgeUnit(u, e), e)
      ensures failed <==> JudgeUnit(u, e).Failure?
      ensures running <==> JudgeUnit(u, e).Started? || JudgeUnit(u, e).SeenActive?
    {
      if !e.connected {
        return false, true;
      }
      var unit := UnitName(e.target);
      if e.unit.None? {
        return false, true;
      }
      var state := e.unit.value;
      var ok;
      if u.inProgress {
        if state == UnitFailed {
          return false, true;
        } else if state == Inactive {
          if e.reboot {
            ok := StartUnit(StartReboot, e.rebootOk);
            if !ok {
              return false, true;
            }
          }
        }
      } else if state != Active {
        ok := StartUnit(StartUpdate(unit), e.startOk);
        if !ok {
          return false, true;
        }
        return true, false;
      }
      return state == Active, false;
    }
  }

  class HypervisorReconciler {
    const systemd: Systemd
    var stored: Update    // the status held by the API server

    constructor (systemd: Systemd, stored: Update)
      ensures this.systemd == systemd && this.stored == stored
    {
      this.systemd := systemd;
      this.stored := stored;
    }

    /** From the update section on: works on a copy of the status and patches it at the end. */
    method Reconcile(e: Env)
      modifies this`stored, systemd
      ensures stored == Next(old(stored), e)
      ensures systemd.calls == old(systemd.calls) + CallsOf(old(stored), e)
    {
      if !e.reaches {
        return;
      }
      var status := stored;
      if e.target != "" && e.target != e.osVersion && e.target != status.installed {
        if status.retry == 0 {
          status := status.(retry := 3);
          if e.patchOk {
            stored := status;
          }
          return;
        }
        var running, failed := systemd.ReconcileSysUpdate(status, e);
        if failed {
          status := status.(reason := Stopped);
          status := status.(retry := status.retry - 1);
        }
        if !status.inProgress && running {
          status := status.(reason := Running);
        }
        if !running && !failed {
          status := status.(reason := Completed);
          status := status.(installed := e.target);
        }
        status := status.(inProgress := running);
      }
      if !e.certificateOk {
        return;
      }
      if e.patchOk {
        stored := status;
      }
    }
  }

  // ----- one reconcile, told by its effects -----------------------------------------

  /** There is something to update, and a retry left to do it. */
  predicate Eligible(u: Update, e: Env) {
    e.target != "" && e.target != e.osVersion && e.target != u.installed && u.retry != 0
  }

  /** The reconcile gets to the end and its status is stored. */
  predicate Stored(e: Env) {
    e.reaches && e.certificateOk && e.patchOk
  }

  /** The installed version changes in one reconcile exactly if an update in progress is found neither active nor failed. */
  lemma InstalledExactly(u: Update, e: Env)
    ensures Next(u, e).installed != u.installed <==>
      && Stored(e) && Eligible(u, e) && u.inProgress && e.connected && e.unit.Some?
      && e.unit.value != Active && e.unit.value != UnitFailed
      && (e.unit.value == Inactive && e.reboot ==> e.rebootOk)
    ensures Next(u, e).installed != u.installed ==>
      Next(u, e) == Update(u.retry, false, e.target, Completed)
  {
  }

  /** A retry is spent exactly if systemd cannot be asked, the unit failed, or a unit that had to be started was not. */
  lemma RetrySpentExactly(u: Update, e: Env)
    ensures Next(u, e).retry == u.retry - 1 <==>
      && Stored(e) && Eligible(u, e)
      && (|| !e.connected || e.unit.None?
          || (u.inProgress && e.unit.value == UnitFailed)
          || (u.inProgress && e.unit.value == Inactive && e.reboot && !e.rebootOk)
          || (!u.inProgress && e.unit.value != Active && !e.startOk))
    ensures Next(u, e).retry == u.retry - 1 ==>
      Next(u, e) == Update(u.retry - 1, false, u.installed, Stopped)
  {
  }

  /** A failed unit of an update in progress costs one retry, ends the update and leaves the version as it was. */
  lemma FailedUnitCosts(u: Update, e: Env)
    requires Stored(e) && Eligible(u, e) && u.inProgress && e.connected && e.unit == Some(UnitFailed)
    ensures Next(u, e) == Update(u.retry - 1, false, u.installed, Stopped) && CallsOf(u, e) == []
  {
  }

  /** The retries are refilled exactly if none is left for a pending target; no certificate error prevents that. */
  lemma RefillExactly(u: Update, e: Env)
    ensures Next(u, e).retry > u.retry <==>
      e.reaches && e.patchOk && e.target != "" && e.target != e.osVersion && e.target != u.installed && u.retry == 0
    ensures Next(u, e).retry > u.retry ==> Next(u, e) == u.(retry := 3)
    ensures u.retry == 0 ==> CallsOf(u, e) == []
  {
  }

  /** An update begins exactly if the unit is found active, or is started because it is not. */
  lemma BegunExactly(u: Update, e: Env)
    ensures !u.inProgress && Next(u, e).inProgress <==>
      && !u.inProgress && Stored(e) && Eligible(u, e) && e.connected && e.unit.Some?
      && (e.unit.value == Active || e.startOk)
    ensures !u.inProgress && Next(u, e).inProgress ==> Next(u, e) == Update(u.retry, true, u.installed, Running)
    ensures u.inProgress && !Next(u, e).inProgress ==> e.unit != Some(Active) || !e.connected
    ensures u.inProgress && Eligible(u, e) && e.connected && e.unit == Some(Active) ==> Next(u, e) == u
  {
  }

  /**
   The units asked for in one reconcile, stored or not: the update unit of the target exactly if no update is in
   progress and it is not active, the reboot exactly if an update in progress is found inactive and asks for it.
   */
  lemma CallsExactly(u: Update, e: Env)
    ensures var asked := e.reaches && Eligible(u, e) && e.connected && e.unit.Some? && e.unit.value != Active;
      CallsOf(u, e) ==
        if asked && !u.inProgress then [StartUpdate(UnitName(e.target))]
        else if asked && u.inProgress && e.unit.value == Inactive && e.reboot then [StartReboot]
        else []
  {
  }

  /** Nothing to update, or a reconcile that does not get here or is not stored: the status stands still. */
  lemma StandsStill(u: Update, e: Env)
    requires
      || !e.reaches || !e.patchOk || (!e.certificateOk && u.retry != 0)
      || e.target == "" || e.target == e.osVersion || e.target == u.installed
    ensures Next(u, e) == u
    ensures !e.reaches || e.target == "" || e.target == e.osVersion || e.target == u.installed ==> CallsOf(u, e) == []
  {
  }

  // ----- runs -----------------------------------------------------------------------

  function After(u: Update, run: seq<Env>): Update
    decreases run
  {
    if run == [] then u else After(Next(u, run[0]), run[1..])
  }

  function AllCalls(u: Update, run: seq<Env>): seq<Call>
    decreases run
  {
    if run == [] then [] else CallsOf(u, run[0]) + AllCalls(Next(u, run[0]), run[1..])
  }

  function One(b: bool): nat {
    if b then 1 else 0
  }

  predicate TriesUpdate(u: Update, e: Env) {
    e.reaches && (Judge(u, e).Started? || Judge(u, e) == Failure([StartUpdate(UnitName(e.target))]))
  }

  /** Attempts to start the update unit, whether or not the status was then stored. */
  function Starts(u: Update, run: seq<Env>): nat
    decreases run
  {
    if run == [] then 0 else One(TriesUpdate(u, run[0])) + Starts(Next(u, run[0]), run[1..])
  }

  /** Those of them whose reconcile failed to store its status. */
  function LostStarts(u: Update, run: seq<Env>): nat
    decreases run
  {
    if run == [] then 0
    else One(TriesUpdate(u, run[0]) && !Persisted(u, run[0])) + LostStarts(Next(u, run[0]), run[1..])
  }

  function Resets(u: Update, run: seq<Env>): nat
    decreases run
  {
    if run == [] then 0
    else One(Persisted(u, run[0]) && Judge(u, run[0]) == Reset) + Resets(Next(u, run[0]), run[1..])
  }

  function Failures(u: Update, run: seq<Env>): nat
    decreases run
  {
    if run == [] then 0
    else One(Persisted(u, run[0]) && Judge(u, run[0]).Failure?) + Failures(Next(u, run[0]), run[1..])
  }

  function Installs(u: Update, run: seq<Env>): nat
    decreases run
  {
    if run == [] then 0
    else One(Persisted(u, run[0]) && Judge(u, run[0]).Finished?) + Installs(Next(u, run[0]), run[1..])
  }

  /** What the API server starts from, retry 3 and nothing in progress, is sound; so is everything after. */
  predicate Sound(u: Update) {
    0 <= u.retry <= MAX_RETRY && (u.inProgress ==> u.retry >= 1)
  }

  predicate Reported(u: Update) {
    u.inProgress ==> u.reason == Running
  }

  /** An update in progress is always reported as running. */
  lemma {:induction false} ReportedForever(u: Update, run: seq<Env>)
    requires Reported(u)
    ensures Reported(After(u, run))
    decreases run
  {
    if run != [] {
      ReportedForever(Next(u, run[0]), run[1..]);
    }
  }

  lemma {:induction false} SoundForever(u: Update, run: seq<Env>)
    requires Sound(u)
    ensures Sound(After(u, run))
    decreases run
  {
    if run != [] {
      SoundForever(Next(u, run[0]), run[1..]);
    }
  }

  /** The counted calls are the calls made: the log holds exactly `Starts` attempts at the update unit. */
  lemma {:induction false} StartsAreCalls(u: Update, run: seq<Env>)
    ensures Sum(AllCalls(u, run), IsUpdate()) == Starts(u, run)
    decreases run
  {
    if run != [] {
      var head, tail := CallsOf(u, run[0]), AllCalls(Next(u, run[0]), run[1..]);
      SumAppend(head, tail, IsUpdate());
      StartsAreCalls(Next(u, run[0]), run[1..]);
      CallsOfOne(u, run[0]);
    }
  }

  lemma CallsOfOne(u: Update, e: Env)
    ensures Sum(CallsOf(u, e), IsUpdate()) == One(TriesUpdate(u, e))
  {
    var calls := CallsOf(u, e);
    assert |calls| == 1 ==> calls[..0] == [];
  }

  function IsUpdate(): Call -> int {
    (c: Call) => if c.StartUpdate? then 1 else 0
  }

  /** Failures paid for and refills received account for the retry counter exactly. */
  lemma {:induction false} RetryAccount(u: Update, run: seq<Env>)
    ensures Resets(u, run) * MAX_RETRY + u.retry == Failures(u, run) + After(u, run).retry
    decreases run
  {
    if run != [] {
      RetryAccount(Next(u, run[0]), run[1..]);
    }
  }

  /** From retry k, exactly k stored failures come before the next refill. */
  lemma FailuresBeforeReset(u: Update, run: seq<Env>, e: Env)
    requires Resets(u, run) == 0
    requires Persisted(After(u, run), e) && Judge(After(u, run), e) == Reset
    ensures Failures(u, run) == u.retry
  {
    RetryAccount(u, run);
  }

  /**
   Any targets, any unit states, any lost writes: every attempt at the update unit is paid for by a
   retry, a completed installation, a refill, or a status that was not stored.
   */
  lemma {:induction false} AttemptBudget(u: Update, run: seq<Env>)
    requires Sound(u)
    ensures var v := After(u, run);
      Starts(u, run) + (v.retry - One(v.inProgress))
        <= (u.retry - One(u.inProgress)) + Installs(u, run) + MAX_RETRY * Resets(u, run) + LostStarts(u, run)
    decreases run
  {
    if run != [] {
      AttemptBudget(Next(u, run[0]), run[1..]);
    }
  }

  // ----- runs with one target -------------------------------------------------------

  predicate FixedTarget(run: seq<Env>, target: string) {
    forall i | 0 <= i < |run| :: run[i].target == target
  }

  /** Attempts still affordable on the way to `target`. */
  function Potential(u: Update, target: string): int {
    if u.installed == target then 0 else u.retry - One(u.inProgress)
  }

  lemma {:induction false} TargetBudget(u: Update, run: seq<Env>, target: string)
    requires Sound(u) && FixedTarget(run, target)
    ensures Starts(u, run) + Potential(After(u, run), target)
      <= Potential(u, target) + MAX_RETRY * Resets(u, run) + LostStarts(u, run)
    decreases run
  {
    if run != [] {
      assert FixedTarget(run[1..], target);
      TargetBudget(Next(u, run[0]), run[1..], target);
    }
  }

  /** With one target and no lost write, at most three attempts are made between two refills. */
  lemma AtMostThreeStarts(u: Update, run: seq<Env>, target: string)
    requires Sound(u) && FixedTarget(run, target)
    requires Resets(u, run) == 0 && LostStarts(u, run) == 0
    ensures Starts(u, run) <= MAX_RETRY
  {
    TargetBudget(u, run, target);
    SoundForever(u, run);
  }

  /** Lost writes break the bound: the unit can be started once in every reconcile whose patch fails. */
  lemma {:induction false} LostWritesUnbounded(n: nat) returns (u: Update, run: seq<Env>)
    ensures Sound(u) && FixedTarget(run, "1877.9") && |run| == n
    ensures Resets(u, run) == 0 && Starts(u, run) == LostStarts(u, run) == n
    ensures After(u, run) == u == Update(3, false, "unknown", NoReason)
  {
    if n == 0 {
      u, run := Update(3, false, "unknown", NoReason), [];
    } else {
      u, run := LostWritesUnbounded(n - 1);
      var lost := Env(true, "1877.9", "1877.8", false, true, Some(Inactive), true, true, true, false);
      var rest := run;
      run := [lost] + rest;
      assert run[1..] == rest;
    }
  }

  lemma {:induction false} CountsCompose(u: Update, run: seq<Env>, more: seq<Env>)
    ensures Starts(u, run + more) == Starts(u, run) + Starts(After(u, run), more)
    ensures LostStarts(u, run + more) == LostStarts(u, run) + LostStarts(After(u, run), more)
    ensures Resets(u, run + more) == Resets(u, run) + Resets(After(u, run), more)
    decreases run
  {
    if run == [] {
      assert run + more == more;
    } else {
      assert (run + more)[1..] == run[1..] + more;
      CountsCompose(Next(u, run[0]), run[1..], more);
    }
  }

  /** From retry k, k stored reconciles in which the unit cannot be started are k attempts. */
  lemma {:induction false} FailingStarts(u: Update, k: nat) returns (run: seq<Env>)
    requires u.retry == k && !u.inProgress && u.installed != "1877.9"
    ensures FixedTarget(run, "1877.9") && Starts(u, run) == k && LostStarts(u, run) == Resets(u, run) == 0
    decreases k
  {
    if k == 0 {
      run := [];
    } else {
      var failing := Env(true, "1877.9", "1877.8", false, true, Some(Inactive), false, true, true, true);
      var rest := FailingStarts(Next(u, failing), k - 1);
      run := [failing] + rest;
      assert run[1..] == rest;
    }
  }

  /** The budget is exact: for every n there is a history of one target with n lost attempts, no refill and n + 3 attempts. */
  lemma BudgetIsExact(n: nat) returns (u: Update, run: seq<Env>)
    ensures Sound(u) && FixedTarget(run, "1877.9") && Potential(u, "1877.9") == MAX_RETRY
    ensures Resets(u, run) == 0 && LostStarts(u, run) == n && Starts(u, run) == n + MAX_RETRY
  {
    var lost;
    u, lost := LostWritesUnbounded(n);
    var failing := FailingStarts(u, 3);
    CountsCompose(u, lost, failing);
    run := lost + failing;
  }

  // ----- whose update is recorded ---------------------------------------------------

  /** A stored reconcile that started the unit or found it active. */
  predicate Begins(u: Update, e: Env) {
    Persisted(u, e) && (Judge(u, e).Started? || Judge(u, e).SeenActive?)
  }

  lemma {:induction false} NothingBegun(u: Update, run: seq<Env>)
    requires !u.inProgress
    requires forall i | 0 <= i < |run| :: !Begins(After(u, run[..i]), run[i])
    ensures !After(u, run).inProgress && After(u, run).installed == u.installed
    decreases run
  {
    if run != [] {
      var v, rest := Next(u, run[0]), run[1..];
      assert run[..0] == [];
      assert !Begins(After(u, run[..0]), run[0]);
      forall i | 0 <= i < |rest| ensures !Begins(After(v, rest[..i]), rest[i]) {
        assert run[..i + 1][1..] == rest[..i];
        assert !Begins(After(u, run[..i + 1]), run[i + 1]);
      }
      NothingBegun(v, rest);
    }
  }

  /** The installed version changes only after an earlier stored reconcile started some update unit or saw it active. */
  lemma InstalledOnlyAfterStart(u: Update, run: seq<Env>)
    requires !u.inProgress && After(u, run).installed != u.installed
    ensures exists i | 0 <= i < |run| :: Begins(After(u, run[..i]), run[i])
  {
    if forall i | 0 <= i < |run| :: !Begins(After(u, run[..i]), run[i]) {
      NothingBegun(u, run);
    }
  }

  lemma UnitNamesDistinct(v: string, w: string)
    ensures UnitName(v) == UnitName(w) <==> v == w
    ensures UnitName("latest") == "systemd-sysupdate.service"
    ensures v != "latest" ==> UnitName(v) == "systemd-sysupdate@" + v + ".service"
  {
    var at, dot := "systemd-sysupdate@", ".service";
    if UnitName(v) == UnitName(w) {
      assert UnitName(v)[17] == UnitName(w)[17];
      if v != "latest" {
        assert UnitName(v) == at + v + dot && UnitName(w) == at + w + dot;
        assert |v| == |w|;
        assert v == UnitName(v)[18..18 + |v|] == UnitName(w)[18..18 + |w|] == w;
      }
    }
  }

  /** Reconcile `i` is the last one that began an update. */
  predicate IsLastBegin(u: Update, run: seq<Env>, i: nat) {
    i < |run| && Begins(After(u, run[..i]), run[i]) && forall j | i < j < |run| :: !Begins(After(u, run[..j]), run[j])
  }

  /** The target of the reconcile that last began an update. */
  function LastBegun(u: Update, run: seq<Env>): Option<string> {
    if run == [] then None
    else
      var n := |run| - 1;
      if Begins(After(u, run[..n]), run[n]) then Some(run[n].target) else LastBegun(u, run[..n])
  }

  lemma AfterLast(u: Update, run: seq<Env>)
    requires run != []
    ensures After(u, run) == Next(After(u, run[..|run| - 1]), run[|run| - 1])
  {
    var n := |run| - 1;
    assert run == run[..n] + [run[n]];
    RunsCompose(u, run[..n], [run[n]]);
    OneStep(After(u, run[..n]), run[n]);
  }

  /** While an update is in progress there is such a reconcile. */
  lemma {:induction false} InProgressWasBegun(u: Update, run: seq<Env>) returns (i: nat)
    requires !u.inProgress && After(u, run).inProgress
    ensures IsLastBegin(u, run, i)
    decreases |run|
  {
    var n := |run| - 1;
    AfterLast(u, run);
    if Begins(After(u, run[..n]), run[n]) {
      i := n;
    } else {
      i := InProgressWasBegun(u, run[..n]);
      LastBeginExtends(u, run, i);
    }
  }

  lemma LastBeginExtends(u: Update, run: seq<Env>, i: nat)
    requires run != [] && !Begins(After(u, run[..|run| - 1]), run[|run| - 1])
    ensures IsLastBegin(u, run[..|run| - 1], i) <==> IsLastBegin(u, run, i)
  {
    var n := |run| - 1;
    forall j: nat | j < n ensures run[..n][..j] == run[..j] && run[..n][j] == run[j] {
    }
    if IsLastBegin(u, run[..n], i) {
      forall j | i < j < |run| ensures !Begins(After(u, run[..j]), run[j]) {
        if j < n {
          assert !Begins(After(u, run[..n][..j]), run[..n][j]);
        }
      }
    }
    if IsLastBegin(u, run, i) {
      assert i < n;
      forall j | i < j < n ensures !Begins(After(u, run[..n][..j]), run[..n][j]) {
        assert !Begins(After(u, run[..j]), run[j]);
      }
    }
  }

  lemma {:induction false} LastBegunMeans(u: Update, run: seq<Env>, i: nat)
    requires IsLastBegin(u, run, i)
    ensures LastBegun(u, run) == Some(run[i].target)
    decreases |run|
  {
    var n := |run| - 1;
    if i < n {
      assert !Begins(After(u, run[..n]), run[n]);
      LastBeginExtends(u, run, i);
      LastBegunMeans(u, run[..n], i);
    }
  }

  /**
   A stored finish records the target of the moment. The unit that was last started or seen active is that
   version's own exactly if the target has not changed since.
   */
  lemma FinishRecordsOwnExactly(u: Update, run: seq<Env>, e: Env)
    requires !u.inProgress
    requires Persisted(After(u, run), e) && Judge(After(u, run), e).Finished?
    ensures Next(After(u, run), e).installed == e.target
    ensures (exists i: nat :: IsLastBegin(u, run, i) && UnitName(run[i].target) == UnitName(e.target))
      <==> LastBegun(u, run) == Some(e.target)
    ensures LastBegun(u, run).Some?
  {
    var i := InProgressWasBegun(u, run);
    LastBegunMeans(u, run, i);
    UnitNamesDistinct(run[i].target, e.target);
    forall k: nat | IsLastBegin(u, run, k) && UnitName(run[k].target) == UnitName(e.target)
      ensures LastBegun(u, run) == Some(e.target)
    {
      LastBegunMeans(u, run, k);
      UnitNamesDistinct(run[k].target, e.target);
    }
  }

  /** With one target, what a finish records is what was last begun. */
  lemma FixedTargetRecordsOwn(u: Update, run: seq<Env>, e: Env)
    requires !u.inProgress && FixedTarget(run, e.target)
    requires Persisted(After(u, run), e) && Judge(After(u, run), e).Finished?
    ensures exists i: nat :: IsLastBegin(u, run, i) && UnitName(run[i].target) == UnitName(Next(After(u, run), e).installed)
  {
    assert TargetHeld(u, run + [e]);
    HeldTargetRecordsOwn(u, run, e);
  }

  /** No reconcile meets another target than the one before it while an update is in progress. */
  predicate TargetHeld(u: Update, run: seq<Env>) {
    forall i | 0 < i < |run| && After(u, run[..i]).inProgress :: run[i].target == run[i - 1].target
  }

  lemma {:induction false} HeldSinceBegun(u: Update, run: seq<Env>)
    requires !u.inProgress && After(u, run).inProgress && TargetHeld(u, run)
    ensures run != [] && LastBegun(u, run) == Some(run[|run| - 1].target)
    decreases |run|
  {
    var n := |run| - 1;
    AfterLast(u, run);
    if !Begins(After(u, run[..n]), run[n]) {
      assert n > 0 by { assert run[..0] == []; }
      forall i | 0 < i < n && After(u, run[..n][..i]).inProgress ensures run[..n][i].target == run[..n][i - 1].target {
        assert run[..n][..i] == run[..i];
      }
      HeldSinceBegun(u, run[..n]);
    }
  }

  /**
   If the target is never changed while an update is in progress, every stored finish records a version whose
   own unit was the last one started or seen active.
   */
  lemma HeldTargetRecordsOwn(u: Update, run: seq<Env>, e: Env)
    requires !u.inProgress && TargetHeld(u, run + [e])
    requires Persisted(After(u, run), e) && Judge(After(u, run), e).Finished?
    ensures exists i: nat :: IsLastBegin(u, run, i) && UnitName(run[i].target) == UnitName(Next(After(u, run), e).installed)
  {
    var all := run + [e];
    forall i | 0 < i < |run| && After(u, run[..i]).inProgress ensures run[i].target == run[i - 1].target {
      assert all[..i] == run[..i];
      assert all[i].target == all[i - 1].target;
    }
    HeldSinceBegun(u, run);
    assert all[..|run|] == run;
    assert all[|run|].target == all[|run| - 1].target;
    FinishRecordsOwnExactly(u, run, e);
  }

  /**
   A target changed in mid-update is recorded as installed although its own unit was never started: the
   unit of the new version is looked up, found inactive, and taken for the one that was running.
   */
  lemma SwitchedTargetIsRecorded(first: string, second: string) returns (run: seq<Env>)
    requires first != second && first !in {"", "unknown", "1877.8"} && second !in {"", "unknown", "1877.8"}
    ensures var u := Update(3, false, "unknown", NoReason);
      && After(u, run) == Update(3, false, second, Completed)
      && AllCalls(u, run) == [StartUpdate(UnitName(first))] && UnitName(first) != UnitName(second)
      && forall i | 0 <= i < |run| :: Begins(After(u, run[..i]), run[i]) ==> run[i].target == first
  {
    var u := Update(3, false, "unknown", NoReason);
    var start := Env(true, first, "1877.8", false, true, Some(Inactive), true, true, true, true);
    var end := start.(target := second);
    run := [start, end];
    var v := Update(3, true, "unknown", Running);
    assert run[..0] == [] && run[..1] == [start] && run[1..] == [end] && [end][1..] == [];
    assert Next(u, start) == v && CallsOf(u, start) == [StartUpdate(UnitName(first))];
    assert Next(v, end) == Update(3, false, second, Completed) && CallsOf(v, end) == [];
    OneStep(u, start);
    OneStep(v, end);
    UnitNamesDistinct(first, second);
  }

  /** Once the target is installed nothing is started, not even the reboot, and the status stands still. */
  lemma {:induction false} InstalledIsFinal(u: Update, run: seq<Env>, target: string)
    requires u.installed == target && FixedTarget(run, target)
    ensures After(u, run) == u && AllCalls(u, run) == []
  {
    if run != [] {
      assert FixedTarget(run[1..], target);
      InstalledIsFinal(u, run[1..], target);
    }
  }

  /**
   The retry counter is used up only while no update is in progress, and then the next stored reconcile
   refills it.
   */
  lemma ExhaustedMeansStopped(u: Update, run: seq<Env>, e: Env)
    requires Sound(u) && After(u, run).retry == 0
    ensures !After(u, run).inProgress
    ensures Judge(After(u, run), e) != Idle && e.reaches && e.patchOk ==> Next(After(u, run), e).retry == MAX_RETRY
    ensures CallsOf(After(u, run), e) == []
  {
    SoundForever(u, run);
  }

  // ----- an update that goes well ---------------------------------------------------

  /** A stored reconcile towards `target` on a host running something else. */
  predicate Ordinary(e: Env, target: string) {
    e.reaches && e.patchOk && e.certificateOk && e.connected && e.target == target && target != "" && e.osVersion != target
  }

  lemma {:induction false} StaysRunning(u: Update, run: seq<Env>, target: string)
    requires u.inProgress && u.retry != 0 && u.installed != target
    requires forall i | 0 <= i < |run| :: Ordinary(run[i], target) && run[i].unit == Some(Active)
    ensures After(u, run) == u && AllCalls(u, run) == []
    decreases run
  {
    if run != [] {
      assert Ordinary(run[0], target);
      StaysRunning(u, run[1..], target);
    }
  }

  /** Started once, seen active any number of times, then inactive: installed, with no retry spent and one unit started. */
  lemma UpdateCompletes(u: Update, start: Env, active: seq<Env>, end: Env, target: string)
    requires !u.inProgress && u.retry != 0 && u.installed != target
    requires Ordinary(start, target) && start.unit == Some(Inactive) && start.startOk
    requires forall i | 0 <= i < |active| :: Ordinary(active[i], target) && active[i].unit == Some(Active)
    requires Ordinary(end, target) && end.unit == Some(Inactive) && (end.reboot ==> end.rebootOk)
    ensures After(u, [start] + active + [end]) == Update(u.retry, false, target, Completed)
    ensures AllCalls(u, [start] + active + [end])
      == [StartUpdate(UnitName(target))] + if end.reboot then [StartReboot] else []
  {
    var v := u.(inProgress := true, reason := Running);
    assert Judge(u, start) == Started && Next(u, start) == v;
    OneStep(u, start);
    RunsToItsEnd(v, active, end, target);
    RunsCompose(u, [start], active + [end]);
    assert [start] + active + [end] == [start] + (active + [end]);
  }

  lemma RunsToItsEnd(v: Update, active: seq<Env>, end: Env, target: string)
    requires v.inProgress && v.retry != 0 && v.installed != target
    requires forall i | 0 <= i < |active| :: Ordinary(active[i], target) && active[i].unit == Some(Active)
    requires Ordinary(end, target) && end.unit == Some(Inactive) && (end.reboot ==> end.rebootOk)
    ensures After(v, active + [end]) == Update(v.retry, false, target, Completed)
    ensures AllCalls(v, active + [end]) == if end.reboot then [StartReboot] else []
  {
    assert Judge(v, end) == Finished(if end.reboot then [StartReboot] else []);
    StaysRunning(v, active, target);
    RunsCompose(v, active, [end]);
    OneStep(v, end);
  }

  lemma OneStep(u: Update, e: Env)
    ensures After(u, [e]) == Next(u, e) && AllCalls(u, [e]) == CallsOf(u, e)
  {
    assert [e][1..] == [];
    assert CallsOf(u, e) + [] == CallsOf(u, e);
  }

  lemma {:induction false} RunsCompose(u: Update, run: seq<Env>, more: seq<Env>)
    ensures After(u, run + more) == After(After(u, run), more)
    ensures AllCalls(u, run + more) == AllCalls(u, run) + AllCalls(After(u, run), more)
    decreases run
  {
    if run == [] {
      assert run + more == more;
    } else {
      assert (run + more)[1..] == run[1..] + more;
      RunsCompose(Next(u, run[0]), run[1..], more);
    }
  }
}
