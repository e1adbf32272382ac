/**
 The shutdown inhibitor (internal/systemd/systemd.go) together with the reconciler flag that drives
 it (internal/controller/hypervisor_controller.go): the reconcile thread, the callback goroutines, an
 unbuffered stop channel and a one-place signal channel, interleaved step by step.
 */
module Inhibitor {
  import opened Wrappers

  const NO_FD := -1

  /** Where a callback goroutine stands. */
  datatype Phase =
    | Waiting       // in the select
    | InCallback    // running the shutdown callback
    | Stopping      // in DisableShutdownInhibit, sending on the stop channel
    | Closing       // its send was received, closing the descriptor
    | Ended

  /** One goroutine per acquired lock; `runs` counts its callback runs. */
  datatype Routine = Routine(phase: Phase, runs: nat)

  /** Where the reconcile thread stands. */
  datatype MainAt =
    | Outside
    | EnableChecked    // saw no descriptor, talking to logind
    | Acquired         // descriptor stored, goroutine not yet started
    | Registering      // goroutine started, signal match not yet added
    | DisableSending   // waiting for a goroutine to take the stop message
    | DisableClosing

  datatype State = State(
    want: bool,            // Spec.EvacuateOnReboot
    mirror: bool,          // the reconciler's evacuateOnReboot
    main: MainAt,
    fd: int,
    registered: bool,      // shutdown signals are forwarded to the channel
    pending: bool,         // the one-place signal channel is full
    busClosed: bool,
    routines: seq<Routine>)

  function Init(want: bool): State {
    State(want, false, Outside, NO_FD, false, false, false, [])
  }

  datatype Label =
    | WantChanged(want: bool)
    | SignalArrives
    | BusCloses
    // the reconcile thread
    | EnableCalled
    | LogindFails
    | LogindGrants(fd: nat)
    | RoutineStarted
    | MatchAdded
    | MatchFails
    | DisableCalled
    | StopTaken(i: nat)
    | CloseOk
    | CloseFails
    // goroutine i
    | SignalTaken(i: nat)
    | SeesBusClosed(i: nat)
    | CallbackReturns(i: nat)
    | OwnStopTaken(i: nat, j: nat)
    | OwnCloseOk(i: nat)
    | OwnCloseFails(i: nat)

  predicate At(s: State, i: nat, p: Phase) {
    i < |s.routines| && s.routines[i].phase == p
  }

  function Move(s: State, i: nat, p: Phase): State
    requires i < |s.routines|
  {
    s.(routines := s.routines[i := s.routines[i].(phase := p)])
  }

  predicate Enabled(s: State, l: Label) {
    match l
    case WantChanged(_) => true
    case SignalArrives => s.registered && !s.pending
    case BusCloses => true
    case EnableCalled => s.main == Outside && s.want && !s.mirror
    case LogindFails => s.main == EnableChecked
    case LogindGrants(_) => s.main == EnableChecked && !s.busClosed
    case RoutineStarted => s.main == Acquired
    case MatchAdded => s.main == Registering && !s.busClosed
    case MatchFails => s.main == Registering
    case DisableCalled => s.main == Outside && !s.want && s.mirror
    case StopTaken(i) => s.main == DisableSending && At(s, i, Waiting)
    case CloseOk => s.main == DisableClosing
    case CloseFails => s.main == DisableClosing
    case SignalTaken(i) => At(s, i, Waiting) && s.pending
    case SeesBusClosed(i) => At(s, i, Waiting) && s.busClosed
    case CallbackReturns(i) => At(s, i, InCallback)
    case OwnStopTaken(i, j) => At(s, i, Stopping) && At(s, j, Waiting)
    case OwnCloseOk(i) => At(s, i, Closing)
    case OwnCloseFails(i) => At(s, i, Closing)
  }

  function Effect(s: State, l: Label): State
    requires Enabled(s, l)
  {
    match l
    case WantChanged(w) => s.(want := w)
    case SignalArrives => s.(pending := true)
    case BusCloses => s.(busClosed := true, registered := false)
    case EnableCalled => if s.fd != NO_FD then s else s.(main := EnableChecked)
    case LogindFails => s.(main := Outside)
    case LogindGrants(fd) => s.(fd := fd, main := Acquired)
    case RoutineStarted => s.(routines := s.routines + [Routine(Waiting, 0)], main := Registering)
    case MatchAdded => s.(registered := true, main := Outside, mirror := true)
    case MatchFails => s.(main := Outside)
    case DisableCalled =>
      if s.fd == NO_FD then s.(mirror := false) else s.(registered := false, main := DisableSending)
    case StopTaken(i) => Move(s, i, Ended).(main := DisableClosing)
    case CloseOk => s.(fd := NO_FD, main := Outside, mirror := false)
    case CloseFails => s.(main := Outside)
    case SignalTaken(i) =>
      s.(pending := false, routines := s.routines[i := Routine(InCallback, s.routines[i].runs + 1)])
    case SeesBusClosed(i) => Move(s, i, Ended)
    case CallbackReturns(i) =>
      if s.fd == NO_FD then Move(s, i, Ended) else Move(s, i, Stopping).(registered := false)
    case OwnStopTaken(i, j) => Move(Move(s, j, Ended), i, Closing)
    case OwnCloseOk(i) => Move(s, i, Ended).(fd := NO_FD)
    case OwnCloseFails(i) => Move(s, i, Ended)
  }

  /** A scheduler may name any step; one that cannot happen has no effect. */
  function Step(s: State, l: Label): State {
    if Enabled(s, l) then Effect(s, l) else s
  }

  function After(s: State, run: seq<Label>): State
    decreases run
  {
    if run == [] then s else After(Step(s, run[0]), run[1..])
  }

  lemma AfterCons(s: State, l: Label, rest: seq<Label>)
    ensures After(s, [l] + rest) == After(Step(s, l), rest)
  {
    assert ([l] + rest)[1..] == rest;
  }

  // ----- the code, one call at a time -----------------------------------------------

  function Answer(busClosed: bool, logind: Option<nat>): Option<nat> {
    if busClosed then None else logind
  }

  /** The steps of one uninterrupted call to EnableShutdownInhibit; None: logind refused. */
  function EnableRun(logind: Option<nat>, matchOk: bool): seq<Label> {
    [EnableCalled] +
      if logind.None? then [LogindFails] + []
      else [LogindGrants(logind.value)] + ([RoutineStarted] + ([if matchOk then MatchAdded else MatchFails] + []))
  }

  /** The steps of one uninterrupted call to DisableShutdownInhibit in which goroutine `i`, if it waits, takes the message. */
  function DisableRun(i: nat, closeOk: bool): seq<Label> {
    [DisableCalled] + ([StopTaken(i)] + ([if closeOk then CloseOk else CloseFails] + []))
  }

  /** The steps of goroutine `i` after its callback; its own stop message is for goroutine `j`, if that waits. */
  function OwnRun(i: nat, j: nat, closeOk: bool): seq<Label> {
    [CallbackReturns(i)] + ([OwnStopTaken(i, j)] + ([if closeOk then OwnCloseOk(i) else OwnCloseFails(i)] + []))
  }

  /** How a call to DisableShutdownInhibit ends, if it does. */
  datatype Outcome = Returned | Failed | Blocked

  class SystemdConn {
    var fd: int
    var registered: bool
    var pending: bool
    var busClosed: bool
    var routines: seq<Routine>
    var mirror: bool    // the reconciler's evacuateOnReboot

    ghost function View(want: bool): State
      reads this
    {
      State(want, mirror, Outside, fd, registered, pending, busClosed, routines)
    }

    constructor ()
      ensures forall want :: View(want) == Init(want)
    {
      fd, registered, pending, busClosed, routines, mirror := NO_FD, false, false, false, [], false;
    }

    /** Over a closed connection logind's answer is an error. */
    method EnableShutdownInhibit(logind: Option<nat>, matchOk: bool) returns (failed: bool)
      requires !mirror
      modifies this`fd, this`routines, this`registered
      ensures View(true).(mirror := !failed) == After(old(View(true)), EnableRun(Answer(busClosed, logind), matchOk))
    {
      ghost var s := View(true);
      EnableRunUnfolds(s, Answer(busClosed, logind), matchOk);
      if fd != NO_FD {
        return true;
      }
      if Answer(busClosed, logind).None? {
        return true;
      }
      fd := logind.value;
      routines := routines + [Routine(Waiting, 0)];
      if !matchOk {
        return true;
      }
      registered := true;
      failed := false;
    }

    /** `i` is the goroutine that may take the stop message: the call blocks in its send unless that one waits. */
    method DisableShutdownInhibit(i: nat, closeOk: bool) returns (outcome: Outcome)
      modifies this`fd, this`routines, this`registered
      ensures outcome == Blocked <==> old(fd) != NO_FD && !At(old(View(false)), i, Waiting)
      ensures outcome == Failed <==> old(fd) != NO_FD && At(old(View(false)), i, Waiting) && !closeOk
      ensures fd == if outcome == Returned then NO_FD else old(fd)
      ensures registered == (old(registered) && old(fd) == NO_FD)
      ensures routines == if old(fd) != NO_FD && outcome != Blocked then Ending(old(routines), i) else old(routines)
    {
      if fd == NO_FD {
        return Returned;
      }
      registered := false;
      if !(i < |routines| && routines[i].phase == Waiting) {
        return Blocked;
      }
      routines := Ending(routines, i);
      if !closeOk {
        return Failed;
      }
      fd := NO_FD;
      outcome := Returned;
    }

    /** The part of the hypervisor reconcile that follows Spec.EvacuateOnReboot; it may get stuck in a disable. */
    method FollowSpec(want: bool, logind: Option<nat>, matchOk: bool, i: nat, closeOk: bool) returns (outcome: Outcome)
      modifies this
      ensures View(want).(main := if outcome == Blocked then DisableSending else Outside) == After(old(View(want)),
        if want == old(mirror) then [] else if want then EnableRun(Answer(old(busClosed), logind), matchOk)
        else DisableRun(i, closeOk))
      ensures mirror == if outcome == Returned then want else old(mirror)
    {
      outcome := Returned;
      if want != mirror {
        ghost var s := View(want);
        if want {
          var failed := EnableShutdownInhibit(logind, matchOk);
          outcome := if failed then Failed else Returned;
        } else {
          DisableRunUnfolds(s, i, closeOk);
          outcome := DisableShutdownInhibit(i, closeOk);
        }
        if outcome != Returned {
          return;
        }
        mirror := want;
      }
    }

    /** The callback goroutine `i` calls DisableShutdownInhibit itself. */
    method ReleaseFromCallback(want: bool, i: nat, j: nat, closeOk: bool) returns (outcome: Outcome)
      requires At(View(want), i, InCallback)
      modifies this`fd, this`routines, this`registered
      ensures View(want) == OwnDisabled(old(View(want)), i, j, closeOk)
      ensures outcome == Blocked <==> At(View(want), i, Stopping)
    {
      outcome := DisableShutdownInhibit(j, closeOk);
      routines := routines[i := routines[i].(phase := if outcome == Blocked then Stopping else Ended)];
    }

    /** Goroutine `i` takes the signal, runs the callback, and tries to release the lock. */
    method HandleSignal(want: bool, i: nat, j: nat, closeOk: bool) returns (outcome: Outcome)
      requires pending && At(View(want), i, Waiting)
      modifies this`fd, this`routines, this`registered, this`pending
      ensures View(want) == After(old(View(want)), [SignalTaken(i)] + OwnRun(i, j, closeOk))
      ensures outcome == Blocked <==> At(View(want), i, Stopping)
    {
      ghost var s := View(want);
      AfterCons(s, SignalTaken(i), OwnRun(i, j, closeOk));
      pending := false;
      routines := routines[i := Routine(InCallback, routines[i].runs + 1)];
      assert View(want) == Step(s, SignalTaken(i));
      OwnRunUnfolds(View(want), i, j, closeOk);
      outcome := ReleaseFromCallback(want, i, j, closeOk);
    }
  }

  function Ending(rs: seq<Routine>, i: nat): seq<Routine>
    requires i < |rs|
  {
    rs[i := rs[i].(phase := Ended)]
  }

  lemma EnableRunUnfolds(s: State, logind: Option<nat>, matchOk: bool)
    requires s.main == Outside && s.want && !s.mirror && (s.busClosed ==> logind.None?)
    ensures After(s, EnableRun(logind, matchOk)) ==
      if s.fd != NO_FD || logind.None? then s
      else s.(fd := logind.value, routines := s.routines + [Routine(Waiting, 0)],
              registered := matchOk || s.registered, mirror := matchOk)
  {
    var s1 := Step(s, EnableCalled);
    if logind.None? {
      AfterCons(s, EnableCalled, [LogindFails] + []);
      AfterCons(s1, LogindFails, []);
    } else {
      var last := if matchOk then MatchAdded else MatchFails;
      var s2 := Step(s1, LogindGrants(logind.value));
      var s3 := Step(s2, RoutineStarted);
      if s.fd != NO_FD {
        assert s1 == s && s2 == s && s3 == s;
      } else {
        assert s2 == s.(main := Acquired, fd := logind.value);
        assert s3 == s2.(main := Registering, routines := s.routines + [Routine(Waiting, 0)]);
      }
      AfterCons(s, EnableCalled, [LogindGrants(logind.value)] + ([RoutineStarted] + ([last] + [])));
      AfterCons(s1, LogindGrants(logind.value), [RoutineStarted] + ([last] + []));
      AfterCons(s2, RoutineStarted, [last] + []);
      AfterCons(s3, last, []);
    }
  }

  lemma DisableRunUnfolds(s: State, i: nat, closeOk: bool)
    requires s.main == Outside && !s.want && s.mirror
    ensures After(s, DisableRun(i, closeOk)) ==
      if s.fd == NO_FD then s.(mirror := false)
      else if !At(s, i, Waiting) then s.(registered := false, main := DisableSending)
      else s.(registered := false, routines := Ending(s.routines, i),
              fd := if closeOk then NO_FD else s.fd, mirror := !closeOk)
  {
    var last := if closeOk then CloseOk else CloseFails;
    var s1 := Step(s, DisableCalled);
    var s2 := Step(s1, StopTaken(i));
    AfterCons(s, DisableCalled, [StopTaken(i)] + ([last] + []));
    AfterCons(s1, StopTaken(i), [last] + []);
    AfterCons(s2, last, []);
  }

  /** What the goroutine's own call to DisableShutdownInhibit makes of the state. */
  function OwnDisabled(s: State, i: nat, j: nat, closeOk: bool): State
    requires i < |s.routines|
  {
    if s.fd == NO_FD then Move(s, i, Ended)
    else if !At(s, j, Waiting) then Move(s, i, Stopping).(registered := false)
    else
      s.(registered := false, fd := if closeOk then NO_FD else s.fd,
         routines := Ending(s.routines, j)[i := s.routines[i].(phase := Ended)])
  }

  lemma OwnRunUnfolds(s: State, i: nat, j: nat, closeOk: bool)
    requires At(s, i, InCallback)
    ensures After(s, OwnRun(i, j, closeOk)) == OwnDisabled(s, i, j, closeOk)
  {
    var last := if closeOk then OwnCloseOk(i) else OwnCloseFails(i);
    var s1 := Step(s, CallbackReturns(i));
    var s2 := Step(s1, OwnStopTaken(i, j));
    AfterCons(s, CallbackReturns(i), [OwnStopTaken(i, j)] + ([last] + []));
    AfterCons(s1, OwnStopTaken(i, j), [last] + []);
    AfterCons(s2, last, []);
    if s.fd == NO_FD || !At(s, j, Waiting) {
      SendTaken(s, i, j);
      NothingClosed(s2, i, closeOk);
    } else {
      SendTaken(s, i, j);
      OwnClosed(s, s2, i, j, closeOk);
    }
  }

  lemma SendTaken(s: State, i: nat, j: nat)
    requires At(s, i, InCallback)
    ensures var s2 := Step(Step(s, CallbackReturns(i)), OwnStopTaken(i, j));
      if s.fd == NO_FD then s2 == Move(s, i, Ended)
      else if !At(s, j, Waiting) then s2 == Move(s, i, Stopping).(registered := false)
      else s2 == s.(registered := false, routines := Ending(s.routines, j)[i := s.routines[i].(phase := Closing)])
  {
    var s1 := Step(s, CallbackReturns(i));
    assert s1.routines[i].phase != Waiting;
    if s.fd != NO_FD && At(s, j, Waiting) {
      assert At(s1, i, Stopping) && At(s1, j, Waiting);
      assert Move(Move(s1, j, Ended), i, Closing).routines
        == Ending(s.routines, j)[i := s.routines[i].(phase := Closing)];
    }
  }

  lemma NothingClosed(s: State, i: nat, closeOk: bool)
    requires !At(s, i, Closing)
    ensures Step(s, if closeOk then OwnCloseOk(i) else OwnCloseFails(i)) == s
  {
  }

  lemma OwnClosed(s: State, s2: State, i: nat, j: nat, closeOk: bool)
    requires At(s, i, InCallback) && At(s, j, Waiting) && s.fd != NO_FD
    requires s2 == s.(registered := false, routines := Ending(s.routines, j)[i := s.routines[i].(phase := Closing)])
    ensures Step(s2, if closeOk then OwnCloseOk(i) else OwnCloseFails(i)) == OwnDisabled(s, i, j, closeOk)
  {
    assert At(s2, i, Closing);
    assert Move(s2, i, Ended).routines == Ending(s.routines, j)[i := s.routines[i].(phase := Ended)];
  }

  // ----- safety ---------------------------------------------------------------------

  predicate Live(r: Routine) {
    r.phase != Ended
  }

  predicate NoneLive(rs: seq<Routine>) {
    forall i | 0 <= i < |rs| :: !Live(rs[i])
  }

  /** A goroutine that has run its callback is stuck in it or in its own stop message; one that has not is not. */
  predicate RunsMatchPhase(r: Routine) {
    match r.phase
    case Waiting => r.runs == 0
    case InCallback => r.runs == 1
    case Stopping => r.runs == 1
    case Closing => false
    case Ended => r.runs == 0
  }

  /** Only the goroutine of the newest lock can be live. */
  predicate RoutinesOk(rs: seq<Routine>) {
    && (forall i | 0 <= i < |rs| - 1 :: !Live(rs[i]))
    && (forall i | 0 <= i < |rs| :: RunsMatchPhase(rs[i]))
  }

  /** Where the reconcile thread can stand, given whether a goroutine is live. */
  predicate MainOk(s: State, live: bool) {
    && s.fd >= NO_FD
    && (live || s.mirror ==> s.fd != NO_FD)
    && match s.main
       case Outside => true
       case EnableChecked => s.fd == NO_FD && !s.mirror
       case Acquired => s.fd != NO_FD && !live && !s.mirror
       case Registering => s.fd != NO_FD && !s.mirror
       case DisableSending => s.mirror
       case DisableClosing => !live && s.mirror
  }

  predicate Inv(s: State) {
    RoutinesOk(s.routines) && MainOk(s, !NoneLive(s.routines))
  }

  /** A live goroutine is the newest one, and may move to any phase its callback count matches. */
  lemma RoutineMoves(rs: seq<Routine>, i: nat, r: Routine)
    requires RoutinesOk(rs) && i < |rs| && Live(rs[i]) && RunsMatchPhase(r)
    ensures RoutinesOk(rs[i := r]) && !NoneLive(rs)
    ensures NoneLive(rs[i := r]) <==> !Live(r)
  {
    assert i == |rs| - 1;
    assert Live(r) ==> Live(rs[i := r][i]);
  }

  lemma RoutineAdded(rs: seq<Routine>)
    requires RoutinesOk(rs) && NoneLive(rs)
    ensures RoutinesOk(rs + [Routine(Waiting, 0)])
  {
  }

  lemma StepKeepsInv(s: State, l: Label)
    requires Inv(s)
    ensures Inv(Step(s, l))
  {
    Quiet(s);
    if Enabled(s, l) {
      match l
      case StopTaken(i) => RoutineMoves(s.routines, i, Routine(Ended, 0));
      case SignalTaken(i) => RoutineMoves(s.routines, i, Routine(InCallback, 1));
      case SeesBusClosed(i) => RoutineMoves(s.routines, i, Routine(Ended, 0));
      case CallbackReturns(i) => RoutineMoves(s.routines, i, Routine(Stopping, 1));
      case RoutineStarted => RoutineAdded(s.routines);
      case _ =>
    }
  }

  /** No goroutine ever gets as far as closing the descriptor, and none waits while another has been fired. */
  lemma Quiet(s: State)
    requires Inv(s)
    ensures forall i: nat :: !At(s, i, Closing)
    ensures forall i: nat, j: nat :: At(s, i, Stopping) || At(s, i, InCallback) ==> !At(s, j, Waiting)
    ensures forall i: nat :: At(s, i, Waiting) ==> s.routines[i].runs == 0
    ensures forall i: nat :: At(s, i, InCallback) ==> s.routines[i].runs == 1 && s.fd != NO_FD
  {
    forall i: nat ensures !At(s, i, Closing) {
      if i < |s.routines| {
        assert RunsMatchPhase(s.routines[i]);
      }
    }
    forall i: nat, j: nat | At(s, i, Stopping) || At(s, i, InCallback) ensures !At(s, j, Waiting) {
      if j < |s.routines| {
        assert Live(s.routines[i]);
      }
    }
    forall i: nat | i < |s.routines| ensures RunsMatchPhase(s.routines[i]) && (Live(s.routines[i]) ==> s.fd != NO_FD) {
    }
  }

  lemma {:induction false} InvForever(s: State, run: seq<Label>)
    requires Inv(s)
    ensures Inv(After(s, run))
    decreases run
  {
    if run != [] {
      StepKeepsInv(s, run[0]);
      InvForever(Step(s, run[0]), run[1..]);
    }
  }

  /**
   In every interleaving: a live callback goroutine implies a held descriptor, there is at most one,
   each lock's callback has run at most once, and the reconciler's flag is only set while a lock is held.
   */
  lemma Safety(want: bool, run: seq<Label>)
    ensures var s := After(Init(want), run);
      && (forall i | 0 <= i < |s.routines| && Live(s.routines[i]) :: s.fd != NO_FD)
      && (forall i, j | 0 <= i < |s.routines| && 0 <= j < |s.routines| && Live(s.routines[i]) && Live(s.routines[j]) :: i == j)
      && (forall i | 0 <= i < |s.routines| :: s.routines[i].runs <= 1)
      && (s.mirror ==> s.fd != NO_FD)
  {
    InvForever(Init(want), run);
    var s := After(Init(want), run);
    forall i | 0 <= i < |s.routines| ensures s.routines[i].runs <= 1 {
      assert RunsMatchPhase(s.routines[i]);
    }
  }

  // ----- release --------------------------------------------------------------------

  ghost predicate SomeWaiting(s: State) {
    exists i: nat :: At(s, i, Waiting)
  }

  /**
   The held lock can still be given up: its goroutine is, or will be, there to take a stop message, and the
   reconciler knows, or will know, that there is something to disable.
   */
  ghost predicate Releasable(s: State) {
    match s.main
    case Outside => s.mirror && SomeWaiting(s)
    case EnableChecked => false
    case Acquired => !s.busClosed
    case Registering => SomeWaiting(s) && !s.busClosed
    case DisableSending => SomeWaiting(s)
    case DisableClosing => true
  }

  ghost predicate Leaked(s: State) {
    s.fd != NO_FD && !Releasable(s)
  }

  /** `s'` has no waiting goroutine that `s` has not. */
  ghost predicate NoNewWaiting(s: State, s': State) {
    forall k: nat | At(s', k, Waiting) :: At(s, k, Waiting)
  }

  lemma MoveAddsNoWaiting(s: State, i: nat, p: Phase)
    requires i < |s.routines| && p != Waiting
    ensures NoNewWaiting(s, Move(s, i, p))
  {
  }

  lemma StepAddsNoWaiting(s: State, l: Label)
    requires s.main != Acquired
    ensures NoNewWaiting(s, Step(s, l))
  {
    if Enabled(s, l) {
      match l
      case StopTaken(i) => MoveAddsNoWaiting(s, i, Ended);
      case SignalTaken(i) => MoveAddsNoWaiting(s, i, InCallback);
      case SeesBusClosed(i) => MoveAddsNoWaiting(s, i, Ended);
      case CallbackReturns(i) => MoveAddsNoWaiting(s, i, Ended); MoveAddsNoWaiting(s, i, Stopping);
      case OwnStopTaken(i, j) => MoveAddsNoWaiting(s, j, Ended); MoveAddsNoWaiting(Move(s, j, Ended), i, Closing);
      case OwnCloseOk(i) => MoveAddsNoWaiting(s, i, Ended);
      case OwnCloseFails(i) => MoveAddsNoWaiting(s, i, Ended);
      case _ =>
    }
  }

  /** The goroutines started, with the one that a lock just granted is about to start. */
  function RoutinesDue(s: State): nat {
    |s.routines| + if s.main == Acquired then 1 else 0
  }

  lemma LeakedStep(s: State, l: Label)
    requires Inv(s) && Leaked(s)
    ensures Leaked(Step(s, l)) && Step(s, l).fd == s.fd && RoutinesDue(Step(s, l)) == RoutinesDue(s)
  {
    Quiet(s);
    if s.main != Acquired {
      StepAddsNoWaiting(s, l);
    }
  }

  lemma {:induction false} LeakedForever(s: State, run: seq<Label>)
    requires Inv(s) && Leaked(s)
    ensures After(s, run).fd == s.fd && RoutinesDue(After(s, run)) == RoutinesDue(s)
    decreases run
  {
    if run != [] {
      LeakedStep(s, run[0]);
      StepKeepsInv(s, run[0]);
      LeakedForever(Step(s, run[0]), run[1..]);
    }
  }

  /** The steps that release a lock between two calls: the specification is switched off while its goroutine waits. */
  lemma ReleaseRunWorks(s: State, i: nat)
    requires s.fd != NO_FD && s.main == Outside && s.mirror && At(s, i, Waiting)
    ensures After(s, [WantChanged(false)] + DisableRun(i, true)).fd == NO_FD
  {
    AfterCons(s, WantChanged(false), DisableRun(i, true));
    DisableRunUnfolds(s.(want := false), i, true);
  }

  /** From inside a call, the call is first brought to its end. */
  lemma ReleaseRun(s: State) returns (run: seq<Label>)
    requires Inv(s) && s.fd != NO_FD && Releasable(s)
    ensures After(s, run).fd == NO_FD
    decreases match s.main case Acquired => 2 case Registering => 1 case DisableSending => 1 case _ => 0
  {
    var l, rest;
    match s.main {
      case Outside =>
        var i: nat :| At(s, i, Waiting);
        l, rest := WantChanged(false), DisableRun(i, true);
        ReleaseRunWorks(s, i);
      case Acquired =>
        l := RoutineStarted;
        StepKeepsInv(s, l);
        assert At(Step(s, l), |s.routines|, Waiting);
        rest := ReleaseRun(Step(s, l));
      case Registering =>
        l := MatchAdded;
        StepKeepsInv(s, l);
        var i: nat :| At(s, i, Waiting);
        assert At(Step(s, l), i, Waiting);
        rest := ReleaseRun(Step(s, l));
      case DisableSending =>
        var i: nat :| At(s, i, Waiting);
        l := StopTaken(i);
        StepKeepsInv(s, l);
        rest := ReleaseRun(Step(s, l));
      case DisableClosing =>
        l, rest := CloseOk, [];
    }
    AfterCons(s, l, rest);
    run := [l] + rest;
  }

  /**
   At any moment of any call: a held lock can still be released exactly if its goroutine waits, or is about to,
   and the reconciler's flag is set, or can still be set over the open bus.
   */
  lemma ReleasableExactly(s: State)
    requires Inv(s) && s.fd != NO_FD
    ensures (exists run :: After(s, run).fd == NO_FD) <==> Releasable(s)
  {
    if Releasable(s) {
      var run := ReleaseRun(s);
    } else {
      forall run ensures After(s, run).fd != NO_FD {
        LeakedForever(s, run);
      }
    }
  }

  lemma {:induction false} StuckForever(s: State, run: seq<Label>)
    requires Inv(s) && s.main == DisableSending && !SomeWaiting(s)
    ensures After(s, run).main == DisableSending
    decreases run
  {
    if run != [] {
      StepAddsNoWaiting(s, run[0]);
      StepKeepsInv(s, run[0]);
      StuckForever(Step(s, run[0]), run[1..]);
    }
  }

  /** The reconciler gets out of its send exactly if a goroutine waits to take the message; else it hangs for good. */
  lemma SendCompletesExactly(s: State)
    requires Inv(s) && s.main == DisableSending
    ensures (exists run :: After(s, run).main != DisableSending) <==> SomeWaiting(s)
  {
    if SomeWaiting(s) {
      var i: nat :| At(s, i, Waiting);
      AfterCons(s, StopTaken(i), []);
      assert After(s, [StopTaken(i)] + []).main == DisableClosing;
    } else {
      forall run ensures After(s, run).main == DisableSending {
        StuckForever(s, run);
      }
    }
  }

  /**
   The callback is meant to release the lock so that the shutdown continues. It never does: in
   every run, once a goroutine has taken the signal, its lock is held ever after.
   */
  lemma {:induction false} FiredLockNeverReleased(s: State, i: nat, run: seq<Label>)
    requires Inv(s) && i < |s.routines| && s.routines[i].runs == 1
    ensures After(s, run).fd == s.fd != NO_FD
    ensures i < |After(s, run).routines| && After(s, run).routines[i].runs == 1 && Live(After(s, run).routines[i])
    decreases run
  {
    assert RunsMatchPhase(s.routines[i]);
    assert Live(s.routines[i]);
    if run != [] {
      var s' := Step(s, run[0]);
      StepKeepsInv(s, run[0]);
      FiredStep(s, i, run[0]);
      FiredLockNeverReleased(s', i, run[1..]);
    }
  }

  lemma FiredStep(s: State, i: nat, l: Label)
    requires Inv(s) && i < |s.routines| && s.routines[i].runs == 1
    ensures Step(s, l).fd == s.fd && i < |Step(s, l).routines| && Step(s, l).routines[i].runs == 1
  {
    assert RunsMatchPhase(s.routines[i]);
    assert Live(s.routines[i]);
    assert At(s, i, Stopping) || At(s, i, InCallback);
    Quiet(s);
  }

  /** The lock is granted, a shutdown is announced, and the goroutine takes the signal. */
  function FiredState(fd: nat): State {
    State(true, true, Outside, fd, true, false, false, [Routine(InCallback, 1)])
  }

  /** The lock is granted and its goroutine waits. */
  function EnabledState(fd: nat): State {
    State(true, true, Outside, fd, true, false, false, [Routine(Waiting, 0)])
  }

  lemma EnabledReachable(fd: nat)
    ensures After(Init(true), EnableRun(Some(fd), true)) == EnabledState(fd)
  {
    EnableRunUnfolds(Init(true), Some(fd), true);
    assert [] + [Routine(Waiting, 0)] == [Routine(Waiting, 0)];
  }

  lemma FiredReachable(fd: nat)
    ensures After(Init(true), EnableRun(Some(fd), true) + ([SignalArrives] + ([SignalTaken(0)] + []))) == FiredState(fd)
    ensures Inv(FiredState(fd))
  {
    var s := EnabledState(fd);
    EnabledReachable(fd);
    AfterAppend(Init(true), EnableRun(Some(fd), true), [SignalArrives] + ([SignalTaken(0)] + []));
    AfterCons(s, SignalArrives, [SignalTaken(0)] + []);
    AfterCons(Step(s, SignalArrives), SignalTaken(0), []);
    InvForever(Init(true), EnableRun(Some(fd), true) + ([SignalArrives] + ([SignalTaken(0)] + [])));
  }

  /** It happens: from the start, one lock and one shutdown signal, and the lock is held in every continuation. */
  lemma ShutdownIsNeverReleased(fd: nat, run: seq<Label>)
    ensures var s := After(Init(true), EnableRun(Some(fd), true) + ([SignalArrives] + ([SignalTaken(0)] + [])));
      After(s, run).fd == fd
  {
    FiredReachable(fd);
    FiredLockNeverReleased(FiredState(fd), 0, run);
  }

  /** And then the reconciler hangs: switching the inhibitor off blocks it in every continuation. */
  lemma ReconcilerHangs(fd: nat, run: seq<Label>)
    ensures var s := Step(Step(FiredState(fd), WantChanged(false)), DisableCalled);
      After(s, run).main == DisableSending
  {
    FiredReachable(fd);
    var s1 := Step(FiredState(fd), WantChanged(false));
    StepKeepsInv(FiredState(fd), WantChanged(false));
    StepKeepsInv(s1, DisableCalled);
    assert Step(s1, DisableCalled).routines == [Routine(InCallback, 1)];
    StuckForever(Step(s1, DisableCalled), run);
  }

  /** One way to a leak: logind grants the lock, but the signal match cannot be added. */
  lemma FailedMatchLeaks(fd: nat, run: seq<Label>)
    ensures var s := After(Init(true), EnableRun(Some(fd), false));
      s.fd == fd && !s.mirror && After(s, run).fd == fd
  {
    EnableRunUnfolds(Init(true), Some(fd), false);
    InvForever(Init(true), EnableRun(Some(fd), false));
    LeakedForever(After(Init(true), EnableRun(Some(fd), false)), run);
  }

  lemma BusCloseReachable(fd: nat)
    ensures After(Init(true), EnableRun(Some(fd), true) + ([BusCloses] + ([SeesBusClosed(0)] + [])))
      == State(true, true, Outside, fd, false, false, true, [Routine(Ended, 0)])
  {
    var s := EnabledState(fd);
    var s1 := s.(busClosed := true, registered := false);
    EnabledReachable(fd);
    AfterAppend(Init(true), EnableRun(Some(fd), true), [BusCloses] + ([SeesBusClosed(0)] + []));
    AfterCons(s, BusCloses, [SeesBusClosed(0)] + []);
    AfterCons(s1, SeesBusClosed(0), []);
    assert Step(s1, SeesBusClosed(0)).routines == [Routine(Ended, 0)];
  }

  /**
   Another way: the bus closes, the waiting goroutine sees its channel closed and ends, and nobody is left to take
   the stop message.
   */
  lemma BusCloseLeaks(fd: nat, run: seq<Label>)
    ensures var s := After(Init(true), EnableRun(Some(fd), true) + ([BusCloses] + ([SeesBusClosed(0)] + [])));
      && s == State(true, true, Outside, fd, false, false, true, [Routine(Ended, 0)])
      && After(s, run).fd == fd
  {
    BusCloseReachable(fd);
    InvForever(Init(true), EnableRun(Some(fd), true) + ([BusCloses] + ([SeesBusClosed(0)] + [])));
    LeakedForever(State(true, true, Outside, fd, false, false, true, [Routine(Ended, 0)]), run);
  }

  // ----- stale signals --------------------------------------------------------------

  predicate NeverFired(s: State) {
    forall i | 0 <= i < |s.routines| :: s.routines[i].runs == 0
  }

  lemma MoveFiresNothing(s: State, i: nat, p: Phase)
    requires NeverFired(s) && i < |s.routines|
    ensures NeverFired(Move(s, i, p))
  {
  }

  lemma NeverFiredStep(s: State, l: Label)
    requires !s.pending && NeverFired(s) && l != SignalArrives
    ensures !Step(s, l).pending && NeverFired(Step(s, l))
  {
    if Enabled(s, l) {
      match l
      case StopTaken(i) => MoveFiresNothing(s, i, Ended);
      case SeesBusClosed(i) => MoveFiresNothing(s, i, Ended);
      case CallbackReturns(i) => MoveFiresNothing(s, i, Ended); MoveFiresNothing(s, i, Stopping);
      case OwnStopTaken(i, j) => MoveFiresNothing(s, j, Ended); MoveFiresNothing(Move(s, j, Ended), i, Closing);
      case OwnCloseOk(i) => MoveFiresNothing(s, i, Ended);
      case OwnCloseFails(i) => MoveFiresNothing(s, i, Ended);
      case _ =>
    }
  }

  lemma {:induction false} NoSignalNoCallback(s: State, run: seq<Label>)
    requires !s.pending && NeverFired(s) && SignalArrives !in run
    ensures NeverFired(After(s, run))
    decreases run
  {
    if run != [] {
      assert run[0] in run;
      NeverFiredStep(s, run[0]);
      NoSignalNoCallback(Step(s, run[0]), run[1..]);
    }
  }

  /** Without a signal match nothing reaches the channel: as long as none is added, no callback starts. */
  lemma {:induction false} UnmatchedNeverFires(s: State, run: seq<Label>)
    requires !s.pending && !s.registered && NeverFired(s) && MatchAdded !in run
    ensures !After(s, run).pending && NeverFired(After(s, run))
    decreases run
  {
    if run != [] {
      assert run[0] in run;
      if run[0] != SignalArrives {
        NeverFiredStep(s, run[0]);
      }
      UnmatchedNeverFires(Step(s, run[0]), run[1..]);
    }
  }

  /** Over a closed bus no lock is granted any more, and without a lock no goroutine is there to fire. */
  predicate Idle(s: State) {
    && s.busClosed && s.fd == NO_FD && NoneLive(s.routines) && !s.mirror
    && (s.main == Outside || s.main == EnableChecked)
  }

  lemma {:induction false} NoLockNoCallback(s: State, run: seq<Label>)
    requires Idle(s) && NeverFired(s)
    ensures NeverFired(After(s, run))
    decreases run
  {
    if run != [] {
      IdleStep(s, run[0]);
      NoLockNoCallback(Step(s, run[0]), run[1..]);
    }
  }

  lemma IdleStep(s: State, l: Label)
    requires Idle(s)
    ensures Idle(Step(s, l)) && Step(s, l).routines == s.routines
  {
    assert forall i: nat | i < |s.routines| :: !Live(s.routines[i]);
  }

  lemma EnableRunHasNoSignal(fd: nat)
    ensures SignalArrives !in EnableRun(Some(fd), true)
  {
    assert EnableRun(Some(fd), true) == [EnableCalled, LogindGrants(fd), RoutineStarted, MatchAdded];
  }

  lemma StaleRunFires(s: State) returns (run: seq<Label>)
    requires s.main == Outside && s.fd == NO_FD && !s.mirror && s.pending && !s.busClosed
    ensures SignalArrives !in run && !NeverFired(After(s, run))
  {
    var taken := SignalTaken(|s.routines|);
    run := [WantChanged(true)] + (EnableRun(Some(0), true) + ([taken] + []));
    EnableRunHasNoSignal(0);
    var s1 := s.(want := true);
    AfterCons(s, WantChanged(true), EnableRun(Some(0), true) + ([taken] + []));
    AfterAppend(s1, EnableRun(Some(0), true), [taken] + []);
    FiresAfterEnable(s1);
  }

  lemma FiresAfterEnable(s: State)
    requires s.main == Outside && s.want && s.fd == NO_FD && !s.mirror && s.pending && !s.busClosed
    ensures !NeverFired(After(After(s, EnableRun(Some(0), true)), [SignalTaken(|s.routines|)] + []))
  {
    EnableRunUnfolds(s, Some(0), true);
    var s' := After(s, EnableRun(Some(0), true));
    assert s'.routines == s.routines + [Routine(Waiting, 0)];
    TakenFires(s', |s.routines|);
  }

  lemma TakenFires(s: State, i: nat)
    requires At(s, i, Waiting) && s.pending
    ensures !NeverFired(After(s, [SignalTaken(i)] + []))
  {
    AfterCons(s, SignalTaken(i), []);
    assert Step(s, SignalTaken(i)).routines[i].runs > 0;
  }

  lemma {:induction false} AfterAppend(s: State, run: seq<Label>, more: seq<Label>)
    ensures After(s, run + more) == After(After(s, run), more)
    decreases run
  {
    if run == [] {
      assert run + more == more;
    } else {
      assert (run + more)[1..] == run[1..] + more;
      AfterAppend(Step(s, run[0]), run[1..], more);
    }
  }

  /**
   With no lock held, a callback can still start without any further shutdown signal exactly if one
   was left over in the channel and the bus is still open: switching the inhibitor off does not empty the channel.
   */
  lemma SpuriousCallbackExactly(s: State)
    requires Inv(s) && s.main == Outside && s.fd == NO_FD
    ensures (exists run :: SignalArrives !in run && !NeverFired(After(s, run))) <==> s.pending && !s.busClosed
  {
    assert NeverFired(s) by {
      forall i | 0 <= i < |s.routines| ensures s.routines[i].runs == 0 {
        assert !Live(s.routines[i]) && RunsMatchPhase(s.routines[i]);
      }
    }
    if s.pending && !s.busClosed {
      var run := StaleRunFires(s);
    } else if s.busClosed {
      forall run ensures NeverFired(After(s, run)) {
        NoLockNoCallback(s, run);
      }
    } else {
      forall run | SignalArrives !in run ensures NeverFired(After(s, run)) {
        NoSignalNoCallback(s, run);
      }
    }
  }

  /** A shutdown is announced, and the inhibitor is switched off before its goroutine looks. */
  function LeftoverRun(fd: nat): seq<Label> {
    EnableRun(Some(fd), true) + ([SignalArrives] + ([WantChanged(false)] + DisableRun(0, true)))
  }

  /** It happens: from the start, a run that ends with no lock held and can start a callback without a further signal. */
  lemma LeftoverSignalHappens(fd: nat)
    ensures var s := After(Init(true), LeftoverRun(fd));
      s.fd == NO_FD && s.main == Outside && exists run :: SignalArrives !in run && !NeverFired(After(s, run))
  {
    var s := After(Init(true), EnableRun(Some(fd), true));
    EnableRunUnfolds(Init(true), Some(fd), true);
    AfterAppend(Init(true), EnableRun(Some(fd), true), [SignalArrives] + ([WantChanged(false)] + DisableRun(0, true)));
    var s1 := s.(pending := true);
    AfterCons(s, SignalArrives, [WantChanged(false)] + DisableRun(0, true));
    AfterCons(s1, WantChanged(false), DisableRun(0, true));
    DisableRunUnfolds(s1.(want := false), 0, true);
    InvForever(Init(true), LeftoverRun(fd));
    SpuriousCallbackExactly(After(Init(true), LeftoverRun(fd)));
  }
}
