/**
 Thread lifecycle and exit code of storage_consumer/runtime/supervisor.py, at the
 granularity at which the two shared events can be observed: every interleaving
 of the pipeline threads, the main thread and signal handlers is a run.
 */
module Supervisor {
  import opened Wrappers

  /** How a pipeline's `try` block ended; `stopSeen` is what its check of the stop event found. */
  datatype Outcome = Unknown | Raised | ReturnedNormally(stopSeen: bool)

  /**
   Where a pipeline thread is in `_run_pipeline`. It is `Unexpected` once it has found the stop
   event unset and not yet recorded the failure; an escape is an exception that `except Exception` let through.
   */
  datatype Phase =
    | Unstarted
    | Building
    | Running
    | Caught
    | Checking
    | Unexpected
    | Closing
    | Stopping
    | Ended(escaped: bool)

  /** `built` says whether there is a worker to close. */
  datatype Thread = Thread(phase: Phase, outcome: Outcome, built: bool)

  /** Where the main thread is in `run`; `clean` means no join has timed out so far. */
  datatype Main = Starting(next: nat) | Waiting | Joining(next: nat, clean: bool) | Exited(code: int, clean: bool)

  /** `outside` remembers whether a stop was ever requested from outside the pipelines. */
  datatype State = State(threads: seq<Thread>, main: Main, stop: bool, failed: bool, outside: bool)

  datatype Action =
    | StartThread
    | BuildFails(t: nat)
    | BuildSucceeds(t: nat)
    | RunRaises(t: nat)
    | RunReturns(t: nat)
    | RecordFailure(t: nat)
    | CheckStop(t: nat)
    | Close(t: nat)
    | CloseEscapes(t: nat)
    | RequestStop(t: nat)
    | OutsideStop
    | WakeUp
    | Join
    | JoinTimesOut
    | Exit

  function Initial(pipelines: nat): State {
    State(seq(pipelines, _ => Thread(Unstarted, Unknown, false)), if pipelines == 0 then Waiting else Starting(0),
          false, false, false)
  }

  function Move(s: State, t: nat, th: Thread): State
    requires t < |s.threads|
  {
    s.(threads := s.threads[t := th])
  }

  function ThreadOf(a: Action): Option<nat> {
    match a
    case BuildFails(t) => Some(t)
    case BuildSucceeds(t) => Some(t)
    case RunRaises(t) => Some(t)
    case RunReturns(t) => Some(t)
    case RecordFailure(t) => Some(t)
    case CheckStop(t) => Some(t)
    case Close(t) => Some(t)
    case CloseEscapes(t) => Some(t)
    case RequestStop(t) => Some(t)
    case _ => None
  }

  /** A step of pipeline thread `t`. */
  function ThreadStep(s: State, t: nat, a: Action): Option<State>
    requires t < |s.threads| && ThreadOf(a) == Some(t)
  {
    var th := s.threads[t];
    match a
    case BuildFails(_) => if th.phase == Building then Some(Move(s, t, Thread(Caught, Raised, false))) else None
    case BuildSucceeds(_) => if th.phase == Building then Some(Move(s, t, Thread(Running, Unknown, true))) else None
    case RunRaises(_) => if th.phase == Running then Some(Move(s, t, th.(phase := Caught, outcome := Raised))) else None
    case RunReturns(_) => if th.phase == Running then Some(Move(s, t, th.(phase := Checking))) else None
    case RecordFailure(_) =>
      if th.phase == Caught || th.phase == Unexpected then Some(Move(s, t, th.(phase := Closing)).(failed := true))
      else None
    case CheckStop(_) =>
      if th.phase == Checking
      then Some(Move(s, t, th.(phase := if s.stop then Closing else Unexpected, outcome := ReturnedNormally(s.stop))))
      else None
    case Close(_) => if th.phase == Closing then Some(Move(s, t, th.(phase := Stopping))) else None
    case CloseEscapes(_) =>
      if th.phase == Closing && th.built then Some(Move(s, t, th.(phase := Ended(true)))) else None
    case RequestStop(_) =>
      if th.phase == Stopping then Some(Move(s, t, th.(phase := Ended(false))).(stop := true)) else None
  }

  /** A step of the main thread, or a signal. */
  function MainStep(s: State, a: Action): Option<State>
    requires ThreadOf(a).None?
  {
    match a
    case OutsideStop => Some(s.(stop := true, outside := true))
    case StartThread =>
      if s.main.Starting? && s.main.next < |s.threads| then
        var started := Move(s, s.main.next, Thread(Building, Unknown, false));
        Some(started.(main := if s.main.next + 1 < |s.threads| then Starting(s.main.next + 1) else Waiting))
      else None
    case WakeUp => if s.main.Waiting? && s.stop then Some(s.(main := Joining(0, true))) else None
    case Join =>
      if s.main.Joining? && s.main.next < |s.threads| && s.threads[s.main.next].phase.Ended?
      then Some(s.(main := Joining(s.main.next + 1, s.main.clean))) else None
    case JoinTimesOut =>
      if s.main.Joining? && s.main.next < |s.threads|
      then Some(s.(main := Joining(s.main.next + 1, false))) else None
    case Exit =>
      if s.main.Joining? && s.main.next == |s.threads|
      then Some(s.(main := Exited(if s.failed then 1 else 0, s.main.clean))) else None
  }

  function Step(s: State, a: Action): Option<State> {
    if ThreadOf(a).None? then MainStep(s, a)
    else if ThreadOf(a).value < |s.threads| then ThreadStep(s, ThreadOf(a).value, a)
    else None
  }

  function Run(pipelines: nat, actions: seq<Action>): Option<State> {
    if actions == [] then Some(Initial(pipelines))
    else
      match Run(pipelines, actions[..|actions| - 1])
      case None => None
      case Some(s) => Step(s, actions[|actions| - 1])
  }

  // ----- The invariant -----

  predicate ThreadOk(s: State, th: Thread) {
    && (th.outcome == Raised && th.phase != Caught ==> s.failed)
    && (th.outcome == ReturnedNormally(false) && th.phase != Unexpected ==> s.failed)
    && (th.phase == Closing || th.phase == Stopping || th.phase.Ended? ==> th.outcome != Unknown)
    && (th.phase == Caught ==> th.outcome == Raised)
    && (th.phase == Unexpected ==> th.outcome == ReturnedNormally(false))
    && (th.outcome == ReturnedNormally(true) ==> s.stop)
    && (th.phase == Ended(false) ==> s.stop)
    && (th.phase == Ended(true) ==> th.built)
  }

  predicate MainOk(s: State) {
    match s.main
    case Joining(next, clean) =>
      s.stop && next <= |s.threads| && (clean ==> forall t :: 0 <= t < next ==> s.threads[t].phase.Ended?)
    case Exited(code, clean) =>
      && s.stop && (code == 0 || code == 1)
      && (clean ==> forall t :: 0 <= t < |s.threads| ==> s.threads[t].phase.Ended?)
      && (clean ==> (code == 1 <==> s.failed))
      && (!s.outside ==> code == 1)
    case _ => true
  }

  predicate Ok(s: State) {
    && (s.stop && !s.outside ==> s.failed)
    && (forall t :: 0 <= t < |s.threads| ==> ThreadOk(s, s.threads[t]))
    && MainOk(s)
  }

  /** A thread step only moves its thread, and only sets events. */
  lemma ThreadStepMoves(s: State, t: nat, a: Action)
    requires t < |s.threads| && ThreadOf(a) == Some(t) && ThreadStep(s, t, a).Some?
    ensures var s' := ThreadStep(s, t, a).value;
      && |s'.threads| == |s.threads| && (forall u :: 0 <= u < |s.threads| && u != t ==> s'.threads[u] == s.threads[u])
      && (s.failed ==> s'.failed) && (s.stop ==> s'.stop) && s'.outside == s.outside && s'.main == s.main
      && !s.threads[t].phase.Ended?
  {
  }

  /** The thread that moved is as the invariant says, and stop is only set after a failure or an outside request. */
  lemma MovedThreadOk(s: State, t: nat, a: Action)
    requires Ok(s) && t < |s.threads| && ThreadOf(a) == Some(t) && ThreadStep(s, t, a).Some?
    ensures var s' := ThreadStep(s, t, a).value;
      t < |s'.threads| && ThreadOk(s', s'.threads[t]) && (s'.stop && !s'.outside ==> s'.failed)
  {
    assert ThreadOk(s, s.threads[t]);
  }

  lemma ThreadStepKeepsOk(s: State, t: nat, a: Action)
    requires Ok(s) && t < |s.threads| && ThreadOf(a) == Some(t) && ThreadStep(s, t, a).Some?
    ensures Ok(ThreadStep(s, t, a).value)
  {
    var s' := ThreadStep(s, t, a).value;
    ThreadStepMoves(s, t, a);
    MovedThreadOk(s, t, a);
    assert forall u :: 0 <= u < |s.threads| ==> ThreadOk(s, s.threads[u]);
    FailureIsKnown(s, s');
  }

  /** An exit code once chosen stays right, because nothing fails after every thread was joined. */
  lemma FailureIsKnown(s: State, s': State)
    requires MainOk(s) && s'.main == s.main && |s'.threads| == |s.threads|
    requires s.stop ==> s'.stop
    requires s'.outside == s.outside
    requires forall u :: 0 <= u < |s.threads| && s.threads[u].phase.Ended? ==> s'.threads[u] == s.threads[u]
    requires (forall u :: 0 <= u < |s.threads| ==> s.threads[u].phase.Ended?) ==> s'.failed == s.failed
    ensures MainOk(s')
  {
  }

  lemma MainStepKeepsOk(s: State, a: Action)
    requires Ok(s) && ThreadOf(a).None? && MainStep(s, a).Some?
    ensures Ok(MainStep(s, a).value)
  {
    var s' := MainStep(s, a).value;
    forall u | 0 <= u < |s'.threads| ensures ThreadOk(s', s'.threads[u]) {
      assert ThreadOk(s, s.threads[u]);
    }
  }

  lemma StepKeepsOk(s: State, a: Action)
    requires Ok(s) && Step(s, a).Some?
    ensures Ok(Step(s, a).value)
    ensures |Step(s, a).value.threads| == |s.threads|
  {
    if ThreadOf(a).None? {
      MainStepKeepsOk(s, a);
    } else {
      ThreadStepMoves(s, ThreadOf(a).value, a);
      ThreadStepKeepsOk(s, ThreadOf(a).value, a);
    }
  }

  lemma {:induction false} RunIsOk(pipelines: nat, actions: seq<Action>)
    requires Run(pipelines, actions).Some?
    ensures Ok(Run(pipelines, actions).value)
    ensures |Run(pipelines, actions).value.threads| == pipelines
  {
    if actions == [] {
    } else {
      var s, a := Run(pipelines, actions[..|actions| - 1]).value, actions[|actions| - 1];
      RunIsOk(pipelines, actions[..|actions| - 1]);
      StepKeepsOk(s, a);
    }
  }

  /** The stop event is set by an outside request, or by a thread that reached its own, and by nothing else. */
  ghost predicate StopIsAskedFor(s: State) {
    s.stop <==> s.outside || exists t :: HasStopped(s, t)
  }

  predicate HasStopped(s: State, t: int) {
    0 <= t < |s.threads| && s.threads[t].phase == Ended(false)
  }

  lemma ThreadStepStops(s: State, t: nat, a: Action)
    requires t < |s.threads| && ThreadOf(a) == Some(t) && ThreadStep(s, t, a).Some?
    ensures var s' := ThreadStep(s, t, a).value;
      && s'.outside == s.outside
      && (forall u :: HasStopped(s, u) ==> HasStopped(s', u))
      && (s'.stop <==> s.stop || HasStopped(s', t))
      && (forall u :: HasStopped(s', u) && u != t ==> HasStopped(s, u))
  {
  }

  lemma MainStepStops(s: State, a: Action)
    requires ThreadOf(a).None? && MainStep(s, a).Some?
    requires s.main.Starting? && s.main.next < |s.threads| ==> s.threads[s.main.next].phase == Unstarted
    ensures var s' := MainStep(s, a).value;
      && (s'.stop <==> s.stop || a.OutsideStop?) && (s'.outside <==> s.outside || a.OutsideStop?)
      && (forall u :: HasStopped(s', u) <==> HasStopped(s, u))
  {
  }

  /** Threads the main thread has not started are unstarted. */
  predicate StartsInOrder(s: State) {
    s.main.Starting? ==> forall t :: s.main.next <= t < |s.threads| ==> s.threads[t].phase == Unstarted
  }

  lemma {:induction false} RunStartsInOrder(pipelines: nat, actions: seq<Action>)
    requires Run(pipelines, actions).Some?
    ensures StartsInOrder(Run(pipelines, actions).value)
  {
    if actions == [] {
    } else {
      var s, a := Run(pipelines, actions[..|actions| - 1]).value, actions[|actions| - 1];
      RunStartsInOrder(pipelines, actions[..|actions| - 1]);
      if ThreadOf(a).Some? { ThreadStepMoves(s, ThreadOf(a).value, a); ThreadStepStarts(s, ThreadOf(a).value, a); }
    }
  }

  lemma ThreadStepStarts(s: State, t: nat, a: Action)
    requires t < |s.threads| && ThreadOf(a) == Some(t) && ThreadStep(s, t, a).Some?
    ensures s.threads[t].phase != Unstarted
  {
  }

  lemma {:induction false} RunStops(pipelines: nat, actions: seq<Action>)
    requires Run(pipelines, actions).Some?
    ensures StopIsAskedFor(Run(pipelines, actions).value)
  {
    if actions == [] {
    } else {
      var s, a := Run(pipelines, actions[..|actions| - 1]).value, actions[|actions| - 1];
      RunStops(pipelines, actions[..|actions| - 1]);
      RunStartsInOrder(pipelines, actions[..|actions| - 1]);
      if ThreadOf(a).None? { MainStepStops(s, a); } else { ThreadStepStops(s, ThreadOf(a).value, a); }
    }
  }

  // ----- What an operator may conclude -----

  /** A stop nobody outside asked for means a failure was recorded, and the process exits with 1. */
  lemma UnrequestedStopIsFailure(pipelines: nat, actions: seq<Action>)
    requires Run(pipelines, actions).Some?
    requires Run(pipelines, actions).value.stop && !Run(pipelines, actions).value.outside
    ensures Run(pipelines, actions).value.failed
    ensures Run(pipelines, actions).value.main.Exited? ==> Run(pipelines, actions).value.main.code == 1
  {
    RunIsOk(pipelines, actions);
  }

  /** Exit code 0 with every thread joined: each pipeline returned normally and found the stop event set. */
  lemma CleanExit(pipelines: nat, actions: seq<Action>, t: nat)
    requires Run(pipelines, actions).Some?
    requires Run(pipelines, actions).value.main == Exited(0, true)
    requires t < pipelines
    ensures Run(pipelines, actions).value.outside
    ensures |Run(pipelines, actions).value.threads| == pipelines
    ensures Run(pipelines, actions).value.threads[t].phase.Ended?
    ensures Run(pipelines, actions).value.threads[t].outcome == ReturnedNormally(true)
  {
    RunIsOk(pipelines, actions);
    assert ThreadOk(Run(pipelines, actions).value, Run(pipelines, actions).value.threads[t]);
  }

  /** The process only exits once a stop has been requested. */
  lemma ExitNeedsStop(pipelines: nat, actions: seq<Action>)
    requires Run(pipelines, actions).Some? && Run(pipelines, actions).value.main.Exited?
    ensures Run(pipelines, actions).value.stop
    ensures Run(pipelines, actions).value.main.code == 0 ==> Run(pipelines, actions).value.outside
  {
    RunIsOk(pipelines, actions);
  }

  /**
   Once a thread has ended, the others may only go on if nobody outside asked for
   a stop and every thread that ended did so by an exception, raised while closing
   a worker it had built, that the handler does not catch. Then they do go on.
   */
  lemma {:induction false} EndedThreadStopsTheRest(pipelines: nat, actions: seq<Action>, t: nat)
    requires Run(pipelines, actions).Some? && t < |Run(pipelines, actions).value.threads|
    requires Run(pipelines, actions).value.threads[t].phase.Ended?
    ensures var s := Run(pipelines, actions).value;
      !s.stop <==> !s.outside && forall u :: 0 <= u < |s.threads| && s.threads[u].phase.Ended? ==>
                                   s.threads[u].built && s.threads[u].phase.escaped
  {
    RunIsOk(pipelines, actions);
    RunStops(pipelines, actions);
    var s := Run(pipelines, actions).value;
    assert forall u :: 0 <= u < |s.threads| ==> ThreadOk(s, s.threads[u]);
    assert forall u :: 0 <= u < |s.threads| && s.threads[u].phase.Ended? ==>
      (HasStopped(s, u) <==> !s.threads[u].phase.escaped);
  }

  /** Such an escape really does leave the siblings running: one thread gone, no stop, the main thread waiting. */
  lemma EscapeLeavesSiblings() returns (actions: seq<Action>)
    ensures Run(2, actions).Some?
    ensures var s := Run(2, actions).value;
      |s.threads| == 2 && s.threads[0].phase.Ended? && s.threads[1].phase == Building && !s.stop && s.main.Waiting?
  {
    var before := OneClosing();
    var s;
    s, actions := Take(2, before, CloseEscapes(0));
  }

  /** One worker was built and its run raised; the other thread is still building. */
  lemma OneClosing() returns (actions: seq<Action>)
    ensures Run(2, actions)
         == Some(State([Thread(Closing, Raised, true), Thread(Building, Unknown, false)], Waiting, false, true, false))
  {
    var s;
    actions := OneRunning();
    s, actions := Take(2, actions, RunRaises(0));
    assert s.threads == [Thread(Caught, Raised, true), Thread(Building, Unknown, false)];
    s, actions := Take(2, actions, RecordFailure(0));
    assert s.threads == [Thread(Closing, Raised, true), Thread(Building, Unknown, false)];
  }

  lemma OneRunning() returns (actions: seq<Action>)
    ensures Run(2, actions)
         == Some(State([Thread(Running, Unknown, true), Thread(Building, Unknown, false)], Waiting,
                       false, false, false))
  {
    var s;
    s, actions := Take(2, [], StartThread);
    assert s.threads == [Thread(Building, Unknown, false), Thread(Unstarted, Unknown, false)];
    s, actions := Take(2, actions, StartThread);
    assert s.threads == [Thread(Building, Unknown, false), Thread(Building, Unknown, false)];
    s, actions := Take(2, actions, BuildSucceeds(0));
    assert s.threads == [Thread(Running, Unknown, true), Thread(Building, Unknown, false)];
  }

  lemma Take(pipelines: nat, before: seq<Action>, a: Action) returns (s: State, actions: seq<Action>)
    requires Run(pipelines, before).Some? && Step(Run(pipelines, before).value, a).Some?
    ensures actions == before + [a]
    ensures Run(pipelines, actions) == Some(s) == Step(Run(pipelines, before).value, a)
  {
    actions := before + [a];
    s := Step(Run(pipelines, before).value, a).value;
    assert actions[..|before|] == before;
  }
}
