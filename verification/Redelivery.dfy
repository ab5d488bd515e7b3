/**
 When a message that was polled is polled again. A failed offset commit leaves the
 consumer's position where it is, so what follows is not redelivery: only an
 assignment of the partition, before some commit has passed the message, rewinds.
 */
module Redelivery {
  import opened Wrappers
  import opened Sequences
  import opened Events
  import opened Batching
  import opened BatchWrite
  import opened Protocol
  import NoLoss

  predicate Covers(slices: seq<Slice>, p: nat, o: nat) {
    exists i :: 0 <= i < |slices| && slices[i].part == p && slices[i].lo <= o < slices[i].hi
  }

  predicate GoesPast(slices: seq<Slice>, p: nat, o: nat) {
    exists i :: 0 <= i < |slices| && slices[i].part == p && slices[i].hi > o
  }

  /** The worker would read offset `o` of `p`, or an earlier one, next. */
  predicate Before(s: State, w: int, p: nat, o: nat) {
    w in s.workers && s.workers[w].Live? && p in s.workers[w].position && s.workers[w].position[p] <= o
  }

  /** Some poll of the worker, possible now, holds offset `o` of `p`. */
  ghost predicate CanReadNext(pipe: Pipeline, log: Log, s: State, w: int, p: nat, o: nat) {
    exists slices :: Covers(slices, p, o) && Step(pipe, log, s, Action.Poll(w, slices)).Some?
  }

  // ----- Runs after runs -----

  lemma RunLast(pipe: Pipeline, log: Log, before: seq<Action>, after: seq<Action>)
    requires Run(pipe, log, before + after).Some? && after != []
    ensures Run(pipe, log, before + Front(after)).Some?
    ensures Run(pipe, log, before + after) == Step(pipe, log, Run(pipe, log, before + Front(after)).value, Last(after))
  {
    assert before + after == (before + Front(after)) + [Last(after)];
    Snoc(before + Front(after), Last(after));
  }

  // ----- The exact condition -----

  /**
   Worker `w` was last started or assigned after `before`, `p` was among its
   partitions and `o` not committed then, and it has not read past `o` since.
   */
  predicate Rewound(pipe: Pipeline, log: Log, before: seq<Action>, after: seq<Action>, w: int, p: nat, o: nat) {
    if after == [] then false
    else
      var f, a := Front(after), Last(after);
      if a == Start(w) then false
      else if a.Assign? && a.w == w then p in a.parts && UncommittedAfter(pipe, log, before + f, p, o)
      else if a.Poll? && a.w == w then Rewound(pipe, log, before, f, w, p, o) && !GoesPast(a.slices, p, o)
      else Rewound(pipe, log, before, f, w, p, o)
  }

  predicate UncommittedAfter(pipe: Pipeline, log: Log, actions: seq<Action>, p: nat, o: nat) {
    match Run(pipe, log, actions)
    case None => false
    case Some(s) => p < |s.committed| && s.committed[p] <= o
  }

  /** Where a poll leaves the position of one partition. */
  lemma {:induction false} AdvancedPast(position: map<nat, nat>, slices: seq<Slice>, p: nat, o: nat)
    requires DistinctParts(slices)
    requires forall i :: 0 <= i < |slices| ==> slices[i].part in position && slices[i].lo == position[slices[i].part]
    requires forall i :: 0 <= i < |slices| ==> slices[i].lo <= slices[i].hi
    ensures Advance(position, slices).Keys == position.Keys
    ensures p in position ==> (Advance(position, slices)[p] <= o <==> position[p] <= o && !GoesPast(slices, p, o))
    ensures p in position && (forall i :: 0 <= i < |slices| ==> slices[i].part != p) ==>
      Advance(position, slices)[p] == position[p]
  {
    if slices == [] {
    } else {
      var f, s := Front(slices), Last(slices);
      AdvancedPast(position, f, p, o);
      assert slices == f + [s];
      assert GoesPast(slices, p, o) <==> GoesPast(f, p, o) || (s.part == p && s.hi > o);
    }
  }

  /** How one step moves a live worker's reading position, relative to `o`. */
  lemma BeforeStep(pipe: Pipeline, log: Log, s: State, a: Action, w: int, p: nat, o: nat)
    requires Step(pipe, log, s, a).Some?
    requires var ws := Step(pipe, log, s, a).value.workers; w in ws && ws[w].Live?
    ensures var s' := Step(pipe, log, s, a).value;
      Before(s', w, p, o) <==>
        if a == Start(w) then false
        else if a.Assign? && a.w == w then p in a.parts && p < |s.committed| && s.committed[p] <= o
        else if a.Poll? && a.w == w then Before(s, w, p, o) && !GoesPast(a.slices, p, o)
        else Before(s, w, p, o)
    ensures a != Start(w) ==> w in s.workers && s.workers[w].Live?
  {
    if a.Poll? && a.w == w {
      AdvancedPast(s.workers[w].position, a.slices, p, o);
    }
  }

  /** A worker past `o` is before it again if and only if it was rewound. */
  lemma {:induction false} BeforeMeansRewound(pipe: Pipeline, log: Log, before: seq<Action>, after: seq<Action>,
                                              w: int, p: nat, o: nat)
    requires Run(pipe, log, before + after).Some?
    requires Run(pipe, log, before).Some? && !Before(Run(pipe, log, before).value, w, p, o)
    requires var ws := Run(pipe, log, before + after).value.workers; w in ws && ws[w].Live?
    ensures Before(Run(pipe, log, before + after).value, w, p, o) <==> Rewound(pipe, log, before, after, w, p, o)
  {
    if after == [] {
      assert before + after == before;
    } else {
      var f, a := Front(after), Last(after);
      RunLast(pipe, log, before, after);
      BeforeStep(pipe, log, Run(pipe, log, before + f).value, a, w, p, o);
      if a != Start(w) {
        BeforeMeansRewound(pipe, log, before, f, w, p, o);
      }
    }
  }

  /** An idle worker can read `o` next exactly when it stands before it. */
  lemma ReadableMeansBefore(pipe: Pipeline, log: Log, s: State, w: int, p: nat, o: nat)
    requires IsIdle(s, w) && log.Has(p, o)
    ensures CanReadNext(pipe, log, s, w, p, o) <==> Before(s, w, p, o)
  {
    if Before(s, w, p, o) {
      var slices := [Slice(p, s.workers[w].position[p], o + 1)];
      assert slices[0].part == p && slices[0].lo <= o < slices[0].hi;
      assert CanPoll(log, s, w, slices);
      assert Step(pipe, log, s, Action.Poll(w, slices)).Some?;
    }
  }

  /**
   The exact condition, for every run. A worker that is past offset `o` after
   `before`, as after a failed commit of the batch that held it, can be handed
   it again after `after` if and only if it was rewound in between.
   */
  lemma RedeliveredExactly(pipe: Pipeline, log: Log, before: seq<Action>, after: seq<Action>, w: int, p: nat, o: nat)
    requires Run(pipe, log, before + after).Some? && log.Has(p, o)
    requires Run(pipe, log, before).Some? && !Before(Run(pipe, log, before).value, w, p, o)
    requires IsIdle(Run(pipe, log, before + after).value, w)
    ensures CanReadNext(pipe, log, Run(pipe, log, before + after).value, w, p, o)
       <==> Rewound(pipe, log, before, after, w, p, o)
  {
    BeforeMeansRewound(pipe, log, before, after, w, p, o);
    ReadableMeansBefore(pipe, log, Run(pipe, log, before + after).value, w, p, o);
  }

  // ----- Needed, and enough -----

  predicate Reassigns(a: Action, w: int, p: nat) {
    a.Assign? && a.w == w && p in a.parts
  }

  /** Worker `w` polls offset `o` of `p` somewhere in these steps. */
  predicate Reads(actions: seq<Action>, w: int, p: nat, o: nat) {
    exists i :: 0 <= i < |actions| && ReadsAt(actions[i], w, p, o)
  }

  predicate ReadsAt(a: Action, w: int, p: nat, o: nat) {
    a.Poll? && a.w == w && Covers(a.slices, p, o)
  }

  lemma {:induction false} RewoundNeedsAssign(pipe: Pipeline, log: Log, before: seq<Action>, after: seq<Action>,
                                              w: int, p: nat, o: nat)
    requires Rewound(pipe, log, before, after, w, p, o)
    ensures exists j :: 0 <= j < |after| && Reassigns(after[j], w, p)
  {
    if !Reassigns(Last(after), w, p) {
      RewoundNeedsAssign(pipe, log, before, Front(after), w, p, o);
      var j :| 0 <= j < |Front(after)| && Reassigns(Front(after)[j], w, p);
      assert Reassigns(after[j], w, p);
    }
  }

  /** Without an assignment of the partition, no later poll of the worker returns the offset. */
  lemma {:induction false} NoAssignmentNoRedelivery(pipe: Pipeline, log: Log, before: seq<Action>, after: seq<Action>,
                                                    w: int, p: nat, o: nat)
    requires Run(pipe, log, before + after).Some?
    requires Run(pipe, log, before).Some? && !Before(Run(pipe, log, before).value, w, p, o)
    requires forall i :: 0 <= i < |after| ==> !Reassigns(after[i], w, p)
    ensures !Reads(after, w, p, o)
  {
    if after == [] {
    } else {
      var f, a := Front(after), Last(after);
      assert forall i :: 0 <= i < |f| ==> f[i] == after[i];
      RunLast(pipe, log, before, after);
      NoAssignmentNoRedelivery(pipe, log, before, f, w, p, o);
      if ReadsAt(a, w, p, o) {
        var s := Run(pipe, log, before + f).value;
        BeforeMeansRewound(pipe, log, before, f, w, p, o);
        var i :| 0 <= i < |a.slices| && a.slices[i].part == p && a.slices[i].lo <= o < a.slices[i].hi;
        assert Before(s, w, p, o);
        RewoundNeedsAssign(pipe, log, before, f, w, p, o);
        assert false;
      }
    }
  }

  /** An assignment of the partition to an idle worker is enough, as long as the offset is not committed. */
  lemma AssignmentRedelivers(pipe: Pipeline, log: Log, before: seq<Action>, w: int, p: nat, o: nat)
    returns (after: seq<Action>)
    requires Run(pipe, log, before).Some? && IsIdle(Run(pipe, log, before).value, w) && log.Has(p, o)
    requires UncommittedAfter(pipe, log, before, p, o)
    ensures Run(pipe, log, before + after).Some? && Reads(after, w, p, o)
  {
    var s := Run(pipe, log, before).value;
    var parts, slices := {p}, [Slice(p, s.committed[p], o + 1)];
    assert slices[0].part == p && slices[0].lo <= o < slices[0].hi;
    RunSnoc(pipe, log, before, Assign(w, parts));
    RunSnoc(pipe, log, before + [Assign(w, parts)], Action.Poll(w, slices));
    var s1 := Run(pipe, log, before + [Assign(w, parts)]).value;
    assert s1.workers[w].position[p] == s.committed[p];
    PollStep(pipe, log, s1, w, slices);
    after := [Assign(w, parts), Action.Poll(w, slices)];
    assert before + [Assign(w, parts)] + [Action.Poll(w, slices)] == before + after;
    assert ReadsAt(after[1], w, p, o);
  }

  /** Some continuation, with an assignment of `p` to `w` only if `mayAssign`, has `w` poll the offset. */
  ghost predicate Redeliverable(pipe: Pipeline, log: Log, before: seq<Action>, w: int, p: nat, o: nat, mayAssign: bool)
  {
    exists after: seq<Action> ::
      && Run(pipe, log, before + after).Some? && Reads(after, w, p, o)
      && (mayAssign || forall i :: 0 <= i < |after| ==> !Reassigns(after[i], w, p))
  }

  /**
   After a failed commit the worker can poll an uncommitted offset of its batch again
   if and only if the partition may be assigned to it.
   */
  lemma FailedCommitRedelivers(pipe: Pipeline, log: Log, before: seq<Action>, w: int, p: nat, o: nat, mayAssign: bool)
    requires before != [] && Last(before) == CommitFailed(w)
    requires Run(pipe, log, before).Some? && IsIdle(Run(pipe, log, before).value, w)
    requires p in Run(pipe, log, before).value.workers[w].position
    requires Run(pipe, log, before).value.workers[w].position[p] > o && UncommittedAfter(pipe, log, before, p, o)
    ensures Redeliverable(pipe, log, before, w, p, o, mayAssign) <==> mayAssign
  {
    var s := Run(pipe, log, before).value;
    RunIsOrdered(pipe, log, before);
    assert WorkerOk(log, s.workers[w], s.high);
    assert log.Has(p, o);
    if mayAssign {
      var after := AssignmentRedelivers(pipe, log, before, w, p, o);
    } else {
      forall after | Run(pipe, log, before + after).Some? && forall i :: 0 <= i < |after| ==> !Reassigns(after[i], w, p)
        ensures !Reads(after, w, p, o)
      {
        NoAssignmentNoRedelivery(pipe, log, before, after, w, p, o);
      }
    }
  }

  // ----- What happens instead -----

  /** The next successful commit covers the offset whose own commit failed, unless the partition was reassigned. */
  lemma NextCommitCovers(pipe: Pipeline, log: Log, before: seq<Action>, after: seq<Action>, w: int, p: nat, o: nat)
    requires Run(pipe, log, before).Some? && !Before(Run(pipe, log, before).value, w, p, o)
    requires Run(pipe, log, before + after).Some? && IsDurable(Run(pipe, log, before + after).value, w)
    requires p in Run(pipe, log, before + after).value.workers[w].position
    requires forall i :: 0 <= i < |after| ==> !Reassigns(after[i], w, p)
    ensures var end := Run(pipe, log, before + after + [CommitOk(w)]);
      end.Some? && p < |end.value.committed| && end.value.committed[p] > o
  {
    BeforeMeansRewound(pipe, log, before, after, w, p, o);
    if Rewound(pipe, log, before, after, w, p, o) { RewoundNeedsAssign(pipe, log, before, after, w, p, o); }
    CommitPublishes(pipe, log, before + after, w, p);
  }

  /** One turn of a worker that reads one record at a time. */
  function TurnOf(o: nat, ids: Registry, now: Time, commit: Action): seq<Action> {
    [Action.Poll(0, [Slice(0, o, o + 1)]), WriteCommitted(0, ids, now), commit]
  }

  lemma OneSlice(log: Log, o: nat)
    requires |log.parts| > 0 && o < |log.parts[0]|
    ensures BatchOf(log, [Slice(0, o, o + 1)])
    ensures Advance(map[0 := o], [Slice(0, o, o + 1)]) == map[0 := o + 1]
  {
    var slices := [Slice(0, o, o + 1)];
    assert Front(slices) == [] && Last(slices) == Slice(0, o, o + 1);
    assert Advance(map[0 := o], []) == map[0 := o];
  }

  /** Worker 0 stands at `o` of the first partition, of which offsets below `committed` are committed. */
  predicate Stands(s: State, o: nat, phase: Phase, failures: nat, committed: nat) {
    && |s.committed| > 0 && s.committed[0] == committed
    && 0 in s.workers && s.workers[0] == Live(map[0 := o], phase, failures)
  }

  lemma PollTurn(pipe: Pipeline, log: Log, s: State, o: nat, failures: nat, committed: nat) returns (s': State)
    requires |log.parts| > 0 && o < |log.parts[0]| && Stands(s, o, Idle, failures, committed)
    ensures Step(pipe, log, s, Action.Poll(0, [Slice(0, o, o + 1)])) == Some(s')
    ensures Stands(s', o + 1, Writing([Slice(0, o, o + 1)]), failures, committed)
  {
    OneSlice(log, o);
    PollStep(pipe, log, s, 0, [Slice(0, o, o + 1)]);
    s' := SetWorker(s, 0, Live(map[0 := o + 1], Writing([Slice(0, o, o + 1)]), failures));
  }

  lemma WriteTurn(pipe: Pipeline, log: Log, s: State, o: nat, failures: nat, committed: nat, ids: Registry, now: Time)
    returns (s': State)
    requires WellTyped(pipe) && |log.parts| > 0 && o < |log.parts[0]|
    requires Stands(s, o + 1, Writing([Slice(0, o, o + 1)]), failures, committed)
    ensures Step(pipe, log, s, WriteCommitted(0, ids, now)) == Some(s')
    ensures Stands(s', o + 1, Durable, failures, committed)
  {
    OneSlice(log, o);
    NoLoss.DedupedWrites(pipe, ids, s.tables, RecordsOf(log, [Slice(0, o, o + 1)]), now);
    var written := AfterWrite(pipe, log, s, 0, ids, now).value;
    WriteCommittedStep(pipe, log, s, 0, ids, now, written);
    s' := SetWorker(written, 0, s.workers[0].(phase := Durable));
  }

  lemma CommitTurn(pipe: Pipeline, log: Log, s: State, o: nat, failures: nat, committed: nat, ok: bool)
    returns (s': State)
    requires failures + 1 < MAX_CONSECUTIVE_COMMIT_FAILURES && Stands(s, o, Durable, failures, committed)
    ensures Step(pipe, log, s, if ok then CommitOk(0) else CommitFailed(0)) == Some(s')
    ensures Stands(s', o, Idle, if ok then 0 else failures + 1, if ok then o else committed)
  {
    s' := Step(pipe, log, s, if ok then CommitOk(0) else CommitFailed(0)).value;
  }

  lemma TurnRuns(pipe: Pipeline, log: Log, history: seq<Action>, o: nat, failures: nat, committed: nat, ids: Registry,
                 now: Time, ok: bool)
    requires WellTyped(pipe) && |log.parts| > 0 && o < |log.parts[0]| && failures + 1 < MAX_CONSECUTIVE_COMMIT_FAILURES
    requires Run(pipe, log, history).Some? && Stands(Run(pipe, log, history).value, o, Idle, failures, committed)
    ensures var end := Run(pipe, log, history + TurnOf(o, ids, now, if ok then CommitOk(0) else CommitFailed(0)));
      end.Some? && Stands(end.value, o + 1, Idle, if ok then 0 else failures + 1, if ok then o + 1 else committed)
  {
    var s := Run(pipe, log, history).value;
    var s1 := PollTurn(pipe, log, s, o, failures, committed);
    var s2 := WriteTurn(pipe, log, s1, o, failures, committed, ids, now);
    var s3 := CommitTurn(pipe, log, s2, o + 1, failures, committed, ok);
    ThreeSteps(pipe, log, history, Action.Poll(0, [Slice(0, o, o + 1)]), WriteCommitted(0, ids, now),
               if ok then CommitOk(0) else CommitFailed(0), s, s1, s2, s3);
  }

  lemma Assigned(pipe: Pipeline, log: Log)
    requires |log.parts| > 0
    ensures var end := Run(pipe, log, [Start(0), Assign(0, {0})]); end.Some? && Stands(end.value, 0, Idle, 0, 0)
  {
    RunSnoc(pipe, log, [], Start(0));
    RunSnoc(pipe, log, [] + [Start(0)], Assign(0, {0}));
    assert [] + [Start(0)] + [Assign(0, {0})] == [Start(0), Assign(0, {0})];
    var s, parts: set<nat> := Run(pipe, log, [] + [Start(0)]).value, {0};
    assert (map p | p in parts && p < |s.committed| :: s.committed[p]) == map[0 := 0];
  }

  lemma SecondTurn(pipe: Pipeline, log: Log, history: seq<Action>, ids: Registry, now: Time)
    requires WellTyped(pipe) && |log.parts| > 0 && |log.parts[0]| >= 2
    requires Run(pipe, log, history).Some? && Stands(Run(pipe, log, history).value, 1, Idle, 1, 0)
    ensures var after := TurnOf(1, ids, now, CommitOk(0));
      && Run(pipe, log, history + after).Some? && Stands(Run(pipe, log, history + after).value, 2, Idle, 0, 2)
      && !Reads(after, 0, 0, 0)
  {
    TurnRuns(pipe, log, history, 1, 1, 0, ids, now, true);
  }

  /**
   A run without redelivery, on any log with two messages: the commit of the first
   fails, the next poll starts behind it, and the next commit covers both.
   */
  lemma FailedCommitSkips(pipe: Pipeline, log: Log, ids: Registry, now: Time)
    returns (before: seq<Action>, after: seq<Action>)
    requires WellTyped(pipe) && |log.parts| > 0 && |log.parts[0]| >= 2
    ensures before == [Start(0), Assign(0, {0})] + TurnOf(0, ids, now, CommitFailed(0))
    ensures after == TurnOf(1, ids, now, CommitOk(0)) && !Reads(after, 0, 0, 0)
    ensures Run(pipe, log, before + after).Some? && Stands(Run(pipe, log, before + after).value, 2, Idle, 0, 2)
  {
    var start := [Start(0), Assign(0, {0})];
    before, after := start + TurnOf(0, ids, now, CommitFailed(0)), TurnOf(1, ids, now, CommitOk(0));
    Assigned(pipe, log);
    TurnRuns(pipe, log, start, 0, 0, 0, ids, now, false);
    SecondTurn(pipe, log, before, ids, now);
  }
}
