/**
 The run of the protocol that one worker's loop leads to (storage_consumer/runtime/worker.py),
 when a script says what it is offered, which attempts and commits fail, and what
 everyone else does in between: other workers, the group's assignments, the labeller.
 */
module WorkerTurns {
  import opened Wrappers
  import opened Sequences
  import opened Events
  import opened Batching
  import opened BatchWrite
  import opened Protocol
  import NoLoss

  // ----- What the environment decides -----

  /** How one transaction ends: committed, lost before the commit, or lost just after it. */
  datatype Fault = NoFault | BeforeCommit | AfterCommit

  /** One attempt: what others do first, what the registry holds, the transaction time, and the fault. */
  datatype Attempt = Attempt(others: seq<Action>, registry: Registry, now: Time, fault: Fault)

  /**
   One turn of the loop: what others do up to the poll, a rebalance included, how many
   records each partition offers, the attempts, what others do before the commit, the commit.
   */
  datatype Turn = Turn(others: seq<Action>, offers: seq<(nat, nat)>, attempts: seq<Attempt>,
                       beforeCommit: seq<Action>, commitSucceeds: bool)

  /** Nothing the worker does itself: only an assignment can come to it from outside. */
  predicate FromOutside(a: Action, id: int) {
    a.LabelSentiment? || a.Assign? || a.w != id
  }

  // ----- What is polled -----

  /** What `poll` returns when partitions offer so many records each. */
  function Offered(log: Log, position: map<nat, nat>, offers: seq<(nat, nat)>): seq<Slice> {
    if offers == [] then []
    else
      var before, part, count := Offered(log, position, Front(offers)), Last(offers).0, Last(offers).1;
      if Available(log, position, before, part, count) then before + [NextSlice(log, position, part, count)]
      else before
  }

  /** The partition is assigned, not yet part of this poll, and has something to offer. */
  predicate Available(log: Log, position: map<nat, nat>, slices: seq<Slice>, part: nat, count: nat) {
    && part in position && part < |log.parts| && Unpolled(slices, part)
    && position[part] < |log.parts[part]| && count > 0
  }

  function NextSlice(log: Log, position: map<nat, nat>, part: nat, count: nat): Slice
    requires part in position && part < |log.parts|
  {
    Slice(part, position[part], Min(position[part] + count, |log.parts[part]|))
  }

  predicate Unpolled(slices: seq<Slice>, part: nat) {
    forall i :: 0 <= i < |slices| ==> slices[i].part != part
  }

  lemma OfferedNext(log: Log, position: map<nat, nat>, offers: seq<(nat, nat)>, n: nat)
    requires n < |offers|
    ensures var before, part, count := Offered(log, position, offers[..n]), offers[n].0, offers[n].1;
      Offered(log, position, offers[..n + 1])
      == if Available(log, position, before, part, count) then before + [NextSlice(log, position, part, count)]
         else before
  {
    TakeNext(offers, n);
    Snoc(offers[..n], offers[n]);
  }

  /** What is polled is a batch that starts from the positions. */
  lemma {:induction false} OfferedFits(log: Log, position: map<nat, nat>, offers: seq<(nat, nat)>)
    ensures var slices := Offered(log, position, offers);
      && BatchOf(log, slices)
      && (forall i :: 0 <= i < |slices| ==> slices[i].part in position && slices[i].lo == position[slices[i].part])
  {
    if offers == [] {
    } else {
      OfferedFits(log, position, Front(offers));
    }
  }

  lemma AdvanceNext(position: map<nat, nat>, slices: seq<Slice>, s: Slice)
    ensures Advance(position, slices + [s]) == Advance(position, slices)[s.part := s.hi]
  {
    Snoc(slices, s);
  }

  /** Advancing moves the positions of the partitions polled and no others. */
  lemma {:induction false} AdvanceElsewhere(position: map<nat, nat>, slices: seq<Slice>)
    requires forall i :: 0 <= i < |slices| ==> slices[i].part in position
    ensures Advance(position, slices).Keys == position.Keys
    ensures forall p :: p in position && Unpolled(slices, p) ==> Advance(position, slices)[p] == position[p]
  {
    if slices == [] {
    } else {
      AdvanceElsewhere(position, Front(slices));
      assert slices == Front(slices) + [Last(slices)];
      forall p | p in position && Unpolled(slices, p) ensures Advance(position, slices)[p] == position[p] {
        assert slices[|slices| - 1].part != p;
      }
    }
  }

  /** A partition not yet polled is where it was before the poll. */
  lemma Unmoved(log: Log, start: map<nat, nat>, offers: seq<(nat, nat)>, part: nat)
    ensures var slices := Offered(log, start, offers);
      && (part in Advance(start, slices) <==> part in start)
      && (part in start && Unpolled(slices, part) ==> Advance(start, slices)[part] == start[part])
  {
    OfferedFits(log, start, offers);
    AdvanceElsewhere(start, Offered(log, start, offers));
  }

  /** What one more offer adds to a poll, in terms of where the poll stands. */
  lemma PollNext(log: Log, start: map<nat, nat>, offers: seq<(nat, nat)>, n: nat,
                 slices: seq<Slice>, position: map<nat, nat>)
    requires n < |offers| && slices == Offered(log, start, offers[..n]) && position == Advance(start, slices)
    ensures var part, count := offers[n].0, offers[n].1;
      if Available(log, position, slices, part, count) then
        var s := NextSlice(log, position, part, count);
        && Offered(log, start, offers[..n + 1]) == slices + [s]
        && Advance(start, slices + [s]) == position[part := s.hi]
      else Offered(log, start, offers[..n + 1]) == slices
  {
    var part, count := offers[n].0, offers[n].1;
    OfferedNext(log, start, offers, n);
    Unmoved(log, start, offers[..n], part);
    assert Available(log, position, slices, part, count) <==> Available(log, start, slices, part, count);
    if Available(log, position, slices, part, count) {
      AdvanceNext(start, slices, NextSlice(log, position, part, count));
    }
  }

  // ----- Single steps -----

  /** What an attempt to write a pending batch does to the protocol's state. */
  lemma AttemptStep(pipe: Pipeline, log: Log, s: State, w: int, slices: seq<Slice>, a: Attempt)
    requires IsWriting(s, w) && s.workers[w].phase.slices == slices && BatchOf(log, slices)
    ensures Step(pipe, log, s, WriteAborted(w)) == Some(s)
    ensures var r := WriteBatch(pipe, a.registry, s.tables, RecordsOf(log, slices), a.now);
      r.Ok? ==>
        var s' := s.(tables := r.value, high := Raise(s.high, slices));
        Step(pipe, log, s, WriteStep(w, a))
        == Some(match a.fault
                case NoFault => SetWorker(s', w, s.workers[w].(phase := Durable))
                case BeforeCommit => s
                case AfterCommit => s')
  {
  }

  /** One attempt of worker `w` to write its batch. */
  function WriteStep(w: int, a: Attempt): Action {
    match a.fault
    case NoFault => WriteCommitted(w, a.registry, a.now)
    case BeforeCommit => WriteAborted(w)
    case AfterCommit => WriteInDoubt(w, a.registry, a.now)
  }

  function CommitStep(w: int, succeeds: bool): Action {
    if succeeds then CommitOk(w) else CommitFailed(w)
  }

  /** A commit publishes the worker's positions, or counts as one more failure. */
  lemma CommitStepEffect(pipe: Pipeline, log: Log, s: State, w: int, succeeds: bool, committed: seq<nat>)
    requires IsDurable(s, w) && |committed| == |s.committed|
    requires forall p :: 0 <= p < |committed| ==>
      committed[p] == if succeeds && p in s.workers[w].position then s.workers[w].position[p] else s.committed[p]
    ensures var failures := if succeeds then 0 else s.workers[w].failures + 1;
      Step(pipe, log, s, CommitStep(w, succeeds))
      == Some(SetWorker(s, w, if failures >= MAX_CONSECUTIVE_COMMIT_FAILURES then Stopped
                              else Live(s.workers[w].position, Idle, failures)).(committed := committed))
  {
    assert !succeeds ==> committed == s.committed;
    if succeeds {
      assert committed == Step(pipe, log, s, CommitOk(w)).value.committed;
    }
  }

  /** What others do leaves the worker in its phase, with its count of failures. */
  lemma OutsideStep(pipe: Pipeline, log: Log, s: State, a: Action, id: int)
    requires FromOutside(a, id) && id in s.workers && Step(pipe, log, s, a).Some?
    ensures var s' := Step(pipe, log, s, a).value;
      && id in s'.workers
      && (s.workers[id].Stopped? ==> s'.workers[id].Stopped?)
      && (s.workers[id].Live? ==>
            && s'.workers[id].Live?
            && s'.workers[id].phase == s.workers[id].phase && s'.workers[id].failures == s.workers[id].failures)
  {
  }

  // ----- The run a script leads to -----

  /** Worker `id` of this pipeline. Its functions extend a run `h` by what comes next. */
  datatype Process = Process(pipe: Pipeline, log: Log, id: int) {
    ghost predicate Possible(h: seq<Action>) { Run(pipe, log, h).Some? }

    ghost predicate Idle(h: seq<Action>) { Possible(h) && IsIdle(Run(pipe, log, h).value, id) }

    ghost predicate Writing(h: seq<Action>) { Possible(h) && IsWriting(Run(pipe, log, h).value, id) }

    ghost predicate Durable(h: seq<Action>) { Possible(h) && IsDurable(Run(pipe, log, h).value, id) }

    ghost predicate Ended(h: seq<Action>) {
      Possible(h) && id in Run(pipe, log, h).value.workers && Run(pipe, log, h).value.workers[id].Stopped?
    }

    /** An action that can happen, happens. */
    ghost function Then(h: seq<Action>, a: Action): seq<Action> {
      if Possible(h + [a]) then h + [a] else h
    }

    /** Others act. */
    ghost function Meanwhile(h: seq<Action>, others: seq<Action>): seq<Action> {
      if others == [] then h
      else
        var before, a := Meanwhile(h, Front(others)), Last(others);
        if FromOutside(a, id) then Then(before, a) else before
    }

    /** `poll`: a rebalance takes effect, and then records are fetched from the positions. */
    ghost function Polled(h: seq<Action>, others: seq<Action>, offers: seq<(nat, nat)>): seq<Action> {
      var before := Meanwhile(h, others);
      if !Idle(before) then before
      else
        var slices := Offered(log, Run(pipe, log, before).value.workers[id].position, offers);
        if slices == [] then before else Then(before, Action.Poll(id, slices))
    }

    /** The pending batch can be written: no statement of the transaction fails. */
    ghost predicate Writable(h: seq<Action>, a: Attempt) {
      Writing(h) && AfterWrite(pipe, log, Run(pipe, log, h).value, id, a.registry, a.now).Some?
    }

    /** A transaction. An error that is not transient is not caught. */
    ghost function Transacted(h: seq<Action>, a: Attempt): seq<Action> {
      if Writable(h, a) then Then(h, WriteStep(id, a)) else Then(Then(h, WriteAborted(id)), Crash(id))
    }

    /** One attempt. */
    ghost function Attempted(h: seq<Action>, a: Attempt): seq<Action> { Transacted(Meanwhile(h, a.others), a) }

    /** Attempts until the batch is durable; an exhausted budget is an exception too. */
    ghost function Writes(h: seq<Action>, attempts: seq<Attempt>): seq<Action>
      decreases |attempts|
    {
      if !Writing(h) then h
      else if attempts == [] then Then(h, Crash(id))
      else Writes(Attempted(h, attempts[0]), attempts[1..])
    }

    /** The commit, tried only once the batch is durable. */
    ghost function Committed(h: seq<Action>, others: seq<Action>, succeeds: bool): seq<Action> {
      if !Durable(h) then h else Then(Meanwhile(h, others), CommitStep(id, succeeds))
    }

    ghost function AfterTurn(h: seq<Action>, t: Turn): seq<Action> {
      Committed(Writes(Polled(h, t.others, t.offers), t.attempts), t.beforeCommit, t.commitSucceeds)
    }

    /** Turn after turn, as long as nothing escapes. */
    ghost function Loop(h: seq<Action>, turns: seq<Turn>): seq<Action> {
      if turns == [] then h
      else
        var before := Loop(h, Front(turns));
        if Idle(before) then AfterTurn(before, Last(turns)) else before
    }

    // ----- Unfolding -----

    lemma ThenTakes(h: seq<Action>, a: Action, s: State, s': State)
      requires Run(pipe, log, h) == Some(s) && Step(pipe, log, s, a) == Some(s')
      ensures Then(h, a) == h + [a] && Run(pipe, log, Then(h, a)) == Some(s')
    {
      RunSnoc(pipe, log, h, a);
    }

    lemma MeanwhileNext(h: seq<Action>, others: seq<Action>, n: nat)
      requires n < |others|
      ensures Meanwhile(h, others[..n + 1])
           == if FromOutside(others[n], id) then Then(Meanwhile(h, others[..n]), others[n])
              else Meanwhile(h, others[..n])
    {
      TakeNext(others, n);
      Snoc(others[..n], others[n]);
    }

    lemma LoopNext(h: seq<Action>, turns: seq<Turn>, n: nat)
      requires n < |turns|
      ensures var before := Loop(h, turns[..n]);
        Loop(h, turns[..n + 1]) == if Idle(before) then AfterTurn(before, turns[n]) else before
    {
      TakeNext(turns, n);
      Snoc(turns[..n], turns[n]);
    }

    /** Nothing follows the turn that raised. */
    lemma {:induction false} LoopStays(h: seq<Action>, turns: seq<Turn>, n: nat)
      requires n <= |turns| && !Idle(Loop(h, turns[..n]))
      ensures Loop(h, turns) == Loop(h, turns[..n])
      decreases |turns| - n
    {
      if n == |turns| {
        assert turns[..n] == turns;
      } else {
        LoopNext(h, turns, n);
        LoopStays(h, turns, n + 1);
      }
    }

    // ----- What every script leads to -----

    /** What has happened stays, and the whole is a run. */
    ghost predicate Continues(h: seq<Action>, h': seq<Action>) {
      h <= h' && (Possible(h) ==> Possible(h'))
    }

    lemma {:induction false} MeanwhileContinues(h: seq<Action>, others: seq<Action>)
      ensures Continues(h, Meanwhile(h, others))
    {
      if others == [] {
      } else {
        MeanwhileContinues(h, Front(others));
      }
    }

    lemma AttemptedContinues(h: seq<Action>, a: Attempt)
      ensures Continues(h, Attempted(h, a))
    {
      MeanwhileContinues(h, a.others);
    }

    lemma {:induction false} WritesContinue(h: seq<Action>, attempts: seq<Attempt>)
      ensures Continues(h, Writes(h, attempts))
      decreases |attempts|
    {
      if !Writing(h) || attempts == [] {
      } else {
        AttemptedContinues(h, attempts[0]);
        WritesContinue(Attempted(h, attempts[0]), attempts[1..]);
      }
    }

    lemma AfterTurnContinues(h: seq<Action>, t: Turn)
      ensures Continues(h, AfterTurn(h, t))
    {
      MeanwhileContinues(h, t.others);
      var polled := Polled(h, t.others, t.offers);
      WritesContinue(polled, t.attempts);
      MeanwhileContinues(Writes(polled, t.attempts), t.beforeCommit);
    }

    /** The loop's run continues the one it started from, whatever the script. */
    lemma {:induction false} LoopContinues(h: seq<Action>, turns: seq<Turn>)
      ensures Continues(h, Loop(h, turns))
    {
      if turns == [] {
      } else {
        LoopContinues(h, Front(turns));
        AfterTurnContinues(Loop(h, Front(turns)), Last(turns));
      }
    }

    // ----- Which registries are seen -----

    lemma {:induction false} MeanwhileUses(h: seq<Action>, others: seq<Action>, ids: Registry)
      requires AllUse(h, ids) && AllUse(others, ids)
      ensures AllUse(Meanwhile(h, others), ids)
    {
      if others == [] {
      } else {
        MeanwhileUses(h, Front(others), ids);
      }
    }

    lemma ThenUses(h: seq<Action>, a: Action, ids: Registry)
      requires AllUse(h, ids) && UsesRegistry(a, ids)
      ensures AllUse(Then(h, a), ids)
    {
    }

    lemma AttemptedUses(h: seq<Action>, a: Attempt, ids: Registry)
      requires AllUse(h, ids) && AttemptSees(a, ids)
      ensures AllUse(Attempted(h, a), ids)
    {
      MeanwhileUses(h, a.others, ids);
      var before := Meanwhile(h, a.others);
      if Writable(before, a) {
        ThenUses(before, WriteStep(id, a), ids);
      } else {
        ThenUses(before, WriteAborted(id), ids);
        ThenUses(Then(before, WriteAborted(id)), Crash(id), ids);
      }
    }

    lemma {:induction false} WritesUse(h: seq<Action>, attempts: seq<Attempt>, ids: Registry)
      requires AllUse(h, ids) && forall a :: a in attempts ==> AttemptSees(a, ids)
      ensures AllUse(Writes(h, attempts), ids)
      decreases |attempts|
    {
      if !Writing(h) || attempts == [] {
      } else {
        AttemptedUses(h, attempts[0], ids);
        WritesUse(Attempted(h, attempts[0]), attempts[1..], ids);
      }
    }

    lemma AfterTurnUses(h: seq<Action>, t: Turn, ids: Registry)
      requires AllUse(h, ids) && TurnSees(t, ids)
      ensures AllUse(AfterTurn(h, t), ids)
    {
      MeanwhileUses(h, t.others, ids);
      var polled := Polled(h, t.others, t.offers);
      WritesUse(polled, t.attempts, ids);
      MeanwhileUses(Writes(polled, t.attempts), t.beforeCommit, ids);
    }

    /** If everyone sees one registry, so does every write of the run. */
    lemma {:induction false} LoopUses(h: seq<Action>, turns: seq<Turn>, ids: Registry)
      requires AllUse(h, ids) && forall t :: t in turns ==> TurnSees(t, ids)
      ensures AllUse(Loop(h, turns), ids)
    {
      if turns == [] {
      } else {
        LoopUses(h, Front(turns), ids);
        AfterTurnUses(Loop(h, Front(turns)), Last(turns), ids);
      }
    }

    // ----- When the loop raises -----

    /** The live worker, in this phase and after this many failures in a row. */
    ghost predicate At(h: seq<Action>, phase: Phase, failures: nat) {
      && Possible(h) && id in Run(pipe, log, h).value.workers
      && var ws := Run(pipe, log, h).value.workers[id];
         ws.Live? && ws.phase == phase && ws.failures == failures
    }

    lemma {:induction false} MeanwhileKeeps(h: seq<Action>, others: seq<Action>, phase: Phase, failures: nat)
      requires At(h, phase, failures)
      ensures At(Meanwhile(h, others), phase, failures)
    {
      if others == [] {
      } else {
        var before, a := Meanwhile(h, Front(others)), Last(others);
        MeanwhileKeeps(h, Front(others), phase, failures);
        if FromOutside(a, id) && Possible(before + [a]) {
          RunSnoc(pipe, log, before, a);
          OutsideStep(pipe, log, Run(pipe, log, before).value, a, id);
        }
      }
    }

    /** A batch is only ever refused by a fault: the typed pipeline's own statements never fail. */
    lemma AttemptedOutcome(h: seq<Action>, a: Attempt, slices: seq<Slice>, failures: nat)
      requires WellTyped(pipe) && At(h, Phase.Writing(slices), failures)
      ensures At(Attempted(h, a), if a.fault == NoFault then Phase.Durable else Phase.Writing(slices), failures)
    {
      MeanwhileKeeps(h, a.others, Phase.Writing(slices), failures);
      var before := Meanwhile(h, a.others);
      var s := Run(pipe, log, before).value;
      RunIsOrdered(pipe, log, before);
      assert WorkerOk(log, s.workers[id], s.high);
      NoLoss.DedupedWrites(pipe, a.registry, s.tables, RecordsOf(log, slices), a.now);
      AttemptStep(pipe, log, s, id, slices, a);
      ThenTakes(before, WriteStep(id, a), s, Step(pipe, log, s, WriteStep(id, a)).value);
    }

    lemma {:induction false} WritesOutcome(h: seq<Action>, attempts: seq<Attempt>, slices: seq<Slice>, failures: nat)
      requires WellTyped(pipe) && At(h, Phase.Writing(slices), failures)
      ensures if Succeeds(attempts) then At(Writes(h, attempts), Phase.Durable, failures)
              else Ended(Writes(h, attempts))
      decreases |attempts|
    {
      if attempts == [] {
        CrashEnds(h);
      } else {
        var next := Attempted(h, attempts[0]);
        AttemptedOutcome(h, attempts[0], slices, failures);
        SucceedsNext(attempts);
        if attempts[0].fault != NoFault {
          WritesOutcome(next, attempts[1..], slices, failures);
        }
      }
    }

    lemma WritesEnd(h: seq<Action>, attempts: seq<Attempt>)
      requires WellTyped(pipe) && Writing(h)
      ensures Ended(Writes(h, attempts)) <==> !Succeeds(attempts)
    {
      var ws := Run(pipe, log, h).value.workers[id];
      WritesOutcome(h, attempts, ws.phase.slices, ws.failures);
    }

    lemma CrashEnds(h: seq<Action>)
      requires Possible(h) && id in Run(pipe, log, h).value.workers
      ensures Ended(Then(h, Crash(id)))
    {
      var s := Run(pipe, log, h).value;
      ThenTakes(h, Crash(id), s, SetWorker(s, id, Stopped));
    }

    lemma CommittedOutcome(h: seq<Action>, others: seq<Action>, succeeds: bool, failures: nat)
      requires At(h, Phase.Durable, failures)
      ensures var h' := Committed(h, others, succeeds);
        if !succeeds && failures + 1 >= MAX_CONSECUTIVE_COMMIT_FAILURES then Ended(h')
        else At(h', Phase.Idle, if succeeds then 0 else failures + 1)
    {
      MeanwhileKeeps(h, others, Phase.Durable, failures);
      var before := Meanwhile(h, others);
      var s := Run(pipe, log, before).value;
      ThenTakes(before, CommitStep(id, succeeds), s, Step(pipe, log, s, CommitStep(id, succeeds)).value);
    }

    lemma PolledOutcome(h: seq<Action>, t: Turn, failures: nat)
      requires At(h, Phase.Idle, failures)
      ensures var h' := Polled(h, t.others, t.offers);
        At(h', Phase.Idle, failures) || exists slices :: At(h', Phase.Writing(slices), failures)
    {
      MeanwhileKeeps(h, t.others, Phase.Idle, failures);
      var before := Meanwhile(h, t.others);
      var s := Run(pipe, log, before).value;
      var slices := Offered(log, s.workers[id].position, t.offers);
      if slices != [] {
        OfferedFits(log, s.workers[id].position, t.offers);
        PollStep(pipe, log, s, id, slices);
        ThenTakes(before, Action.Poll(id, slices), s, Step(pipe, log, s, Action.Poll(id, slices)).value);
        assert At(Polled(h, t.others, t.offers), Phase.Writing(slices), failures);
      }
    }

    /** The turn polls records, and every attempt meets a fault or its commit is the last failure allowed. */
    ghost predicate Raises(h: seq<Action>, t: Turn, failures: nat) {
      && Writing(Polled(h, t.others, t.offers))
      && (!Succeeds(t.attempts) || (!t.commitSucceeds && failures + 1 >= MAX_CONSECUTIVE_COMMIT_FAILURES))
    }

    lemma TurnRaises(h: seq<Action>, t: Turn, failures: nat)
      requires WellTyped(pipe) && At(h, Phase.Idle, failures)
      ensures if Raises(h, t, failures) then Ended(AfterTurn(h, t)) else Idle(AfterTurn(h, t))
    {
      PolledOutcome(h, t, failures);
      var polled := Polled(h, t.others, t.offers);
      if slices :| At(polled, Phase.Writing(slices), failures) {
        WritesOutcome(polled, t.attempts, slices, failures);
        if Succeeds(t.attempts) {
          CommittedOutcome(Writes(polled, t.attempts), t.beforeCommit, t.commitSucceeds, failures);
        }
      }
    }

    /** The loop was still going after these turns and its next one raises, the failures of the run included. */
    ghost predicate RaisesAfter(h: seq<Action>, turns: seq<Turn>, n: nat)
      requires n < |turns|
    {
      Idle(Loop(h, turns[..n])) && Raises(Loop(h, turns[..n]), turns[n], Streak(Loop(h, turns[..n]), id))
    }

    ghost predicate SomeTurnRaises(h: seq<Action>, turns: seq<Turn>) {
      exists n :: 0 <= n < |turns| && RaisesAfter(h, turns, n)
    }

    /**
     The loop ends by an exception if and only if some turn polls records whose
     every attempt fails, or whose commit is the fifth failure in a row.
     */
    lemma {:induction false} LoopRaisesExactly(h: seq<Action>, turns: seq<Turn>)
      requires WellTyped(pipe) && Idle(h)
      ensures Idle(Loop(h, turns)) || Ended(Loop(h, turns))
      ensures Ended(Loop(h, turns)) <==> SomeTurnRaises(h, turns)
    {
      if turns == [] {
      } else {
        var before := Loop(h, Front(turns));
        LoopRaisesExactly(h, Front(turns));
        RaisesEarlier(h, turns);
        RaisesLast(h, turns);
        if Idle(before) {
          FiveFailuresStop(pipe, log, before, id);
          TurnRaises(before, Last(turns), Streak(before, id));
        }
      }
    }

    lemma RaisesLast(h: seq<Action>, turns: seq<Turn>)
      requires turns != []
      ensures RaisesAfter(h, turns, |turns| - 1)
         <==> Idle(Loop(h, Front(turns)))
              && Raises(Loop(h, Front(turns)), Last(turns), Streak(Loop(h, Front(turns)), id))
    {
      assert turns[..|turns| - 1] == Front(turns);
    }

    lemma RaisesBefore(h: seq<Action>, turns: seq<Turn>, n: nat)
      requires n + 1 < |turns|
      ensures RaisesAfter(h, Front(turns), n) <==> RaisesAfter(h, turns, n)
    {
      assert Front(turns)[..n] == turns[..n];
    }

    lemma RaisesEarlier(h: seq<Action>, turns: seq<Turn>)
      requires turns != []
      ensures SomeTurnRaises(h, turns) <==> SomeTurnRaises(h, Front(turns)) || RaisesAfter(h, turns, |turns| - 1)
    {
      forall n | 0 <= n < |turns| - 1 ensures RaisesAfter(h, Front(turns), n) <==> RaisesAfter(h, turns, n) {
        RaisesBefore(h, turns, n);
      }
    }
  }

  lemma SucceedsNext(attempts: seq<Attempt>)
    requires attempts != []
    ensures Succeeds(attempts) <==> attempts[0].fault == NoFault || Succeeds(attempts[1..])
  {
    if n :| 0 < n < |attempts| && attempts[n].fault == NoFault {
      assert attempts[1..][n - 1] == attempts[n];
    }
  }

  /** Some attempt meets no fault. */
  predicate Succeeds(attempts: seq<Attempt>) {
    exists n :: 0 <= n < |attempts| && attempts[n].fault == NoFault
  }

  ghost predicate AllUse(actions: seq<Action>, ids: Registry) {
    forall a :: a in actions ==> UsesRegistry(a, ids)
  }

  ghost predicate AttemptSees(a: Attempt, ids: Registry) {
    a.registry == ids && AllUse(a.others, ids)
  }

  ghost predicate TurnSees(t: Turn, ids: Registry) {
    AllUse(t.others, ids) && AllUse(t.beforeCommit, ids) && forall a :: a in t.attempts ==> AttemptSees(a, ids)
  }
}
