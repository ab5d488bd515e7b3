/**
 The poll / write / commit loop of storage_consumer/runtime/worker.py, over a
 database and a consumer that fail as a script says, among other workers that act
 as it says. Every effect is a step of `Protocol`, and the run they make up is the
 one `WorkerTurns` describes.
 */
module WorkerLoop {
  import opened Wrappers
  import opened Sequences
  import opened Events
  import opened Batching
  import opened Repository
  import ApplicationResolver
  import opened BatchWrite
  import opened Protocol
  import opened WorkerTurns

  datatype DbError = Transient | Fatal

  datatype BatchOutcome = BatchOutcome(
    records: nat, decoded: nat, deduplicated: nat, inserted: nat, updated: nat, skipped: nat, deadLettered: nat)

  datatype LoopResult = StopRequested | Raised

  /** Every record polled is accounted for. */
  predicate Accounted(o: BatchOutcome) {
    o.records == o.inserted + o.updated + o.skipped + o.deduplicated + o.deadLettered
  }

  /** The outcome counts what the attempt did, row by row. */
  predicate Reports(pipe: Pipeline, a: Attempt, rows: Table, records: seq<Record>, o: BatchOutcome) {
    var bound := BoundOf(pipe, a.registry, records);
    var write := Upsert(pipe.kind, rows, Dedupe(bound), a.now);
    && write.Ok?
    && o.inserted == Count(write.value.marks, Inserted)
    && o.updated == Count(write.value.marks, Updated)
    && o.skipped == Count(write.value.marks, Skipped)
    && o.decoded == |Accepted(pipe.decode, records)|
    && o.deduplicated + |Dedupe(bound)| == |bound|
    && o.deadLettered == |RejectedOf(pipe, a.registry, records)|
  }

  class Database {
    var tables: Tables

    constructor (tables: Tables)
      ensures this.tables == tables
    {
      this.tables := tables;
    }
  }

  class Consumer {
    const log: Log
    var position: map<nat, nat>
    var committed: seq<nat>

    constructor (log: Log, committed: seq<nat>)
      ensures this.log == log && position == map[] && this.committed == committed
    {
      this.log, this.committed := log, committed;
      position := map[];
    }

    /** `poll`: the next records of each offered partition, advancing the positions. */
    method Poll(offers: seq<(nat, nat)>) returns (slices: seq<Slice>)
      modifies this`position
      ensures slices == Offered(log, old(position), offers)
      ensures BatchOf(log, slices)
      ensures forall i :: 0 <= i < |slices| ==>
        slices[i].part in old(position) && slices[i].lo == old(position)[slices[i].part]
      ensures position == Advance(old(position), slices)
    {
      slices := [];
      for n := 0 to |offers|
        invariant slices == Offered(log, old(position), offers[..n])
        invariant position == Advance(old(position), slices)
      {
        var part, count := offers[n].0, offers[n].1;
        PollNext(log, old(position), offers, n, slices, position);
        if part in position && part < |log.parts| && Unpolled(slices, part) {
          var lo := position[part];
          if lo < |log.parts[part]| && count > 0 {
            var hi := Min(lo + count, |log.parts[part]|);
            slices := slices + [Slice(part, lo, hi)];
            position := position[part := hi];
          }
        }
      }
      assert offers[..|offers|] == offers;
      OfferedFits(log, old(position), offers);
    }

    /** `commit`: publish the positions of every assigned partition. */
    method Commit()
      modifies this`committed
      ensures |committed| == |old(committed)|
      ensures forall p :: 0 <= p < |committed| ==>
        committed[p] == if p in position then position[p] else old(committed)[p]
    {
      var current, before := position, committed;
      committed := seq(|before|, p requires 0 <= p < |before| => if p in current then current[p] else before[p]);
    }
  }

  /** What is not this worker's: the other workers, and how far anyone has written. */
  class Others {
    var high: seq<nat>
    var workers: map<int, WorkerState>

    constructor (high: seq<nat>, workers: map<int, WorkerState>)
      ensures this.high == high && this.workers == workers
    {
      this.high, this.workers := high, workers;
    }
  }

  class Worker {
    const pipe: Pipeline
    const id: int
    const database: Database
    const consumer: Consumer
    const others: Others
    var consecutiveCommitFailures: nat

    /** Where in its turn the loop is, and whether an exception has left it. */
    var phase: Phase
    var ended: bool

    /** Everything that has happened so far, to this worker and around it. */
    ghost var history: seq<Action>

    function World(): State
      reads this, database, consumer, others
    {
      State(database.tables, consumer.committed, others.high, others.workers[id := Self()])
    }

    function Self(): WorkerState
      reads this, consumer
    {
      if ended then Stopped else Live(consumer.position, phase, consecutiveCommitFailures)
    }

    /** The objects are in the state that the history leads to. */
    ghost predicate Valid()
      reads this, database, consumer, others
    {
      Run(pipe, consumer.log, history) == Some(World())
    }

    ghost function Me(): Process { Process(pipe, consumer.log, id) }

    constructor (pipe: Pipeline, id: int, database: Database, consumer: Consumer, others: Others,
                 ghost past: seq<Action>)
      requires Run(pipe, consumer.log, past)
            == Some(State(database.tables, consumer.committed, others.high, others.workers))
      requires id in others.workers ==> others.workers[id].Stopped?
      requires consumer.position == map[]
      ensures this.pipe == pipe && this.id == id
      ensures this.database == database && this.consumer == consumer && this.others == others
      ensures Valid() && !ended && phase == Idle && history == past + [Start(id)]
    {
      this.pipe, this.id, this.database, this.consumer, this.others := pipe, id, database, consumer, others;
      consecutiveCommitFailures, phase, ended := 0, Idle, false;
      history := past + [Start(id)];
      new;
      RunSnoc(pipe, consumer.log, past, Start(id));
    }

    /** A step has just been taken from state `s`. */
    ghost method Took(s: State, step: Action)
      requires Run(pipe, consumer.log, history) == Some(s) && Step(pipe, consumer.log, s, step) == Some(World())
      modifies this`history
      ensures Valid() && history == Me().Then(old(history), step)
    {
      Me().ThenTakes(history, step, s, World());
      history := history + [step];
    }

    // ----- What others do -----

    /** The objects take over a state that differs in what is not this worker's, or in its positions. */
    method Become(s: State)
      requires !ended && id in s.workers && s.workers[id].Live?
      requires s.workers[id].phase == phase && s.workers[id].failures == consecutiveCommitFailures
      modifies database, consumer, others
      ensures World() == s
    {
      database.tables, consumer.committed := s.tables, s.committed;
      consumer.position := s.workers[id].position;
      others.high, others.workers := s.high, s.workers;
    }

    /** Other workers and the labeller take their steps, and the group assigns partitions. */
    method OthersAct(steps: seq<Action>)
      requires Valid() && !ended
      modifies this`history, database, consumer, others
      ensures Valid() && history == Me().Meanwhile(old(history), steps)
    {
      for n := 0 to |steps|
        invariant Valid() && history == Me().Meanwhile(old(history), steps[..n])
      {
        Me().MeanwhileNext(old(history), steps, n);
        if FromOutside(steps[n], id) {
          RunSnoc(pipe, consumer.log, history, steps[n]);
          var next := Step(pipe, consumer.log, World(), steps[n]);
          if next.Some? {
            OutsideStep(pipe, consumer.log, World(), steps[n], id);
            Become(next.value);
            history := history + [steps[n]];
          }
        }
      }
      assert steps[..|steps|] == steps;
    }

    // ----- The turn -----

    /** The poll of one turn. */
    method PollBatch(steps: seq<Action>, offers: seq<(nat, nat)>)
      requires Valid() && !ended && phase == Idle
      modifies this`history, this`phase, database, consumer, others
      ensures Valid() && history == Me().Polled(old(history), steps, offers)
      ensures phase == Idle || (phase.Writing? && BatchOf(consumer.log, phase.slices))
    {
      OthersAct(steps);
      ghost var s := World();
      var slices := consumer.Poll(offers);
      if slices != [] {
        PollStep(pipe, consumer.log, s, id, slices);
        phase := Writing(slices);
        Overwrite(others.workers, id, s.workers[id], Self());
        Took(s, Action.Poll(id, slices));
      }
    }

    /** `_write_batch`: decode, bind, deduplicate and write, in one transaction. */
    method WriteBatch(records: seq<Record>, attempt: Attempt) returns (r: Result<BatchOutcome, DbError>)
      modifies database
      ensures var w := BatchWrite.WriteBatch(pipe, attempt.registry, old(database.tables), records, attempt.now);
        database.tables == if w.Ok? && attempt.fault != BeforeCommit then w.value else old(database.tables)
      ensures var w := BatchWrite.WriteBatch(pipe, attempt.registry, old(database.tables), records, attempt.now);
        && (r.Ok? <==> w.Ok? && attempt.fault == NoFault)
        && (r.Err? ==> r.error == if w.Ok? then Transient else Fatal)
      ensures r.Ok? ==> Accounted(r.value) && r.value.records == |records|
      ensures r.Ok? ==> Reports(pipe, attempt, old(database.tables.rows), records, r.value)
    {
      var decoded, undecodable := DecodeBatch(records, pipe.decode);
      var ids := ApplicationResolver.Lookup(attempt.registry, NamesOf(decoded));
      BatchNamesSuffice(attempt.registry, decoded, NamesOf(decoded));
      var bound, unknown := BindApplicationIds(decoded, ids);
      var rejected := undecodable + unknown;
      var dead := RecordDead(database.tables.dead, rejected);
      var rows := DedupeByKey(bound);
      DedupeKeepsWinners(bound);
      var write := Upsert(pipe.kind, database.tables.rows, rows, attempt.now);
      if write.Err? {
        return Err(Fatal);
      }
      UpsertMarks(pipe.kind, database.tables.rows, rows, attempt.now);
      if attempt.fault == BeforeCommit {
        return Err(Transient);
      }
      database.tables := Tables(write.value.table, dead);
      if attempt.fault == AfterCommit {
        return Err(Transient);
      }
      var outcome := OutcomeOf(|rows|, write.value.marks);
      CountsAddUp(write.value.marks);
      return Ok(BatchOutcome(|records|, |decoded|, |bound| - |rows|, outcome.inserted, outcome.updated,
                             outcome.skipped, |rejected|));
    }

    /** `_write_batch` as its retry wrapper sees it: what became of the tables, and what it raised. */
    method AttemptBatch(records: seq<Record>, attempt: Attempt) returns (error: Option<DbError>)
      modifies database
      ensures var w := BatchWrite.WriteBatch(pipe, attempt.registry, old(database.tables), records, attempt.now);
        && database.tables == (if w.Ok? && attempt.fault != BeforeCommit then w.value else old(database.tables))
        && error == if w.Err? then Some(Fatal) else if attempt.fault == NoFault then None else Some(Transient)
    {
      var r := WriteBatch(records, attempt);
      error := if r.Ok? then None else Some(r.error);
    }

    /** An exception leaves the loop. */
    method Escape()
      requires Valid() && !ended
      modifies this`history, this`ended
      ensures Valid() && ended && history == Me().Then(old(history), Crash(id))
    {
      ghost var s := World();
      ended := true;
      Overwrite(others.workers, id, s.workers[id], Self());
      Took(s, Crash(id));
    }

    /** One attempt in the protocol's terms: the step it is, unless the batch cannot be written at all. */
    method AttemptPending(attempt: Attempt) returns (error: Option<DbError>)
      requires !ended && phase.Writing? && BatchOf(consumer.log, phase.slices)
      modifies this`phase, database, others`high
      ensures error == Some(Fatal) ==>
        World() == old(World()) && AfterWrite(pipe, consumer.log, World(), id, attempt.registry, attempt.now).None?
      ensures error != Some(Fatal) ==>
        && AfterWrite(pipe, consumer.log, old(World()), id, attempt.registry, attempt.now).Some?
        && Step(pipe, consumer.log, old(World()), WriteStep(id, attempt)) == Some(World())
      ensures phase == Durable || phase == old(phase)
    {
      ghost var s := World();
      AttemptStep(pipe, consumer.log, s, id, phase.slices, attempt);
      error := AttemptBatch(RecordsOf(consumer.log, phase.slices), attempt);
      if error != Some(Fatal) && attempt.fault != BeforeCommit {
        others.high := Raise(others.high, phase.slices);
      }
      if error.None? {
        phase := Durable;
        Overwrite(others.workers, id, s.workers[id], Self());
      }
    }

    /** One transaction on the pending batch, as a step of the protocol. */
    method Transact(attempt: Attempt)
      requires Valid() && !ended && phase.Writing? && BatchOf(consumer.log, phase.slices)
      modifies this`history, this`phase, this`ended, database, others`high
      ensures Valid() && history == Me().Transacted(old(history), attempt)
      ensures !ended ==> phase == Durable || phase == old(phase)
    {
      ghost var s := World();
      var error := AttemptPending(attempt);
      if error == Some(Fatal) {
        Took(s, WriteAborted(id));
        Escape();
      } else {
        Took(s, WriteStep(id, attempt));
      }
    }

    /** One attempt to write the pending batch, whatever others do first. */
    method TryWrite(attempt: Attempt)
      requires Valid() && !ended && phase.Writing? && BatchOf(consumer.log, phase.slices)
      modifies this`history, this`phase, this`ended, database, consumer, others
      ensures Valid() && history == Me().Attempted(old(history), attempt)
      ensures !ended ==> phase == Durable || phase == old(phase)
    {
      OthersAct(attempt.others);
      Transact(attempt);
    }

    /** The loop of the retry decorator: the same records again until an attempt succeeds or the budget is spent. */
    method WithRetry(attempts: seq<Attempt>)
      requires Valid() && !ended && phase.Writing? && BatchOf(consumer.log, phase.slices)
      modifies this`history, this`phase, this`ended, database, consumer, others
      ensures Valid() && history == Me().Writes(old(history), attempts)
      ensures ended || phase == Durable
    {
      for n := 0 to |attempts|
        invariant Valid() && !ended && phase == old(phase)
        invariant Me().Writes(old(history), attempts) == Me().Writes(history, attempts[n..])
      {
        assert attempts[n..][1..] == attempts[n + 1..];
        TryWrite(attempts[n]);
        if ended || phase == Durable {
          return;
        }
      }
      Escape();
    }

    /** `_write_batch_with_retry`: the batch is durable afterwards unless every attempt met a fault. */
    method WriteBatchWithRetry(attempts: seq<Attempt>)
      requires Valid() && !ended && phase.Writing? && BatchOf(consumer.log, phase.slices)
      modifies this`history, this`phase, this`ended, database, consumer, others
      ensures Valid() && history == Me().Writes(old(history), attempts)
      ensures ended || phase == Durable
      ensures WellTyped(pipe) ==> (ended <==> !Succeeds(attempts))
    {
      if WellTyped(pipe) {
        Me().WritesEnd(history, attempts);
      }
      WithRetry(attempts);
    }

    /** The commit in the protocol's terms. */
    method Publish(succeeds: bool)
      requires !ended && phase == Durable
      modifies this`phase, this`ended, this`consecutiveCommitFailures, consumer`committed
      ensures Step(pipe, consumer.log, old(World()), CommitStep(id, succeeds)) == Some(World())
      ensures ended <==> !succeeds && old(consecutiveCommitFailures) + 1 >= MAX_CONSECUTIVE_COMMIT_FAILURES
      ensures consecutiveCommitFailures == if succeeds then 0 else old(consecutiveCommitFailures) + 1
      ensures phase == Idle
    {
      ghost var s := World();
      if succeeds {
        consumer.Commit();
        consecutiveCommitFailures := 0;
      } else {
        consecutiveCommitFailures := consecutiveCommitFailures + 1;
        ended := consecutiveCommitFailures >= MAX_CONSECUTIVE_COMMIT_FAILURES;
      }
      phase := Idle;
      CommitStepEffect(pipe, consumer.log, s, id, succeeds, consumer.committed);
      Overwrite(others.workers, id, s.workers[id], Self());
    }

    /** `_commit`: tolerate failures up to the limit. */
    method Commit(steps: seq<Action>, succeeds: bool)
      requires Valid() && !ended && phase == Durable
      modifies this`history, this`phase, this`ended, this`consecutiveCommitFailures, database, consumer, others
      ensures Valid() && history == Me().Committed(old(history), steps, succeeds)
      ensures ended <==> !succeeds && old(consecutiveCommitFailures) + 1 >= MAX_CONSECUTIVE_COMMIT_FAILURES
      ensures consecutiveCommitFailures == if succeeds then 0 else old(consecutiveCommitFailures) + 1
      ensures !ended ==> phase == Idle
    {
      OthersAct(steps);
      ghost var s := World();
      Publish(succeeds);
      Took(s, CommitStep(id, succeeds));
    }

    /** One turn of `run`: write the batch and only then commit; a batch that cannot be written ends the worker. */
    method RunTurn(turn: Turn)
      requires Valid() && !ended && phase == Idle
      modifies this`history, this`phase, this`ended, this`consecutiveCommitFailures, database, consumer, others
      ensures Valid() && history == Me().AfterTurn(old(history), turn)
      ensures ended || phase == Idle
    {
      PollBatch(turn.others, turn.offers);
      if phase == Idle {
        return;
      }
      WriteBatchWithRetry(turn.attempts);
      if !ended {
        Commit(turn.beforeCommit, turn.commitSucceeds);
      }
    }

    /** One turn, in terms of the loop that began at `start`. */
    method NextTurn(ghost start: seq<Action>, turns: seq<Turn>, n: nat)
      requires Valid() && !ended && phase == Idle
      requires n < |turns| && history == Me().Loop(start, turns[..n])
      modifies this`history, this`phase, this`ended, this`consecutiveCommitFailures, database, consumer, others
      ensures Valid() && history == if ended then Me().Loop(start, turns) else Me().Loop(start, turns[..n + 1])
      ensures ended || phase == Idle
    {
      Me().LoopNext(start, turns, n);
      RunTurn(turns[n]);
      if ended {
        Me().LoopStays(start, turns, n + 1);
      }
    }

    /** Turn after turn, until asked to stop or something raises. */
    method TakeTurns(turns: seq<Turn>)
      requires Valid() && !ended && phase == Idle
      modifies this`history, this`phase, this`ended, this`consecutiveCommitFailures, database, consumer, others
      ensures Valid() && history == Me().Loop(old(history), turns)
      ensures ended || phase == Idle
    {
      for n := 0 to |turns|
        invariant Valid() && !ended && phase == Idle
        invariant history == Me().Loop(old(history), turns[..n])
      {
        NextTurn(old(history), turns, n);
        if ended {
          return;
        }
      }
      assert turns[..|turns|] == turns;
    }

    /** `run`: what the turns lead to, and how it ends. */
    method RunLoop(turns: seq<Turn>) returns (result: LoopResult)
      requires Valid() && !ended && phase == Idle
      modifies this`history, this`phase, this`ended, this`consecutiveCommitFailures, database, consumer, others
      ensures Valid() && history == Me().Loop(old(history), turns)
      ensures result == Raised <==> ended
      ensures ended || phase == Idle
      ensures WellTyped(pipe) ==> (result == Raised <==> Me().SomeTurnRaises(old(history), turns))
    {
      if WellTyped(pipe) {
        Me().LoopRaisesExactly(history, turns);
      }
      TakeTurns(turns);
      result := if ended then Raised else StopRequested;
    }
  }

  /** Records, rows and dead letters balance for every batch that is written. */
  lemma BatchAccounting(pipe: Pipeline, ids: Registry, t: Tables, records: seq<Record>, now: Time)
    ensures var bound := BoundOf(pipe, ids, records);
      var write := Upsert(pipe.kind, t.rows, Dedupe(bound), now);
      write.Ok? ==>
        && |Dedupe(bound)| <= |bound|
        && |records| == Count(write.value.marks, Inserted) + Count(write.value.marks, Updated)
                        + Count(write.value.marks, Skipped) + (|bound| - |Dedupe(bound)|)
                        + |RejectedOf(pipe, ids, records)|
  {
    var bound := BoundOf(pipe, ids, records);
    RecordsPartition(pipe, ids, records);
    DedupeKeepsWinners(bound);
    UpsertMarks(pipe.kind, t.rows, Dedupe(bound), now);
    var write := Upsert(pipe.kind, t.rows, Dedupe(bound), now);
    if write.Ok? { CountsAddUp(write.value.marks); }
  }

  lemma UpsertMarks(kind: Kind, table: Table, rs: seq<BoundRecord>, now: Time)
    ensures Upsert(kind, table, rs, now).Ok? ==> |Upsert(kind, table, rs, now).value.marks| == |rs|
    decreases |rs|
  {
    if |rs| > PAGE_SIZE && Statement(kind, table, rs[..PAGE_SIZE], now).Ok? {
      UpsertMarks(kind, Statement(kind, table, rs[..PAGE_SIZE], now).value.table, rs[PAGE_SIZE..], now);
    }
  }
}
