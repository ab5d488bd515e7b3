/**
 One consumer process from start to stop, in a system that has been running for a
 while and goes on around it. The loop of `WorkerLoop` makes the run its script
 leads to, so it inherits what `EffectivelyOnce` and `NoLoss` prove.
 */
module ConsumerProcess {
  import opened Wrappers
  import opened Batching
  import opened Repository
  import opened BatchWrite
  import opened Protocol
  import opened WorkerTurns
  import opened WorkerLoop
  import EffectivelyOnce
  import NoLoss

  /** What a process that has stopped left behind. */
  datatype Leftover = Leftover(tables: Tables, committed: seq<nat>)

  /** Everything that has happened once worker `id` has started after `past` and lived through these turns. */
  ghost function Served(pipe: Pipeline, log: Log, id: int, past: seq<Action>, turns: seq<Turn>): seq<Action> {
    Process(pipe, log, id).Loop(past + [Start(id)], turns)
  }

  /** Worker `id` can start in this state. */
  predicate CanStart(s: State, id: int) {
    id in s.workers ==> s.workers[id].Stopped?
  }

  /** The tables are one in-order pass over some written prefix that covers every committed offset. */
  ghost predicate IsOnePass(pipe: Pipeline, ids: Registry, log: Log, left: Leftover, high: seq<nat>) {
    && HighInLog(log, high) && |left.committed| == |high|
    && (forall p :: 0 <= p < |high| ==> left.committed[p] <= high[p])
    && (forall k :: Contents(left.tables.rows, k)
                    == Contents(EffectivelyOnce.OnePass(pipe, ids, EffectivelyOnce.Written(log, high), 0).rows, k))
    && left.tables.dead == EffectivelyOnce.OnePass(pipe, ids, EffectivelyOnce.Written(log, high), 0).dead
  }

  /** The script's run of the protocol is possible, continues the past, and this is how it ends. */
  ghost predicate EndsAs(pipe: Pipeline, log: Log, id: int, past: seq<Action>, turns: seq<Turn>,
                         result: LoopResult, left: Leftover) {
    var end := Run(pipe, log, Served(pipe, log, id, past, turns));
    && past <= Served(pipe, log, id, past, turns)
    && end.Some? && left == Leftover(end.value.tables, end.value.committed)
    && (result == Raised <==> Process(pipe, log, id).Ended(Served(pipe, log, id, past, turns)))
  }

  /** Start a worker in the state some past has led to, and run its loop. */
  method Serve(pipe: Pipeline, log: Log, id: int, s: State, ghost past: seq<Action>, turns: seq<Turn>)
    returns (result: LoopResult, left: Leftover)
    requires Run(pipe, log, past) == Some(s) && CanStart(s, id)
    ensures EndsAs(pipe, log, id, past, turns, result, left)
  {
    var database := new Database(s.tables);
    var consumer := new Consumer(log, s.committed);
    var others := new Others(s.high, s.workers);
    var worker := new Worker(pipe, id, database, consumer, others, past);
    result := worker.RunLoop(turns);
    Process(pipe, log, id).LoopContinues(past + [Start(id)], turns);
    left := Leftover(database.tables, consumer.committed);
  }

  lemma ServedIsARun(pipe: Pipeline, log: Log, id: int, past: seq<Action>, turns: seq<Turn>)
    requires Run(pipe, log, past).Some? && CanStart(Run(pipe, log, past).value, id)
    ensures Run(pipe, log, Served(pipe, log, id, past, turns)).Some?
  {
    RunSnoc(pipe, log, past, Start(id));
    Process(pipe, log, id).LoopContinues(past + [Start(id)], turns);
  }

  /**
   Whatever attempts fail or commit unnoticed, whichever offset commits are rejected, whoever
   else acts, and however the loop ends, each message below the written offsets counts once.
   */
  lemma ServedOnce(pipe: Pipeline, log: Log, id: int, past: seq<Action>, turns: seq<Turn>, ids: Registry)
    requires EffectivelyOnce.Produced(pipe, log) && Injective(ids)
    requires Run(pipe, log, past).Some? && CanStart(Run(pipe, log, past).value, id)
    requires AllUse(past, ids) && forall t :: t in turns ==> TurnSees(t, ids)
    ensures var end := Run(pipe, log, Served(pipe, log, id, past, turns));
      end.Some? && IsOnePass(pipe, ids, log, Leftover(end.value.tables, end.value.committed), end.value.high)
  {
    var steps := Served(pipe, log, id, past, turns);
    ServedIsARun(pipe, log, id, past, turns);
    Process(pipe, log, id).LoopUses(past + [Start(id)], turns, ids);
    EffectivelyOnce.EffectivelyOnceTheorem(pipe, ids, log, steps, 0);
    RunIsOrdered(pipe, log, steps);
  }

  /** The same process while the registry changes from attempt to attempt: nothing committed is lost. */
  lemma ServedDurably(pipe: Pipeline, log: Log, id: int, past: seq<Action>, turns: seq<Turn>)
    requires EffectivelyOnce.Produced(pipe, log)
    requires Run(pipe, log, past).Some? && CanStart(Run(pipe, log, past).value, id)
    requires NoLoss.IdsHold(pipe, NoLoss.Bindings(Served(pipe, log, id, past, turns)))
    ensures Run(pipe, log, Served(pipe, log, id, past, turns)).Some?
    ensures NoLoss.NothingLost(pipe, log, Served(pipe, log, id, past, turns))
  {
    ServedIsARun(pipe, log, id, past, turns);
    NoLoss.NothingCommittedIsLost(pipe, log, Served(pipe, log, id, past, turns));
  }
}
