/**
 The storage consumer as a transition system: any number of workers poll, write
 batches and commit offsets, while transactions abort or commit unnoticed, commits
 fail, workers crash and restart, and partitions move between workers at any time,
 a slow former owner included (storage_consumer/runtime/worker.py).
 */
module Protocol {
  import opened Wrappers
  import opened Sequences
  import opened Events
  import opened Batching
  import opened BatchWrite

  const MAX_CONSECUTIVE_COMMIT_FAILURES: nat := 5

  // ----- The log -----

  /** A topic: every message it will ever hold, by partition and offset. */
  datatype Log = Log(topic: string, parts: seq<seq<Record>>) {
    predicate Has(p: int, o: int) {
      0 <= p < |parts| && 0 <= o < |parts[p]|
    }

    ghost predicate Valid() {
      forall p, o :: Has(p, o) ==> At(parts[p][o]) == Coordinates(topic, p, o)
    }
  }

  /** The records of one partition in one poll: offsets `lo` up to `hi`. */
  datatype Slice = Slice(part: nat, lo: nat, hi: nat)

  predicate SliceOf(log: Log, s: Slice) {
    s.part < |log.parts| && s.lo <= s.hi <= |log.parts[s.part]|
  }

  predicate DistinctParts(slices: seq<Slice>) {
    forall i, j :: 0 <= i < j < |slices| ==> slices[i].part != slices[j].part
  }

  predicate BatchOf(log: Log, slices: seq<Slice>) {
    DistinctParts(slices) && forall i :: 0 <= i < |slices| ==> SliceOf(log, slices[i])
  }

  /** The records of a poll, partition after partition. */
  function RecordsOf(log: Log, slices: seq<Slice>): seq<Record>
    requires BatchOf(log, slices)
  {
    if slices == [] then []
    else RecordsOf(log, Front(slices)) + log.parts[Last(slices).part][Last(slices).lo..Last(slices).hi]
  }

  // ----- State -----

  datatype Phase = Idle | Writing(slices: seq<Slice>) | Durable

  datatype WorkerState =
    | Live(position: map<nat, nat>, phase: Phase, failures: nat)
    | Stopped

  /** `high` records, per partition, the end of the highest batch ever written. */
  datatype State = State(tables: Tables, committed: seq<nat>, high: seq<nat>, workers: map<int, WorkerState>)

  datatype Action =
    | Start(w: int)
    | Assign(w: int, parts: set<nat>)
    | Poll(w: int, slices: seq<Slice>)
    | WriteCommitted(w: int, ids: Registry, now: Time)
    | WriteInDoubt(w: int, ids: Registry, now: Time)
    | WriteAborted(w: int)
    | CommitOk(w: int)
    | CommitFailed(w: int)
    | Crash(w: int)
    | LabelSentiment(k: RowKey, verdict: string)

  /** Every write resolves names with this registry. */
  predicate UsesRegistry(a: Action, ids: Registry) {
    (a.WriteCommitted? || a.WriteInDoubt?) ==> a.ids == ids
  }

  function Initial(log: Log): State {
    State(Tables(map[], map[]), seq(|log.parts|, _ => 0), seq(|log.parts|, _ => 0), map[])
  }

  function Raise(high: seq<nat>, slices: seq<Slice>): (r: seq<nat>)
    ensures |r| == |high|
  {
    if slices == [] then high
    else
      var before, s := Raise(high, Front(slices)), Last(slices);
      if s.part < |before| then before[s.part := Max(before[s.part], s.hi)] else before
  }

  function Advance(position: map<nat, nat>, slices: seq<Slice>): map<nat, nat> {
    if slices == [] then position else Advance(position, Front(slices))[Last(slices).part := Last(slices).hi]
  }

  predicate IsIdle(s: State, w: int) {
    w in s.workers && s.workers[w].Live? && s.workers[w].phase.Idle?
  }

  predicate IsWriting(s: State, w: int) {
    w in s.workers && s.workers[w].Live? && s.workers[w].phase.Writing?
  }

  predicate IsDurable(s: State, w: int) {
    w in s.workers && s.workers[w].Live? && s.workers[w].phase.Durable?
  }

  predicate CanPoll(log: Log, s: State, w: int, slices: seq<Slice>) {
    && IsIdle(s, w) && BatchOf(log, slices) && slices != []
    && forall i :: 0 <= i < |slices| ==>
         slices[i].part in s.workers[w].position && slices[i].lo == s.workers[w].position[slices[i].part]
  }

  /** The tables after worker `w`'s pending batch has been written. */
  function AfterWrite(pipe: Pipeline, log: Log, s: State, w: int, ids: Registry, now: Time): Option<State>
    requires IsWriting(s, w)
  {
    var slices := s.workers[w].phase.slices;
    if !BatchOf(log, slices) then None
    else
      match WriteBatch(pipe, ids, s.tables, RecordsOf(log, slices), now)
      case Err(_) => None
      case Ok(t) => Some(s.(tables := t, high := Raise(s.high, slices)))
  }

  function SetWorker(s: State, w: int, ws: WorkerState): State {
    s.(workers := s.workers[w := ws])
  }

  /** One step, or `None` when the action is not possible in this state. */
  function Step(pipe: Pipeline, log: Log, s: State, a: Action): Option<State> {
    match a
    case Start(w) =>
      if w in s.workers && s.workers[w].Live? then None else Some(SetWorker(s, w, Live(map[], Idle, 0)))
    case Assign(w, parts) =>
      if !IsIdle(s, w) then None
      else Some(SetWorker(s, w, s.workers[w].(position := map p | p in parts && p < |s.committed| :: s.committed[p])))
    case Poll(w, slices) =>
      if !CanPoll(log, s, w, slices) then None
      else Some(SetWorker(s, w, s.workers[w].(
             position := Advance(s.workers[w].position, slices), phase := Writing(slices))))
    case WriteCommitted(w, ids, now) =>
      if !IsWriting(s, w) then None
      else
        (match AfterWrite(pipe, log, s, w, ids, now)
         case None => None
         case Some(s') => Some(SetWorker(s', w, s.workers[w].(phase := Durable))))
    case WriteInDoubt(w, ids, now) =>
      if !IsWriting(s, w) then None else AfterWrite(pipe, log, s, w, ids, now)
    case WriteAborted(w) =>
      if IsWriting(s, w) then Some(s) else None
    case CommitOk(w) =>
      if !IsDurable(s, w) then None
      else
        var position := s.workers[w].position;
        Some(SetWorker(s, w, s.workers[w].(phase := Idle, failures := 0)).(
          committed := seq(|s.committed|, p requires 0 <= p < |s.committed| =>
                             if p in position then position[p] else s.committed[p])))
    case CommitFailed(w) =>
      if !IsDurable(s, w) then None
      else
        var failures := s.workers[w].failures + 1;
        Some(SetWorker(s, w, if failures >= MAX_CONSECUTIVE_COMMIT_FAILURES then Stopped
                             else s.workers[w].(phase := Idle, failures := failures)))
    case Crash(w) =>
      if w in s.workers then Some(SetWorker(s, w, Stopped)) else None
    case LabelSentiment(k, verdict) =>
      if k !in s.tables.rows then None
      else Some(s.(tables := s.tables.(rows := s.tables.rows[k := s.tables.rows[k].(sentiment := Some(verdict))])))
  }

  function Run(pipe: Pipeline, log: Log, actions: seq<Action>): Option<State> {
    if actions == [] then Some(Initial(log))
    else
      match Run(pipe, log, Front(actions))
      case None => None
      case Some(s) => Step(pipe, log, s, Last(actions))
  }

  lemma RunSnoc(pipe: Pipeline, log: Log, history: seq<Action>, a: Action)
    requires Run(pipe, log, history).Some?
    ensures Run(pipe, log, history + [a]) == Step(pipe, log, Run(pipe, log, history).value, a)
  {
    Snoc(history, a);
  }

  lemma WriteCommittedStep(pipe: Pipeline, log: Log, s: State, w: int, ids: Registry, now: Time, s': State)
    requires IsWriting(s, w) && AfterWrite(pipe, log, s, w, ids, now) == Some(s')
    ensures Step(pipe, log, s, WriteCommitted(w, ids, now)) == Some(SetWorker(s', w, s.workers[w].(phase := Durable)))
  {
  }

  lemma PollStep(pipe: Pipeline, log: Log, s: State, w: int, slices: seq<Slice>)
    requires CanPoll(log, s, w, slices)
    ensures Step(pipe, log, s, Action.Poll(w, slices))
         == Some(SetWorker(s, w, Live(Advance(s.workers[w].position, slices), Writing(slices), s.workers[w].failures)))
  {
  }

  lemma ThreeSteps(pipe: Pipeline, log: Log, history: seq<Action>, a: Action, b: Action, c: Action,
                   s0: State, s1: State, s2: State, s3: State)
    requires Run(pipe, log, history) == Some(s0) && Step(pipe, log, s0, a) == Some(s1)
    requires Step(pipe, log, s1, b) == Some(s2) && Step(pipe, log, s2, c) == Some(s3)
    ensures Run(pipe, log, history + [a, b, c]) == Some(s3)
  {
    RunSnoc(pipe, log, history, a);
    RunSnoc(pipe, log, history + [a], b);
    RunSnoc(pipe, log, history + [a] + [b], c);
    assert history + [a, b, c] == history + [a] + [b] + [c];
  }

  // ----- Offsets never run ahead of writes -----

  predicate Below(position: map<nat, nat>, high: seq<nat>) {
    forall p :: p in position ==> p < |high| && position[p] <= high[p]
  }

  predicate StartsBelow(slices: seq<Slice>, high: seq<nat>) {
    forall i :: 0 <= i < |slices| ==> slices[i].part < |high| && slices[i].lo <= high[slices[i].part]
  }

  ghost predicate WorkerOk(log: Log, ws: WorkerState, high: seq<nat>) {
    ws.Live? ==>
      if ws.phase.Writing? then
        && BatchOf(log, ws.phase.slices)
        && StartsBelow(ws.phase.slices, high)
        && Below(ws.position, Raise(high, ws.phase.slices))
      else Below(ws.position, high)
  }

  predicate HighInLog(log: Log, high: seq<nat>) {
    |high| == |log.parts| && forall p :: 0 <= p < |high| ==> high[p] <= |log.parts[p]|
  }

  ghost predicate Ordered(log: Log, s: State) {
    && HighInLog(log, s.high)
    && |s.committed| == |s.high|
    && (forall p :: 0 <= p < |s.high| ==> s.committed[p] <= s.high[p])
    && (forall w :: w in s.workers ==> WorkerOk(log, s.workers[w], s.high))
  }

  predicate Rises(low: seq<nat>, high: seq<nat>) {
    |low| == |high| && forall p :: 0 <= p < |low| ==> low[p] <= high[p]
  }

  lemma {:induction false} RaiseMeaning(high: seq<nat>, slices: seq<Slice>)
    requires DistinctParts(slices)
    ensures Rises(high, Raise(high, slices))
    ensures forall i :: 0 <= i < |slices| && slices[i].part < |high| ==>
      Raise(high, slices)[slices[i].part] == Max(high[slices[i].part], slices[i].hi)
    ensures forall p :: 0 <= p < |high| && (forall i :: 0 <= i < |slices| ==> slices[i].part != p) ==>
      Raise(high, slices)[p] == high[p]
  {
    if slices == [] {
    } else {
      RaiseMeaning(high, Front(slices));
      assert slices == Front(slices) + [Last(slices)];
    }
  }

  lemma {:induction false} RaiseRises(low: seq<nat>, high: seq<nat>, slices: seq<Slice>)
    requires Rises(low, high)
    ensures Rises(Raise(low, slices), Raise(high, slices))
  {
    if slices == [] {
    } else {
      RaiseRises(low, high, Front(slices));
    }
  }

  lemma {:induction false} AdvanceBelow(position: map<nat, nat>, slices: seq<Slice>, high: seq<nat>)
    requires Below(position, high) && StartsBelow(slices, high)
    ensures Below(Advance(position, slices), Raise(high, slices))
  {
    if slices == [] {
    } else {
      AdvanceBelow(position, Front(slices), high);
    }
  }

  lemma {:induction false} HighStaysInLog(log: Log, high: seq<nat>, slices: seq<Slice>)
    requires HighInLog(log, high) && BatchOf(log, slices)
    ensures HighInLog(log, Raise(high, slices))
  {
    RaiseMeaning(high, slices);
    forall p | 0 <= p < |high| ensures Raise(high, slices)[p] <= |log.parts[p]| {
      if i :| 0 <= i < |slices| && slices[i].part == p {
        assert SliceOf(log, slices[i]);
        assert Raise(high, slices)[slices[i].part] == Max(high[slices[i].part], slices[i].hi);
      }
    }
  }

  lemma WorkerStaysOk(log: Log, ws: WorkerState, low: seq<nat>, high: seq<nat>)
    requires WorkerOk(log, ws, low) && Rises(low, high)
    ensures WorkerOk(log, ws, high)
  {
    if ws.Live? && ws.phase.Writing? { RaiseRises(low, high, ws.phase.slices); }
  }

  lemma WriteKeepsOrder(pipe: Pipeline, log: Log, s: State, w: int, ids: Registry, now: Time)
    requires Ordered(log, s) && IsWriting(s, w) && AfterWrite(pipe, log, s, w, ids, now).Some?
    ensures Ordered(log, AfterWrite(pipe, log, s, w, ids, now).value)
    ensures Below(s.workers[w].position, AfterWrite(pipe, log, s, w, ids, now).value.high)
  {
    var slices := s.workers[w].phase.slices;
    var s' := AfterWrite(pipe, log, s, w, ids, now).value;
    assert WorkerOk(log, s.workers[w], s.high);
    RaiseMeaning(s.high, slices);
    HighStaysInLog(log, s.high, slices);
    forall v | v in s'.workers ensures WorkerOk(log, s'.workers[v], s'.high) {
      WorkerStaysOk(log, s.workers[v], s.high, s'.high);
    }
  }

  lemma SetWorkerOrdered(log: Log, s: State, w: int, ws: WorkerState)
    requires Ordered(log, s) && WorkerOk(log, ws, s.high)
    ensures Ordered(log, SetWorker(s, w, ws))
  {
  }

  /** Every step keeps committed offsets and idle positions at or below what has been written. */
  lemma StepKeepsOrder(pipe: Pipeline, log: Log, s: State, a: Action)
    requires Ordered(log, s) && Step(pipe, log, s, a).Some?
    ensures Ordered(log, Step(pipe, log, s, a).value)
    ensures Rises(s.high, Step(pipe, log, s, a).value.high)
  {
    match a
    case Poll(w, slices) =>
      var ws := s.workers[w];
      assert WorkerOk(log, ws, s.high);
      AdvanceBelow(ws.position, slices, s.high);
      SetWorkerOrdered(log, s, w, ws.(position := Advance(ws.position, slices), phase := Writing(slices)));
    case WriteCommitted(w, ids, now) =>
      WriteKeepsOrder(pipe, log, s, w, ids, now);
      RaiseMeaning(s.high, s.workers[w].phase.slices);
      SetWorkerOrdered(log, AfterWrite(pipe, log, s, w, ids, now).value, w, s.workers[w].(phase := Durable));
    case WriteInDoubt(w, ids, now) =>
      WriteKeepsOrder(pipe, log, s, w, ids, now);
      RaiseMeaning(s.high, s.workers[w].phase.slices);
    case CommitOk(w) =>
      assert WorkerOk(log, s.workers[w], s.high);
    case CommitFailed(w) =>
      assert WorkerOk(log, s.workers[w], s.high);
    case Assign(w, parts) =>
      SetWorkerOrdered(log, s, w, s.workers[w].(position := map p | p in parts && p < |s.committed| :: s.committed[p]));
    case _ =>
  }

  lemma {:induction false} RunIsOrdered(pipe: Pipeline, log: Log, actions: seq<Action>)
    requires Run(pipe, log, actions).Some?
    ensures Ordered(log, Run(pipe, log, actions).value)
  {
    if actions == [] {
    } else {
      RunIsOrdered(pipe, log, Front(actions));
      StepKeepsOrder(pipe, log, Run(pipe, log, Front(actions)).value, Last(actions));
    }
  }

  /** A successful commit publishes every position, and everything below them has been written. */
  lemma CommitPublishes(pipe: Pipeline, log: Log, actions: seq<Action>, w: int, p: nat)
    requires Run(pipe, log, actions).Some? && IsDurable(Run(pipe, log, actions).value, w)
    requires p in Run(pipe, log, actions).value.workers[w].position
    ensures var s, s' := Run(pipe, log, actions).value, Run(pipe, log, actions + [CommitOk(w)]);
      && s'.Some? && p < |s'.value.committed| == |s.high|
      && s'.value.committed[p] == s.workers[w].position[p] <= s.high[p]
  {
    RunIsOrdered(pipe, log, actions);
    assert WorkerOk(log, Run(pipe, log, actions).value.workers[w], Run(pipe, log, actions).value.high);
    Snoc(actions, CommitOk(w));
  }

  // ----- The commit-failure counter -----

  /** How many of worker `w`'s commits have failed in a row. */
  function Streak(actions: seq<Action>, w: int): nat {
    if actions == [] then 0
    else if Last(actions) == CommitFailed(w) then Streak(Front(actions), w) + 1
    else if Last(actions) == CommitOk(w) || Last(actions) == Start(w) then 0
    else Streak(Front(actions), w)
  }

  /** How one step moves the counter of a worker that is live after it. */
  lemma FailureStep(pipe: Pipeline, log: Log, s: State, a: Action, w: int)
    requires Step(pipe, log, s, a).Some?
    requires var ws := Step(pipe, log, s, a).value.workers; w in ws && ws[w].Live?
    ensures var failures := Step(pipe, log, s, a).value.workers[w].failures;
      if w in s.workers && s.workers[w].Live? then
        && a != Start(w)
        && (a == CommitFailed(w) ==> failures == s.workers[w].failures + 1 < MAX_CONSECUTIVE_COMMIT_FAILURES)
        && (a == CommitOk(w) ==> failures == 0)
        && (a != CommitFailed(w) && a != CommitOk(w) ==> failures == s.workers[w].failures)
      else a == Start(w) && failures == 0
  {
  }

  /** A live worker has never seen five consecutive commit failures. */
  lemma {:induction false} FiveFailuresStop(pipe: Pipeline, log: Log, actions: seq<Action>, w: int)
    requires Run(pipe, log, actions).Some?
    requires w in Run(pipe, log, actions).value.workers && Run(pipe, log, actions).value.workers[w].Live?
    ensures Run(pipe, log, actions).value.workers[w].failures == Streak(actions, w)
    ensures Streak(actions, w) < MAX_CONSECUTIVE_COMMIT_FAILURES
  {
    if actions == [] {
    } else {
      var s := Run(pipe, log, Front(actions)).value;
      FailureStep(pipe, log, s, Last(actions), w);
      if w in s.workers && s.workers[w].Live? {
        FiveFailuresStop(pipe, log, Front(actions), w);
      }
    }
  }
}
