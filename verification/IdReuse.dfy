/**
 What no-loss needs of the registry, exactly: an id that is given to a second
 package makes the second package's statistics conflict with rows of the first.
 */
module IdReuse {
  import opened Wrappers
  import opened Sequences
  import opened Events
  import opened Batching
  import opened Repository
  import opened BatchWrite
  import opened Protocol
  import opened EffectivelyOnce
  import opened NoLoss

  /** With these bindings, every pipeline on every log keeps what it commits, in every run. */
  ghost predicate NeverLoses(world: set<(string, int)>) {
    forall pipe: Pipeline, log: Log, actions: seq<Action> ::
      Produced(pipe, log) && Bindings(actions) <= world ==> NothingLost(pipe, log, actions)
  }

  // ----- Two packages, one id, one moment -----

  function Figures(name: string, installs: int): Event {
    AppStats(name, 0, Some(installs), None, None, None, None, None, None)
  }

  /** A pipeline that reads two payloads: figures of `a`, and figures of `b`, crawled at the same time. */
  function TwoApps(a: string, b: string): Pipeline {
    Pipeline(AppStatsKind, (v: Option<seq<Byte>>) =>
      if v == Some([0]) then Ok(Figures(a, 1)) else if v == Some([1]) then Ok(Figures(b, 2)) else Err("unreadable"))
  }

  function Message(o: nat, payload: Byte): Record { Record("app-stats", 0, o, None, Some([payload])) }

  function TwoMessages(): Log { Log("app-stats", [[Message(0, 0), Message(1, 1)]]) }

  /** Each of the two is polled, written and committed on its own. */
  function Turn(o: nat, ids: Registry): seq<Action> {
    [Action.Poll(0, [Slice(0, o, o + 1)]), WriteCommitted(0, ids, 0), CommitOk(0)]
  }

  function Reuse(a: string, b: string, id: int): seq<Action> {
    [Start(0), Assign(0, {0})] + Turn(0, map[a := id]) + Turn(1, map[b := id])
  }

  // ----- One record at a time -----

  lemma One<T>(x: T)
    ensures Front([x]) == [] && Last([x]) == x
  {
  }

  lemma OneDecoded(decode: Decoder, r: Record)
    requires decode(r.value).Ok?
    ensures Accepted(decode, [r]) == [DecodedRecord(r, decode(r.value).value)] && Undecodable(decode, [r]) == []
  {
    One(r);
    assert Accepted(decode, []) == [] && Undecodable(decode, []) == [];
  }

  lemma OneBound(ids: Registry, d: DecodedRecord)
    requires d.event.packageName in ids
    ensures Bound(ids, [d]) == [BoundRecord(d.source, d.event, ids[d.event.packageName])] && Unknown(ids, [d]) == []
  {
    One(d);
    assert Bound(ids, []) == [] && Unknown(ids, []) == [];
  }

  lemma OneUpserted(kind: Kind, table: Table, b: BoundRecord, now: Time)
    ensures Dedupe([b]) == [b]
    ensures Upsert(kind, table, [b], now) == Ok(WriteRow(kind, Repository.Written(table, []), b, now))
  {
    One(b);
    assert Dedupe([]) == [];
    assert Statement(kind, table, [], now) == Ok(Repository.Written(table, []));
  }

  lemma OneRecordBatch(pipe: Pipeline, ids: Registry, t: Tables, r: Record, now: Time)
    requires FateOf(pipe, ids, r).Stored?
    ensures WriteBatch(pipe, ids, t, [r], now)
         == Ok(Tables(WriteRow(pipe.kind, Repository.Written(t.rows, []), FateOf(pipe, ids, r).row, now).table, t.dead))
  {
    var b := FateOf(pipe, ids, r).row;
    OneDecoded(pipe.decode, r);
    OneBound(ids, DecodedRecord(r, b.event));
    OneUpserted(pipe.kind, t.rows, b, now);
  }

  // ----- The run -----

  /** Worker 0 is idle, and everything below `n` is written and committed. */
  function Reached(t: Tables, n: nat): State {
    State(t, [n], [n], map[0 := Live(map[0 := n], Idle, 0)])
  }

  /** Worker 0 has polled the record at `o` and not written it yet. */
  function Polled(t: Tables, o: nat): State {
    State(t, [o], [o], map[0 := Live(map[0 := o + 1], Writing([Slice(0, o, o + 1)]), 0)])
  }

  function Unconfirmed(t: Tables, o: nat): State {
    State(t, [o], [o + 1], map[0 := Live(map[0 := o + 1], Durable, 0)])
  }

  lemma OneSlice(o: nat)
    requires o < 2
    ensures BatchOf(TwoMessages(), [Slice(0, o, o + 1)])
    ensures RecordsOf(TwoMessages(), [Slice(0, o, o + 1)]) == [TwoMessages().parts[0][o]]
    ensures Advance(map[0 := o], [Slice(0, o, o + 1)]) == map[0 := o + 1]
    ensures Raise([o], [Slice(0, o, o + 1)]) == [o + 1]
  {
    One(Slice(0, o, o + 1));
    assert Advance(map[0 := o], []) == map[0 := o];
    assert Raise([o], []) == [o];
    assert RecordsOf(TwoMessages(), []) == [];
  }

  lemma CanPollOne(log: Log, s: State, w: int, slice: Slice)
    requires BatchOf(log, [slice]) && IsIdle(s, w)
    requires slice.part in s.workers[w].position && slice.lo == s.workers[w].position[slice.part]
    ensures CanPoll(log, s, w, [slice])
  {
  }

  lemma NowPolled(t: Tables, o: nat)
    ensures SetWorker(Reached(t, o), 0, Live(map[0 := o + 1], Writing([Slice(0, o, o + 1)]), 0)) == Polled(t, o)
  {
  }

  lemma PollOne(pipe: Pipeline, t: Tables, o: nat)
    requires o < 2
    ensures Step(pipe, TwoMessages(), Reached(t, o), Action.Poll(0, [Slice(0, o, o + 1)])) == Some(Polled(t, o))
  {
    OneSlice(o);
    CanPollOne(TwoMessages(), Reached(t, o), 0, Slice(0, o, o + 1));
    PollStep(pipe, TwoMessages(), Reached(t, o), 0, [Slice(0, o, o + 1)]);
    NowPolled(t, o);
  }

  lemma AfterOne(pipe: Pipeline, t: Tables, o: nat, ids: Registry)
    requires o < 2 && FateOf(pipe, ids, TwoMessages().parts[0][o]).Stored?
    ensures AfterWrite(pipe, TwoMessages(), Polled(t, o), 0, ids, 0)
         == Some(Polled(t, o).(
                  tables := AfterRow(pipe, t, FateOf(pipe, ids, TwoMessages().parts[0][o]).row), high := [o + 1]))
  {
    OneSlice(o);
    OneRecordBatch(pipe, ids, t, TwoMessages().parts[0][o], 0);
  }

  lemma NowUnconfirmed(t: Tables, t': Tables, o: nat)
    ensures SetWorker(Polled(t, o).(tables := t', high := [o + 1]), 0, Polled(t, o).workers[0].(phase := Durable))
         == Unconfirmed(t', o)
  {
  }

  lemma WriteOneStep(pipe: Pipeline, t: Tables, o: nat, ids: Registry, t': Tables)
    requires AfterWrite(pipe, TwoMessages(), Polled(t, o), 0, ids, 0)
          == Some(Polled(t, o).(tables := t', high := [o + 1]))
    ensures Step(pipe, TwoMessages(), Polled(t, o), WriteCommitted(0, ids, 0)) == Some(Unconfirmed(t', o))
  {
    WriteCommittedStep(pipe, TwoMessages(), Polled(t, o), 0, ids, 0, Polled(t, o).(tables := t', high := [o + 1]));
    NowUnconfirmed(t, t', o);
  }

  lemma CommitStep(pipe: Pipeline, t: Tables, o: nat)
    ensures Step(pipe, TwoMessages(), Unconfirmed(t, o), CommitOk(0)) == Some(Reached(t, o + 1))
  {
    var s := Unconfirmed(t, o);
    assert seq(|s.committed|, p requires 0 <= p < |s.committed| =>
                 if p in s.workers[0].position then s.workers[0].position[p] else s.committed[p]) == [o + 1];
    assert SetWorker(s, 0, Live(map[0 := o + 1], Idle, 0)).(committed := [o + 1]) == Reached(t, o + 1);
  }

  function AfterRow(pipe: Pipeline, t: Tables, row: BoundRecord): Tables {
    Tables(WriteRow(pipe.kind, Repository.Written(t.rows, []), row, 0).table, t.dead)
  }

  lemma TurnRuns(pipe: Pipeline, history: seq<Action>, t: Tables, o: nat, ids: Registry)
    requires o < 2 && Run(pipe, TwoMessages(), history) == Some(Reached(t, o))
    requires FateOf(pipe, ids, TwoMessages().parts[0][o]).Stored?
    ensures Run(pipe, TwoMessages(), history + Turn(o, ids))
         == Some(Reached(AfterRow(pipe, t, FateOf(pipe, ids, TwoMessages().parts[0][o]).row), o + 1))
  {
    var log, poll, write := TwoMessages(), Action.Poll(0, [Slice(0, o, o + 1)]), WriteCommitted(0, ids, 0);
    PollOne(pipe, t, o);
    var t' := AfterRow(pipe, t, FateOf(pipe, ids, log.parts[0][o]).row);
    AfterOne(pipe, t, o, ids);
    WriteOneStep(pipe, t, o, ids, t');
    CommitStep(pipe, t', o);
    ThreeSteps(pipe, log, history, poll, write, CommitOk(0),
               Reached(t, o), Polled(t, o), Unconfirmed(t', o), Reached(t', o + 1));
  }

  /** Both messages are committed, and the table only has the row of the first. */
  lemma ReuseRuns(a: string, b: string, id: int)
    ensures var first := BoundRecord(Message(0, 0), Figures(a, 1), id);
      Run(TwoApps(a, b), TwoMessages(), Reuse(a, b, id))
      == Some(Reached(Tables(map[AppStatsRow(id, 0) := Row(first.Columns(), 0, None)], map[]), 2))
  {
    var pipe, log := TwoApps(a, b), TwoMessages();
    var first, second := BoundRecord(Message(0, 0), Figures(a, 1), id), BoundRecord(Message(1, 1), Figures(b, 2), id);
    assert FateOf(pipe, map[a := id], log.parts[0][0]) == Stored(first);
    assert FateOf(pipe, map[b := id], log.parts[0][1]) == Stored(second);
    var started := [Start(0), Assign(0, {0})];
    Started(pipe);
    TurnRuns(pipe, started, Tables(map[], map[]), 0, map[a := id]);
    var t := AfterRow(pipe, Tables(map[], map[]), first);
    assert t == Tables(map[AppStatsRow(id, 0) := Row(first.Columns(), 0, None)], map[]);
    TurnRuns(pipe, started + Turn(0, map[a := id]), t, 1, map[b := id]);
    assert AfterRow(pipe, t, second) == t;
  }

  lemma Started(pipe: Pipeline)
    ensures Run(pipe, TwoMessages(), [Start(0), Assign(0, {0})]) == Some(Reached(Tables(map[], map[]), 0))
  {
    var log := TwoMessages();
    assert Initial(log) == State(Tables(map[], map[]), [0], [0], map[]);
    RunSnoc(pipe, log, [], Start(0));
    assert [] + [Start(0)] == [Start(0)];
    var s := State(Tables(map[], map[]), [0], [0], map[0 := Live(map[], Idle, 0)]);
    assert Run(pipe, log, [Start(0)]) == Some(s);
    RunSnoc(pipe, log, [Start(0)], Assign(0, {0}));
    assert [Start(0)] + [Assign(0, {0})] == [Start(0), Assign(0, {0})];
    var parts: set<nat> := {0};
    assert (map p | p in parts && p < |s.committed| :: s.committed[p]) == map[0 := 0];
    assert SetWorker(s, 0, Live(map[0 := 0], Idle, 0)) == Reached(Tables(map[], map[]), 0);
  }

  // ----- The theorem -----

  lemma BindingsSnoc(actions: seq<Action>, a: Action)
    ensures Bindings(actions + [a])
         == Bindings(actions) + (if a.WriteCommitted? || a.WriteInDoubt? then a.ids.Items else {})
  {
    Snoc(actions, a);
  }

  lemma TurnBindings(actions: seq<Action>, o: nat, name: string, id: int)
    ensures Bindings(actions + Turn(o, map[name := id])) == Bindings(actions) + {(name, id)}
  {
    var poll, write := Action.Poll(0, [Slice(0, o, o + 1)]), WriteCommitted(0, map[name := id], 0);
    BindingsSnoc(actions, poll);
    BindingsSnoc(actions + [poll], write);
    BindingsSnoc(actions + [poll] + [write], CommitOk(0));
    assert actions + Turn(o, map[name := id]) == actions + [poll] + [write] + [CommitOk(0)];
    assert (name, id) in map[name := id].Items;
    forall x | x in map[name := id].Items ensures x == (name, id) {}
  }

  lemma ReuseBindings(a: string, b: string, id: int)
    ensures Bindings(Reuse(a, b, id)) == {(a, id), (b, id)}
  {
    BindingsSnoc([], Start(0));
    BindingsSnoc([] + [Start(0)], Assign(0, {0}));
    assert [] + [Start(0)] + [Assign(0, {0})] == [Start(0), Assign(0, {0})];
    TurnBindings([Start(0), Assign(0, {0})], 0, a, id);
    TurnBindings([Start(0), Assign(0, {0})] + Turn(0, map[a := id]), 1, b, id);
  }

  lemma ReuseLoses(a: string, b: string, id: int)
    requires a != b
    ensures Produced(TwoApps(a, b), TwoMessages())
    ensures !NothingLost(TwoApps(a, b), TwoMessages(), Reuse(a, b, id))
  {
    ReuseRuns(a, b, id);
    var pipe, log := TwoApps(a, b), TwoMessages();
    var s := Run(pipe, log, Reuse(a, b, id)).value;
    var lost := log.parts[0][1];
    assert log.Has(0, 1) && 1 < s.committed[0];
    var world := Bindings(Reuse(a, b, id));
    forall k, p, o | k in s.tables.rows && RowFrom(pipe, log, world, k, s.tables.rows[k].columns, p, o)
      ensures pipe.decode(log.parts[p][o].value).value.ConflictKey() != Figures(b, 2).ConflictKey()
    {
    }
    assert !IsKept(pipe, log, world, s.tables, lost);
  }

  /** Nothing committed is ever lost, on any log, in any run with these bindings, if and only if no id has two names. */
  lemma NeverLosesExactly(world: set<(string, int)>)
    ensures NeverLoses(world) <==> OneName(world)
  {
    if OneName(world) {
      forall pipe: Pipeline, log: Log, actions: seq<Action> | Produced(pipe, log) && Bindings(actions) <= world
        ensures NothingLost(pipe, log, actions)
      {
        NothingCommittedIsLost(pipe, log, actions);
      }
    } else {
      var x, y :| x in world && y in world && x.1 == y.1 && x.0 != y.0;
      ReuseLoses(x.0, y.0, x.1);
      ReuseBindings(x.0, y.0, x.1);
    }
  }
}
