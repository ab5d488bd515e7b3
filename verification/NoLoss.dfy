/**
 What survives even when the registry changes between batches: where ids keep
 their names, no message below a committed offset is ever lost, and no write
 touches the columns that belong to the first insert or to the sentiment job.
 */
module NoLoss {
  import opened Wrappers
  import opened Sequences
  import opened Events
  import opened Batching
  import opened Repository
  import opened BatchWrite
  import opened Protocol
  import opened EffectivelyOnce

  // ----- What the registries of a run have said -----

  /** Every name and the id it had, in any registry a write of the run used. */
  function Bindings(actions: seq<Action>): set<(string, int)> {
    if actions == [] then {}
    else
      Bindings(Front(actions))
      + (if Last(actions).WriteCommitted? || Last(actions).WriteInDoubt? then Last(actions).ids.Items else {})
  }

  /** No id stands for two names, even at different times. */
  ghost predicate OneName(world: set<(string, int)>) {
    forall x, y :: x in world && y in world && x.1 == y.1 ==> x.0 == y.0
  }

  /** Only app statistics are keyed by id, so only they need it. */
  ghost predicate IdsHold(pipe: Pipeline, world: set<(string, int)>) {
    pipe.kind == AppStatsKind ==> OneName(world)
  }

  // ----- What it means to be kept -----

  /** The row says exactly what the message at these coordinates says, under an id its package's name had. */
  predicate RowFrom(pipe: Pipeline, log: Log, world: set<(string, int)>, k: RowKey, columns: Columns, p: int, o: int) {
    && log.Has(p, o) && pipe.decode(log.parts[p][o].value).Ok?
    && var e := pipe.decode(log.parts[p][o].value).value;
       var b := BoundRecord(log.parts[p][o], e, columns.applicationId);
       (e.packageName, columns.applicationId) in world && b.RowKey() == k && b.Columns() == columns
  }

  ghost predicate RowFromLog(pipe: Pipeline, log: Log, world: set<(string, int)>, k: RowKey, columns: Columns) {
    exists p, o :: RowFrom(pipe, log, world, k, columns, p, o)
  }

  ghost predicate RowsFromLog(pipe: Pipeline, log: Log, world: set<(string, int)>, rows: Table) {
    forall k :: k in rows ==> RowFromLog(pipe, log, world, k, rows[k].columns)
  }

  /** A dead letter is that of some message of the log. */
  ghost predicate LetterFrom(log: Log, c: Coordinates, letter: DeadLetter) {
    exists p, o, reason :: log.Has(p, o) && At(log.parts[p][o]) == c
                           && letter == LetterOf(RejectedRecord(log.parts[p][o], reason))
  }

  ghost predicate LettersFromLog(log: Log, dead: DeadTable) {
    forall c :: c in dead ==> LetterFrom(log, c, dead[c])
  }

  /** The row at `k` is from the message at `p`, `o`, which has the event's conflict key and is no older. */
  predicate KeptAt(pipe: Pipeline, log: Log, world: set<(string, int)>, rows: Table, e: Event, k: RowKey,
                   p: int, o: int)
  {
    && k in rows && RowFrom(pipe, log, world, k, rows[k].columns, p, o)
    && pipe.decode(log.parts[p][o].value).value.ConflictKey() == e.ConflictKey()
    && rows[k].columns.ObservedAt() >= e.ObservedAt()
  }

  ghost predicate KeptInRows(pipe: Pipeline, log: Log, world: set<(string, int)>, rows: Table, e: Event) {
    exists k, p, o :: KeptAt(pipe, log, world, rows, e, k, p, o)
  }

  /** A message is kept as its own dead letter, or as a row of a message with its conflict key, at least as new. */
  ghost predicate IsKept(pipe: Pipeline, log: Log, world: set<(string, int)>, t: Tables, r: Record) {
    || (At(r) in t.dead && exists reason :: t.dead[At(r)] == LetterOf(RejectedRecord(r, reason)))
    || (pipe.decode(r.value).Ok? && KeptInRows(pipe, log, world, t.rows, pipe.decode(r.value).value))
  }

  // ----- Writing rows -----

  /** The record comes from the log, and its id is one its name had. */
  predicate BoundFromLog(pipe: Pipeline, log: Log, world: set<(string, int)>, b: BoundRecord) {
    && log.Has(b.source.partition, b.source.offset)
    && log.parts[b.source.partition][b.source.offset] == b.source
    && pipe.decode(b.source.value) == Ok(b.event)
    && (b.event.packageName, b.applicationId) in world
  }

  /** Where ids keep their names, one row means one conflict key; and only a review's time can change. */
  lemma SharedRow(pipe: Pipeline, log: Log, world: set<(string, int)>, columns: Columns, p: int, o: int, b: BoundRecord)
    requires Produced(pipe, log) && IdsHold(pipe, world) && BoundFromLog(pipe, log, world, b)
    requires RowFrom(pipe, log, world, b.RowKey(), columns, p, o)
    ensures pipe.decode(log.parts[p][o].value).value.ConflictKey() == b.event.ConflictKey()
    ensures pipe.kind != ReviewKind ==> columns.ObservedAt() == b.event.ObservedAt()
  {
  }

  /** Whatever is kept in `rows` is kept in `rows'`. */
  ghost predicate StillKept(pipe: Pipeline, log: Log, world: set<(string, int)>, rows: Table, rows': Table) {
    forall e :: KeptInRows(pipe, log, world, rows, e) ==> KeptInRows(pipe, log, world, rows', e)
  }

  lemma WriteRowKeeps(pipe: Pipeline, log: Log, world: set<(string, int)>, w: Repository.Written, b: BoundRecord,
                      now: Time)
    requires Produced(pipe, log) && IdsHold(pipe, world)
    requires RowsFromLog(pipe, log, world, w.table) && BoundFromLog(pipe, log, world, b)
    ensures RowsFromLog(pipe, log, world, WriteRow(pipe.kind, w, b, now).table)
    ensures KeptInRows(pipe, log, world, WriteRow(pipe.kind, w, b, now).table, b.event)
  {
    var k, rows' := b.RowKey(), WriteRow(pipe.kind, w, b, now).table;
    var p, o := b.source.partition, b.source.offset;
    ColumnsKeepObservedAt(b);
    assert RowFrom(pipe, log, world, k, b.Columns(), p, o);
    if rows' == w.table {
      var q, j :| RowFrom(pipe, log, world, k, w.table[k].columns, q, j);
      SharedRow(pipe, log, world, w.table[k].columns, q, j, b);
      assert KeptAt(pipe, log, world, rows', b.event, k, q, j);
    } else {
      assert KeptAt(pipe, log, world, rows', b.event, k, p, o);
    }
  }

  lemma WriteRowStillKeeps(pipe: Pipeline, log: Log, world: set<(string, int)>, w: Repository.Written, b: BoundRecord,
                           now: Time)
    requires Produced(pipe, log) && IdsHold(pipe, world) && BoundFromLog(pipe, log, world, b)
    ensures StillKept(pipe, log, world, w.table, WriteRow(pipe.kind, w, b, now).table)
  {
    var k, rows' := b.RowKey(), WriteRow(pipe.kind, w, b, now).table;
    if rows' != w.table {
      ColumnsKeepObservedAt(b);
      forall e | KeptInRows(pipe, log, world, w.table, e) ensures KeptInRows(pipe, log, world, rows', e) {
        var l, q, j :| KeptAt(pipe, log, world, w.table, e, l, q, j);
        if l == k {
          SharedRow(pipe, log, world, w.table[k].columns, q, j, b);
          assert KeptAt(pipe, log, world, rows', e, k, b.source.partition, b.source.offset);
        } else {
          assert KeptAt(pipe, log, world, rows', e, l, q, j);
        }
      }
    }
  }

  lemma {:induction false} StreamKeepsLog(pipe: Pipeline, log: Log, world: set<(string, int)>, table: Table,
                                          rs: seq<BoundRecord>, now: Time)
    requires Produced(pipe, log) && IdsHold(pipe, world) && RowsFromLog(pipe, log, world, table)
    requires forall b :: b in rs ==> BoundFromLog(pipe, log, world, b)
    ensures RowsFromLog(pipe, log, world, Stream(pipe.kind, table, rs, now).table)
    ensures forall b :: b in rs ==> KeptInRows(pipe, log, world, Stream(pipe.kind, table, rs, now).table, b.event)
    ensures StillKept(pipe, log, world, table, Stream(pipe.kind, table, rs, now).table)
  {
    if rs == [] {
    } else {
      assert rs == Front(rs) + [Last(rs)];
      var before := Stream(pipe.kind, table, Front(rs), now);
      StreamKeepsLog(pipe, log, world, table, Front(rs), now);
      WriteRowKeeps(pipe, log, world, before, Last(rs), now);
      WriteRowStillKeeps(pipe, log, world, before, Last(rs), now);
      assert Stream(pipe.kind, table, rs, now) == WriteRow(pipe.kind, before, Last(rs), now);
    }
  }

  /** Whatever the registry says, the batch is written: distinct reviews are distinct rows. */
  lemma DedupedWrites(pipe: Pipeline, ids: Registry, t: Tables, records: seq<Record>, now: Time)
    requires WellTyped(pipe)
    ensures WriteBatch(pipe, ids, t, records, now).Ok?
    ensures WriteBatch(pipe, ids, t, records, now).value.rows
         == Stream(pipe.kind, t.rows, Dedupe(BoundOf(pipe, ids, records)), now).table
  {
    var rs := BoundOf(pipe, ids, records);
    DedupeKeepsWinners(rs);
    if pipe.kind == ReviewKind {
      forall i, j | 0 <= i < j < |Dedupe(rs)| ensures Dedupe(rs)[i].RowKey() != Dedupe(rs)[j].RowKey() {
        KeptIsBound(pipe, ids, records, i);
        KeptIsBound(pipe, ids, records, j);
        assert KeyOf(Dedupe(rs)[i]) != KeyOf(Dedupe(rs)[j]);
      }
    }
    UpsertIsStream(pipe.kind, t.rows, Dedupe(rs), now);
  }

  lemma KeptIsBound(pipe: Pipeline, ids: Registry, records: seq<Record>, n: nat)
    requires n < |Dedupe(BoundOf(pipe, ids, records))|
    ensures var b := Dedupe(BoundOf(pipe, ids, records))[n];
      b.source in records && StoredAs(pipe, ids, b.source, b)
  {
    var rs := BoundOf(pipe, ids, records);
    DedupeKeepsWinners(rs);
    assert IsWinner(rs, Dedupe(rs)[n]);
    BoundMembers(pipe, ids, records, Dedupe(rs)[n]);
  }

  /** The record kept for a key stands for every record with that key. */
  lemma KeptStandsIn(pipe: Pipeline, ids: Registry, log: Log, world: set<(string, int)>, records: seq<Record>,
                     b: BoundRecord, rows: Table)
    requires b in BoundOf(pipe, ids, records)
    requires forall x :: x in Dedupe(BoundOf(pipe, ids, records)) ==> KeptInRows(pipe, log, world, rows, x.event)
    ensures KeptInRows(pipe, log, world, rows, b.event)
  {
    var n := KeptFor(BoundOf(pipe, ids, records), b);
    var x := Dedupe(BoundOf(pipe, ids, records))[n];
    var k, p, o :| KeptAt(pipe, log, world, rows, x.event, k, p, o);
    assert KeptAt(pipe, log, world, rows, b.event, k, p, o);
  }

  lemma KeptFor(rs: seq<BoundRecord>, b: BoundRecord) returns (n: nat)
    requires b in rs
    ensures n < |Dedupe(rs)| && KeyOf(Dedupe(rs)[n]) == KeyOf(b) && ObsOf(Dedupe(rs)[n]) >= ObsOf(b)
  {
    DedupeKeepsWinners(rs);
    var i :| 0 <= i < |rs| && rs[i] == b;
    n := Find(Dedupe(rs), KeyOf(b));
    assert IsWinner(rs, Dedupe(rs)[n]);
    var w: nat :| Wins(rs, w) && rs[w] == Dedupe(rs)[n];
    assert !Beats(rs, i, w);
  }

  lemma KeptFromLog(pipe: Pipeline, ids: Registry, log: Log, world: set<(string, int)>, slices: seq<Slice>,
                    b: BoundRecord)
    requires log.Valid() && BatchOf(log, slices) && ids.Items <= world
    requires b in Dedupe(BoundOf(pipe, ids, RecordsOf(log, slices)))
    ensures BoundFromLog(pipe, log, world, b)
  {
    var kept := Dedupe(BoundOf(pipe, ids, RecordsOf(log, slices)));
    var n :| 0 <= n < |kept| && kept[n] == b;
    KeptIsBound(pipe, ids, RecordsOf(log, slices), n);
    assert (b.event.packageName, b.applicationId) in ids.Items;
    var p, o := BatchInLog(log, slices, b.source);
  }

  lemma LettersStayFromLog(pipe: Pipeline, ids: Registry, log: Log, dead: DeadTable, slices: seq<Slice>)
    requires BatchOf(log, slices) && LettersFromLog(log, dead)
    ensures LettersFromLog(log, RecordDead(dead, RejectedOf(pipe, ids, RecordsOf(log, slices))))
  {
    var rejected := RejectedOf(pipe, ids, RecordsOf(log, slices));
    forall c | c in RecordDead(dead, rejected) ensures LetterFrom(log, c, RecordDead(dead, rejected)[c]) {
      RecordDeadMeaning(dead, rejected, c);
      if c !in dead {
        var i :| 0 <= i < |rejected| && At(rejected[i].source) == c
                 && RecordDead(dead, rejected)[c] == LetterOf(rejected[i]);
        RejectedMembers(pipe, ids, RecordsOf(log, slices), rejected[i]);
        var p, o := BatchInLog(log, slices, rejected[i].source);
        assert LetterOf(rejected[i]) == LetterOf(RejectedRecord(log.parts[p][o], rejected[i].reason));
      }
    }
  }

  /** Everything stored comes from the log. */
  ghost predicate FromLog(pipe: Pipeline, log: Log, world: set<(string, int)>, t: Tables) {
    RowsFromLog(pipe, log, world, t.rows) && LettersFromLog(log, t.dead)
  }

  /** A written batch keeps each of its records and loses none that was kept. */
  lemma BatchIsKept(pipe: Pipeline, ids: Registry, log: Log, world: set<(string, int)>, t: Tables, slices: seq<Slice>,
                    now: Time)
    requires Produced(pipe, log) && IdsHold(pipe, world) && ids.Items <= world
    requires BatchOf(log, slices) && FromLog(pipe, log, world, t)
    ensures var w := WriteBatch(pipe, ids, t, RecordsOf(log, slices), now);
      && w.Ok? && FromLog(pipe, log, world, w.value)
      && (forall r :: r in RecordsOf(log, slices) || IsKept(pipe, log, world, t, r) ==>
            IsKept(pipe, log, world, w.value, r))
  {
    var records := RecordsOf(log, slices);
    var rs := BoundOf(pipe, ids, records);
    DedupedWrites(pipe, ids, t, records, now);
    var t' := WriteBatch(pipe, ids, t, records, now).value;
    forall b | b in Dedupe(rs) ensures BoundFromLog(pipe, log, world, b) {
      KeptFromLog(pipe, ids, log, world, slices, b);
    }
    StreamKeepsLog(pipe, log, world, t.rows, Dedupe(rs), now);
    LettersStayFromLog(pipe, ids, log, t.dead, slices);
    forall r | r in records || IsKept(pipe, log, world, t, r) ensures IsKept(pipe, log, world, t', r) {
      if r in records {
        RecordIsKept(pipe, ids, log, world, slices, r, t, t');
      } else {
        StaysKept(pipe, ids, log, world, records, r, t, t');
      }
    }
  }

  lemma StaysKept(pipe: Pipeline, ids: Registry, log: Log, world: set<(string, int)>, records: seq<Record>, r: Record,
                  t: Tables, t': Tables)
    requires t'.dead == RecordDead(t.dead, RejectedOf(pipe, ids, records))
    requires StillKept(pipe, log, world, t.rows, t'.rows)
    requires IsKept(pipe, log, world, t, r)
    ensures IsKept(pipe, log, world, t', r)
  {
    RecordDeadMeaning(t.dead, RejectedOf(pipe, ids, records), At(r));
  }

  lemma RecordIsKept(pipe: Pipeline, ids: Registry, log: Log, world: set<(string, int)>, slices: seq<Slice>, r: Record,
                     t: Tables, t': Tables)
    requires log.Valid() && BatchOf(log, slices) && r in RecordsOf(log, slices)
    requires t'.dead == RecordDead(t.dead, RejectedOf(pipe, ids, RecordsOf(log, slices)))
    requires LettersFromLog(log, t'.dead)
    requires forall x :: x in Dedupe(BoundOf(pipe, ids, RecordsOf(log, slices))) ==>
      KeptInRows(pipe, log, world, t'.rows, x.event)
    ensures IsKept(pipe, log, world, t', r)
  {
    var records := RecordsOf(log, slices);
    match FateOf(pipe, ids, r)
    case Stored(b) =>
      BoundMembers(pipe, ids, records, b);
      KeptStandsIn(pipe, ids, log, world, records, b, t'.rows);
    case Refused(reason) =>
      var x := RejectedRecord(r, reason);
      RejectedMembers(pipe, ids, records, x);
      var rejected := RejectedOf(pipe, ids, records);
      var i :| 0 <= i < |rejected| && rejected[i] == x;
      RecordDeadMeaning(t.dead, rejected, At(r));
      var p, o := BatchInLog(log, slices, r);
      LetterIsOwn(log, t'.dead, p, o);
  }

  /** Coordinates tell messages apart, so a letter at a message's coordinates is that message's. */
  lemma LetterIsOwn(log: Log, dead: DeadTable, p: int, o: int)
    requires log.Valid() && LettersFromLog(log, dead) && log.Has(p, o) && At(log.parts[p][o]) in dead
    ensures exists reason :: dead[At(log.parts[p][o])] == LetterOf(RejectedRecord(log.parts[p][o], reason))
  {
    assert LetterFrom(log, At(log.parts[p][o]), dead[At(log.parts[p][o])]);
  }

  // ----- Over every run -----

  ghost predicate AllKept(pipe: Pipeline, log: Log, world: set<(string, int)>, s: State) {
    && |s.high| == |log.parts|
    && FromLog(pipe, log, world, s.tables)
    && forall p, o :: log.Has(p, o) && o < s.high[p] ==> IsKept(pipe, log, world, s.tables, log.parts[p][o])
  }

  lemma WriteKeepsAll(pipe: Pipeline, ids: Registry, log: Log, world: set<(string, int)>, s: State, w: int, now: Time)
    requires Produced(pipe, log) && IdsHold(pipe, world) && ids.Items <= world
    requires Ordered(log, s) && AllKept(pipe, log, world, s) && IsWriting(s, w)
    ensures AfterWrite(pipe, log, s, w, ids, now).Some?
    ensures AllKept(pipe, log, world, AfterWrite(pipe, log, s, w, ids, now).value)
  {
    var slices := s.workers[w].phase.slices;
    assert WorkerOk(log, s.workers[w], s.high);
    BatchIsKept(pipe, ids, log, world, s.tables, slices, now);
    var s' := AfterWrite(pipe, log, s, w, ids, now).value;
    RaiseMeaning(s.high, slices);
    forall p, o | log.Has(p, o) && o < s'.high[p] ensures IsKept(pipe, log, world, s'.tables, log.parts[p][o]) {
      if o >= s.high[p] {
        var i :| 0 <= i < |slices| && slices[i].part == p;
        InBatch(log, slices, p, o);
      }
    }
  }

  /** A label is no part of what a row says. */
  lemma SameColumns(pipe: Pipeline, log: Log, world: set<(string, int)>, rows: Table, rows': Table)
    requires rows'.Keys == rows.Keys && forall k :: k in rows ==> rows'[k].columns == rows[k].columns
    requires RowsFromLog(pipe, log, world, rows)
    ensures RowsFromLog(pipe, log, world, rows') && StillKept(pipe, log, world, rows, rows')
  {
    forall k | k in rows' ensures RowFromLog(pipe, log, world, k, rows'[k].columns) {
      assert RowFromLog(pipe, log, world, k, rows[k].columns);
    }
    forall e | KeptInRows(pipe, log, world, rows, e) ensures KeptInRows(pipe, log, world, rows', e) {
      var k, p, o :| KeptAt(pipe, log, world, rows, e, k, p, o);
      assert KeptAt(pipe, log, world, rows', e, k, p, o);
    }
  }

  lemma SameLetters(pipe: Pipeline, log: Log, world: set<(string, int)>, t: Tables, t': Tables, r: Record)
    requires t'.dead == t.dead && StillKept(pipe, log, world, t.rows, t'.rows)
    requires IsKept(pipe, log, world, t, r)
    ensures IsKept(pipe, log, world, t', r)
  {
  }

  lemma SameColumnsKeepAll(pipe: Pipeline, log: Log, world: set<(string, int)>, s: State, s': State)
    requires AllKept(pipe, log, world, s)
    requires s'.high == s.high && s'.tables.dead == s.tables.dead && s'.tables.rows.Keys == s.tables.rows.Keys
    requires forall k :: k in s.tables.rows ==> s'.tables.rows[k].columns == s.tables.rows[k].columns
    ensures AllKept(pipe, log, world, s')
  {
    SameColumns(pipe, log, world, s.tables.rows, s'.tables.rows);
    forall p, o | log.Has(p, o) && o < s'.high[p] ensures IsKept(pipe, log, world, s'.tables, log.parts[p][o]) {
      SameLetters(pipe, log, world, s.tables, s'.tables, log.parts[p][o]);
    }
  }

  lemma StepKeepsAll(pipe: Pipeline, log: Log, world: set<(string, int)>, s: State, a: Action)
    requires Produced(pipe, log) && IdsHold(pipe, world) && Bindings([a]) <= world
    requires Ordered(log, s) && AllKept(pipe, log, world, s) && Step(pipe, log, s, a).Some?
    ensures AllKept(pipe, log, world, Step(pipe, log, s, a).value)
  {
    assert Front([a]) == [] && Last([a]) == a;
    match a
    case WriteCommitted(w, ids, now) => WriteKeepsAll(pipe, ids, log, world, s, w, now);
    case WriteInDoubt(w, ids, now) => WriteKeepsAll(pipe, ids, log, world, s, w, now);
    case LabelSentiment(k, verdict) => SameColumnsKeepAll(pipe, log, world, s, Step(pipe, log, s, a).value);
    case _ => OtherStepsKeepTables(pipe, log, s, a);
  }

  lemma OtherStepsKeepTables(pipe: Pipeline, log: Log, s: State, a: Action)
    requires !a.WriteCommitted? && !a.WriteInDoubt? && !a.LabelSentiment? && Step(pipe, log, s, a).Some?
    ensures Step(pipe, log, s, a).value.tables == s.tables && Step(pipe, log, s, a).value.high == s.high
  {
  }

  lemma {:induction false} RunKeepsAll(pipe: Pipeline, log: Log, world: set<(string, int)>, actions: seq<Action>)
    requires Produced(pipe, log) && IdsHold(pipe, world) && Bindings(actions) <= world
    requires Run(pipe, log, actions).Some?
    ensures AllKept(pipe, log, world, Run(pipe, log, actions).value)
  {
    if actions == [] {
    } else {
      RunKeepsAll(pipe, log, world, Front(actions));
      RunIsOrdered(pipe, log, Front(actions));
      assert Front([Last(actions)]) == [];
      StepKeepsAll(pipe, log, world, Run(pipe, log, Front(actions)).value, Last(actions));
    }
  }

  /** Every committed offset of the run is kept. */
  ghost predicate NothingLost(pipe: Pipeline, log: Log, actions: seq<Action>) {
    Run(pipe, log, actions).Some? ==>
      var s := Run(pipe, log, actions).value;
      forall p, o :: log.Has(p, o) && p < |s.committed| && o < s.committed[p] ==>
        IsKept(pipe, log, Bindings(actions), s.tables, log.parts[p][o])
  }

  /** No offset below a committed one is ever lost while names come and go, if no id is ever given to a second name. */
  lemma NothingCommittedIsLost(pipe: Pipeline, log: Log, actions: seq<Action>)
    requires Produced(pipe, log) && IdsHold(pipe, Bindings(actions))
    ensures NothingLost(pipe, log, actions)
  {
    if Run(pipe, log, actions).Some? {
      RunKeepsAll(pipe, log, Bindings(actions), actions);
      RunIsOrdered(pipe, log, actions);
    }
  }

  // ----- Columns the consumer does not own -----

  /**
   A row, once inserted, stays; its first-seen time is the time of the
   transaction that inserted it, and only the sentiment job changes its label.
   */
  lemma OwnedColumnsStay(pipe: Pipeline, log: Log, s: State, a: Action, k: RowKey)
    requires WellTyped(pipe) && Ordered(log, s)
    requires Step(pipe, log, s, a).Some?
    ensures var rows, rows' := s.tables.rows, Step(pipe, log, s, a).value.tables.rows;
      && (k in rows ==> k in rows' && rows'[k].firstSeenAt == rows[k].firstSeenAt)
      && (k in rows && !(a.LabelSentiment? && a.k == k) ==> rows'[k].sentiment == rows[k].sentiment)
      && (k !in rows && k in rows' ==>
            (a.WriteCommitted? || a.WriteInDoubt?) && rows'[k].firstSeenAt == a.now && rows'[k].sentiment == None)
  {
    if a.WriteCommitted? || a.WriteInDoubt? {
      var slices := s.workers[a.w].phase.slices;
      assert WorkerOk(log, s.workers[a.w], s.high);
      DedupedWrites(pipe, a.ids, s.tables, RecordsOf(log, slices), a.now);
      StreamKeeps(pipe.kind, s.tables.rows, Dedupe(BoundOf(pipe, a.ids, RecordsOf(log, slices))), a.now, k);
    } else if !a.LabelSentiment? {
      assert Step(pipe, log, s, a).value.tables == s.tables;
    }
  }
}
