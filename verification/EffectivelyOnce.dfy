/**
 At-least-once delivery plus ON CONFLICT is effectively-once: with a fixed
 registry, the tables after any run equal one in-order pass over each partition's
 prefix up to the highest offset ever written.
 */
module EffectivelyOnce {
  import opened Wrappers
  import opened Sequences
  import opened Events
  import opened Batching
  import opened Repository
  import opened BatchWrite
  import opened Protocol

  // ----- The assumptions -----

  predicate SamePartition(pipe: Pipeline, a: Record, b: Record) {
    var da, db := pipe.decode(a.value), pipe.decode(b.value);
    da.Ok? && db.Ok? && da.value.ConflictKey() == db.value.ConflictKey() ==> a.partition == b.partition
  }

  /**
   What the producers guarantee: one conflict key lives in one partition, and
   messages with one `analysis_id` are redeliveries of one message.
   */
  ghost predicate Produced(pipe: Pipeline, log: Log) {
    && log.Valid() && WellTyped(pipe)
    && (forall p, i, q, j :: log.Has(p, i) && log.Has(q, j) ==>
          SamePartition(pipe, log.parts[p][i], log.parts[q][j]))
    && (pipe.kind == NetworkMetricKind ==> forall p, i, q, j :: log.Has(p, i) && log.Has(q, j) ==>
          SameMessage(pipe, log.parts[p][i], log.parts[q][j]))
  }

  // ----- The reference: every record once, in order -----

  function Apply(pipe: Pipeline, ids: Registry, t: Tables, r: Record, now: Time): Tables {
    match FateOf(pipe, ids, r)
    case Stored(row) => t.(rows := WriteRow(pipe.kind, Repository.Written(t.rows, []), row, now).table)
    case Refused(reason) =>
      if At(r) in t.dead then t else t.(dead := t.dead[At(r) := LetterOf(RejectedRecord(r, reason))])
  }

  function OnePass(pipe: Pipeline, ids: Registry, records: seq<Record>, now: Time): Tables {
    if records == [] then Tables(map[], map[])
    else Apply(pipe, ids, OnePass(pipe, ids, Front(records), now), Last(records), now)
  }

  /** The first `high[p]` records of each of the first `n` partitions. */
  function Prefix(log: Log, high: seq<nat>, n: nat): seq<Record>
    requires HighInLog(log, high) && n <= |high|
  {
    if n == 0 then [] else Prefix(log, high, n - 1) + log.parts[n - 1][..high[n - 1]]
  }

  function Written(log: Log, high: seq<nat>): seq<Record>
    requires HighInLog(log, high)
  {
    Prefix(log, high, |high|)
  }

  // ----- Folding records into one row -----

  lemma {:induction false} FoldAppend(pipe: Pipeline, ids: Registry, c: Option<Columns>, a: seq<Record>,
                                      b: seq<Record>, k: RowKey)
    ensures FoldRecords(pipe, ids, c, a + b, k) == FoldRecords(pipe, ids, FoldRecords(pipe, ids, c, a, k), b, k)
  {
    if b == [] {
      assert a + b == a;
    } else {
      FoldAppend(pipe, ids, c, a, Front(b), k);
      assert a + b == (a + Front(b)) + [Last(b)];
      Snoc(a + Front(b), Last(b));
    }
  }

  predicate NoneAt(pipe: Pipeline, ids: Registry, records: seq<Record>, k: RowKey) {
    forall r :: r in records ==> !StoredAt(pipe, ids, r, k)
  }

  lemma {:induction false} FoldSkips(pipe: Pipeline, ids: Registry, c: Option<Columns>, records: seq<Record>, k: RowKey)
    requires NoneAt(pipe, ids, records, k)
    ensures FoldRecords(pipe, ids, c, records, k) == c
  {
    if records == [] {
    } else {
      assert records == Front(records) + [Last(records)];
      FoldSkips(pipe, ids, c, Front(records), k);
    }
  }

  /** A stored row that no further delivery of `r` can change. */
  predicate Absorbs(pipe: Pipeline, ids: Registry, c: Option<Columns>, r: Record, k: RowKey) {
    StoredAt(pipe, ids, r, k) ==>
      c.Some? && !Supersedes(pipe.kind, FateOf(pipe, ids, r).row.Columns(), c.value)
  }

  lemma {:induction false} FoldAbsorbsItsRecords(
      pipe: Pipeline, ids: Registry, c: Option<Columns>, records: seq<Record>, k: RowKey)
    ensures forall r :: r in records ==> Absorbs(pipe, ids, FoldRecords(pipe, ids, c, records, k), r, k)
  {
    if records == [] {
    } else {
      FoldAbsorbsItsRecords(pipe, ids, c, Front(records), k);
      assert records == Front(records) + [Last(records)];
    }
  }

  lemma {:induction false} FoldRedelivered(
      pipe: Pipeline, ids: Registry, c: Option<Columns>, records: seq<Record>, k: RowKey)
    requires forall r :: r in records ==> Absorbs(pipe, ids, c, r, k)
    ensures FoldRecords(pipe, ids, c, records, k) == c
  {
    if records == [] {
    } else {
      assert records == Front(records) + [Last(records)];
      FoldRedelivered(pipe, ids, c, Front(records), k);
      assert Absorbs(pipe, ids, c, Last(records), k);
    }
  }

  /** Writing offsets `lo..hi` of a partition already written up to `h`. */
  lemma CatchUp(pipe: Pipeline, ids: Registry, part: seq<Record>, lo: nat, hi: nat, h: nat, k: RowKey)
    requires lo <= hi <= |part| && lo <= h <= |part|
    ensures FoldRecords(pipe, ids, FoldRecords(pipe, ids, None, part[..h], k), part[lo..hi], k)
         == FoldRecords(pipe, ids, None, part[..Max(h, hi)], k)
  {
    var c := FoldRecords(pipe, ids, None, part[..h], k);
    var mid := if hi <= h then hi else h;
    FoldAbsorbsItsRecords(pipe, ids, None, part[..h], k);
    forall r | r in part[lo..mid] ensures Absorbs(pipe, ids, c, r, k) {
      assert r in part[..h];
    }
    FoldRedelivered(pipe, ids, c, part[lo..mid], k);
    assert part[lo..hi] == part[lo..mid] + part[mid..hi];
    FoldAppend(pipe, ids, c, part[lo..mid], part[mid..hi], k);
    assert part[..Max(h, hi)] == part[..h] + part[mid..hi];
    FoldAppend(pipe, ids, None, part[..h], part[mid..hi], k);
  }

  // ----- One partition per row -----

  /** Only partition `home` (if any) holds records stored in row `k`. */
  ghost predicate Home(pipe: Pipeline, ids: Registry, log: Log, k: RowKey, home: int) {
    forall p :: 0 <= p < |log.parts| && p != home ==> NoneAt(pipe, ids, log.parts[p], k)
  }

  lemma HomeOf(pipe: Pipeline, ids: Registry, log: Log, k: RowKey) returns (home: int)
    requires Produced(pipe, log) && Injective(ids)
    ensures Home(pipe, ids, log, k, home)
  {
    if p :| 0 <= p < |log.parts| && !NoneAt(pipe, ids, log.parts[p], k) {
      home := p;
      var i :| 0 <= i < |log.parts[p]| && StoredAt(pipe, ids, log.parts[p][i], k);
      assert log.Has(p, i);
      forall q | 0 <= q < |log.parts| && q != home ensures NoneAt(pipe, ids, log.parts[q], k) {
        forall r | r in log.parts[q] ensures !StoredAt(pipe, ids, r, k) {
          var j :| 0 <= j < |log.parts[q]| && log.parts[q][j] == r;
          assert log.Has(q, j) && SamePartition(pipe, log.parts[p][i], log.parts[q][j]);
          if StoredAt(pipe, ids, r, k) { SameRowSameKey(pipe, ids, log.parts[p][i], r, k); }
        }
      }
    } else {
      home := -1;
    }
  }

  lemma SameRowSameKey(pipe: Pipeline, ids: Registry, a: Record, b: Record, k: RowKey)
    requires WellTyped(pipe) && Injective(ids)
    requires StoredAt(pipe, ids, a, k) && StoredAt(pipe, ids, b, k)
    ensures pipe.decode(a.value).value.ConflictKey() == pipe.decode(b.value).value.ConflictKey()
  {
  }

  lemma NoneInPart(pipe: Pipeline, ids: Registry, part: seq<Record>, lo: nat, hi: nat, k: RowKey)
    requires lo <= hi <= |part| && NoneAt(pipe, ids, part, k)
    ensures NoneAt(pipe, ids, part[lo..hi], k)
  {
  }

  /** The written prefix of the log means, for row `k`, the prefix of its home partition. */
  lemma {:induction false} PrefixFolds(pipe: Pipeline, ids: Registry, log: Log, high: seq<nat>, n: nat,
                                       k: RowKey, home: int)
    requires HighInLog(log, high) && n <= |high| && Home(pipe, ids, log, k, home)
    ensures FoldRecords(pipe, ids, None, Prefix(log, high, n), k)
         == if 0 <= home < n then FoldRecords(pipe, ids, None, log.parts[home][..high[home]], k) else None
  {
    if n == 0 {
    } else {
      PrefixFolds(pipe, ids, log, high, n - 1, k, home);
      var before, part := Prefix(log, high, n - 1), log.parts[n - 1];
      FoldAppend(pipe, ids, None, before, part[..high[n - 1]], k);
      if home != n - 1 {
        NoneInPart(pipe, ids, part, 0, high[n - 1], k);
        FoldSkips(pipe, ids, FoldRecords(pipe, ids, None, before, k), part[..high[n - 1]], k);
      }
    }
  }

  /** A batch means, for row `k`, its slice of the home partition. */
  lemma {:induction false} BatchFoldsHome(pipe: Pipeline, ids: Registry, log: Log, slices: seq<Slice>,
                                          c: Option<Columns>, k: RowKey, home: int)
    requires BatchOf(log, slices) && Home(pipe, ids, log, k, home)
    ensures (forall i :: 0 <= i < |slices| ==> slices[i].part != home) ==>
      FoldRecords(pipe, ids, c, RecordsOf(log, slices), k) == c
    ensures forall i :: 0 <= i < |slices| && slices[i].part == home ==>
      FoldRecords(pipe, ids, c, RecordsOf(log, slices), k)
      == FoldRecords(pipe, ids, c, log.parts[home][slices[i].lo..slices[i].hi], k)
  {
    if slices == [] {
    } else {
      var f, s := Front(slices), Last(slices);
      BatchFoldsHome(pipe, ids, log, f, c, k, home);
      assert slices == f + [s];
      var before, own := RecordsOf(log, f), log.parts[s.part][s.lo..s.hi];
      FoldAppend(pipe, ids, c, before, own, k);
      if s.part != home {
        NoneInPart(pipe, ids, log.parts[s.part], s.lo, s.hi, k);
        FoldSkips(pipe, ids, FoldRecords(pipe, ids, c, before, k), own, k);
      }
    }
  }

  /** Writing a batch moves row `k` from the old written prefix to the new one. */
  lemma RowCatchesUp(pipe: Pipeline, ids: Registry, log: Log, high: seq<nat>, slices: seq<Slice>, k: RowKey)
    requires Produced(pipe, log) && Injective(ids)
    requires HighInLog(log, high) && BatchOf(log, slices) && StartsBelow(slices, high)
    ensures HighInLog(log, Raise(high, slices))
    ensures FoldRecords(pipe, ids, FoldRecords(pipe, ids, None, Written(log, high), k), RecordsOf(log, slices), k)
         == FoldRecords(pipe, ids, None, Written(log, Raise(high, slices)), k)
  {
    HighStaysInLog(log, high, slices);
    var home := HomeOf(pipe, ids, log, k);
    var raised := Raise(high, slices);
    PrefixFolds(pipe, ids, log, high, |high|, k, home);
    PrefixFolds(pipe, ids, log, raised, |raised|, k, home);
    BatchFoldsHome(pipe, ids, log, slices, FoldRecords(pipe, ids, None, Written(log, high), k), k, home);
    RaiseMeaning(high, slices);
    if i :| 0 <= i < |slices| && slices[i].part == home {
      CatchUp(pipe, ids, log.parts[home], slices[i].lo, slices[i].hi, high[home], k);
    }
  }

  // ----- Dead letters -----

  lemma {:induction false} BatchInLog(log: Log, slices: seq<Slice>, r: Record) returns (p: int, o: int)
    requires BatchOf(log, slices) && r in RecordsOf(log, slices)
    ensures log.Has(p, o) && log.parts[p][o] == r
  {
    assert slices == Front(slices) + [Last(slices)];
    if r in RecordsOf(log, Front(slices)) {
      p, o := BatchInLog(log, Front(slices), r);
    } else {
      var s := Last(slices);
      o :| s.lo <= o < s.hi && log.parts[s.part][o] == r;
      p := s.part;
    }
  }

  /** Coordinates tell records apart, so a slice holds a record exactly when it covers its offset. */
  lemma SliceHolds(log: Log, s: Slice, p: int, o: int)
    requires log.Valid() && SliceOf(log, s) && log.Has(p, o)
    ensures log.parts[p][o] in log.parts[s.part][s.lo..s.hi] <==> s.part == p && s.lo <= o < s.hi
  {
    var r, held := log.parts[p][o], log.parts[s.part][s.lo..s.hi];
    if r in held {
      var i :| 0 <= i < |held| && held[i] == r;
      assert log.Has(s.part, s.lo + i);
    }
    assert s.part == p && s.lo <= o < s.hi ==> held[o - s.lo] == r;
  }

  lemma {:induction false} InBatch(log: Log, slices: seq<Slice>, p: int, o: int)
    requires log.Valid() && BatchOf(log, slices) && log.Has(p, o)
    ensures log.parts[p][o] in RecordsOf(log, slices)
      <==> exists i :: 0 <= i < |slices| && slices[i].part == p && slices[i].lo <= o < slices[i].hi
  {
    if slices == [] {
    } else {
      InBatch(log, Front(slices), p, o);
      SliceHolds(log, Last(slices), p, o);
      assert slices == Front(slices) + [Last(slices)];
    }
  }

  /** Dead letters are exactly the refused records below the written offsets. */
  ghost predicate DeadExact(pipe: Pipeline, ids: Registry, log: Log, dead: DeadTable, high: seq<nat>) {
    && |high| == |log.parts|
    && (forall p, o :: log.Has(p, o) ==> LetterExact(pipe, ids, log, dead, high, p, o))
    && (forall c :: c in dead ==> InLog(log, c))
  }

  predicate InLog(log: Log, c: Coordinates) {
    log.Has(c.partition, c.offset) && c == At(log.parts[c.partition][c.offset])
  }

  predicate LetterExact(pipe: Pipeline, ids: Registry, log: Log, dead: DeadTable, high: seq<nat>, p: int, o: int)
    requires |high| == |log.parts| && log.Has(p, o)
  {
    var r := log.parts[p][o];
    LetterAt(dead, At(r)) == if o < high[p] then LetterFor(pipe, ids, r) else None
  }

  /** What recording a batch's refusals does at the coordinates of one record of the log. */
  lemma LetterStep(pipe: Pipeline, ids: Registry, log: Log, dead: DeadTable, slices: seq<Slice>, p: int, o: int)
    requires log.Valid() && BatchOf(log, slices) && log.Has(p, o)
    ensures var r, records := log.parts[p][o], RecordsOf(log, slices);
      LetterAt(RecordDead(dead, RejectedOf(pipe, ids, records)), At(r))
      == if At(r) in dead then LetterAt(dead, At(r))
         else if r in records then LetterFor(pipe, ids, r) else None
  {
    var r, records := log.parts[p][o], RecordsOf(log, slices);
    var rejected := RejectedOf(pipe, ids, records);
    var dead' := RecordDead(dead, rejected);
    RecordDeadMeaning(dead, rejected, At(r));
    forall x | x in rejected && At(x.source) == At(r)
      ensures x.source == r && r in records && RefusedAs(pipe, ids, r, x)
    {
      RejectedMembers(pipe, ids, records, x);
      var q, j := BatchInLog(log, slices, x.source);
    }
    if At(r) !in dead && r in records && FateOf(pipe, ids, r).Refused? {
      var x := RejectedRecord(r, FateOf(pipe, ids, r).reason);
      RejectedMembers(pipe, ids, records, x);
      var i :| 0 <= i < |rejected| && rejected[i] == x;
    }
  }

  lemma DeadCatchesUp(pipe: Pipeline, ids: Registry, log: Log, dead: DeadTable, high: seq<nat>, slices: seq<Slice>)
    requires log.Valid() && BatchOf(log, slices) && StartsBelow(slices, high)
    requires DeadExact(pipe, ids, log, dead, high)
    ensures DeadExact(pipe, ids, log, RecordDead(dead, RejectedOf(pipe, ids, RecordsOf(log, slices))),
                      Raise(high, slices))
  {
    var records := RecordsOf(log, slices);
    var dead', high' := RecordDead(dead, RejectedOf(pipe, ids, records)), Raise(high, slices);
    RaiseMeaning(high, slices);
    forall p, o | log.Has(p, o) ensures LetterExact(pipe, ids, log, dead', high', p, o) {
      assert LetterExact(pipe, ids, log, dead, high, p, o);
      LetterStep(pipe, ids, log, dead, slices, p, o);
      InBatch(log, slices, p, o);
      if i :| 0 <= i < |slices| && slices[i].part == p {
        assert high'[slices[i].part] == Max(high[slices[i].part], slices[i].hi);
      }
    }
    forall c | c in dead' ensures InLog(log, c) {
      NewLetterInLog(pipe, ids, log, dead, slices, c);
    }
  }

  lemma NewLetterInLog(pipe: Pipeline, ids: Registry, log: Log, dead: DeadTable, slices: seq<Slice>, c: Coordinates)
    requires log.Valid() && BatchOf(log, slices)
    requires c in RecordDead(dead, RejectedOf(pipe, ids, RecordsOf(log, slices)))
    ensures c in dead || InLog(log, c)
  {
    var rejected := RejectedOf(pipe, ids, RecordsOf(log, slices));
    RecordDeadMeaning(dead, rejected, c);
    if c !in dead {
      var i :| 0 <= i < |rejected| && At(rejected[i].source) == c;
      RejectedMembers(pipe, ids, RecordsOf(log, slices), rejected[i]);
      var p, o := BatchInLog(log, slices, rejected[i].source);
    }
  }

  // ----- The invariant -----

  ghost predicate RowsExact(pipe: Pipeline, ids: Registry, log: Log, rows: Table, high: seq<nat>) {
    && HighInLog(log, high)
    && forall k :: Contents(rows, k) == FoldRecords(pipe, ids, None, Written(log, high), k)
  }

  ghost predicate Exact(pipe: Pipeline, ids: Registry, log: Log, s: State) {
    RowsExact(pipe, ids, log, s.tables.rows, s.high) && DeadExact(pipe, ids, log, s.tables.dead, s.high)
  }

  lemma BatchRedeliveries(pipe: Pipeline, log: Log, slices: seq<Slice>)
    requires Produced(pipe, log) && BatchOf(log, slices)
    ensures Redeliveries(pipe, RecordsOf(log, slices))
  {
    if pipe.kind == NetworkMetricKind {
      var records := RecordsOf(log, slices);
      forall a, b | a in records && b in records ensures SameMessage(pipe, a, b) {
        var p, i := BatchInLog(log, slices, a);
        var q, j := BatchInLog(log, slices, b);
        assert SameMessage(pipe, log.parts[p][i], log.parts[q][j]);
      }
    }
  }

  /** A pending batch can always be written, and writing it keeps the tables exact. */
  lemma WriteKeepsExact(pipe: Pipeline, ids: Registry, log: Log, s: State, w: int, now: Time)
    requires Produced(pipe, log) && Injective(ids)
    requires Ordered(log, s) && Exact(pipe, ids, log, s) && IsWriting(s, w)
    ensures AfterWrite(pipe, log, s, w, ids, now).Some?
    ensures Exact(pipe, ids, log, AfterWrite(pipe, log, s, w, ids, now).value)
  {
    var slices := s.workers[w].phase.slices;
    assert WorkerOk(log, s.workers[w], s.high);
    var records := RecordsOf(log, slices);
    BatchRedeliveries(pipe, log, slices);
    BatchFolds(pipe, ids, s.tables, records, now);
    var s' := AfterWrite(pipe, log, s, w, ids, now).value;
    HighStaysInLog(log, s.high, slices);
    forall k ensures Contents(s'.tables.rows, k) == FoldRecords(pipe, ids, None, Written(log, s'.high), k) {
      RowCatchesUp(pipe, ids, log, s.high, slices, k);
    }
    DeadCatchesUp(pipe, ids, log, s.tables.dead, s.high, slices);
  }

  lemma StepKeepsExact(pipe: Pipeline, ids: Registry, log: Log, s: State, a: Action)
    requires Produced(pipe, log) && Injective(ids)
    requires Ordered(log, s) && Exact(pipe, ids, log, s)
    requires Step(pipe, log, s, a).Some? && UsesRegistry(a, ids)
    ensures Exact(pipe, ids, log, Step(pipe, log, s, a).value)
  {
    match a
    case WriteCommitted(w, _, now) => WriteKeepsExact(pipe, ids, log, s, w, now);
    case WriteInDoubt(w, _, now) => WriteKeepsExact(pipe, ids, log, s, w, now);
    case LabelSentiment(k, verdict) =>
      var s' := Step(pipe, log, s, a).value;
      assert forall j :: Contents(s'.tables.rows, j) == Contents(s.tables.rows, j);
    case _ =>
      assert Step(pipe, log, s, a).value.tables == s.tables;
      assert Step(pipe, log, s, a).value.high == s.high;
  }

  lemma {:induction false} NothingWritten(log: Log, high: seq<nat>, n: nat)
    requires HighInLog(log, high) && n <= |high| && forall p :: 0 <= p < |high| ==> high[p] == 0
    ensures Prefix(log, high, n) == []
  {
    if n == 0 {
    } else {
      NothingWritten(log, high, n - 1);
    }
  }

  lemma {:induction false} RunIsExact(pipe: Pipeline, ids: Registry, log: Log, actions: seq<Action>)
    requires Produced(pipe, log) && Injective(ids)
    requires Run(pipe, log, actions).Some?
    requires forall a :: a in actions ==> UsesRegistry(a, ids)
    ensures Exact(pipe, ids, log, Run(pipe, log, actions).value)
  {
    if actions == [] {
      NothingWritten(log, Initial(log).high, |log.parts|);
    } else {
      assert actions == Front(actions) + [Last(actions)];
      RunIsExact(pipe, ids, log, Front(actions));
      RunIsOrdered(pipe, log, Front(actions));
      StepKeepsExact(pipe, ids, log, Run(pipe, log, Front(actions)).value, Last(actions));
    }
  }

  // ----- The reference pass -----

  lemma {:induction false} OnePassRows(pipe: Pipeline, ids: Registry, records: seq<Record>, now: Time, k: RowKey)
    ensures Contents(OnePass(pipe, ids, records, now).rows, k) == FoldRecords(pipe, ids, None, records, k)
  {
    if records == [] {
    } else {
      OnePassRows(pipe, ids, Front(records), now, k);
    }
  }

  lemma {:induction false} OnePassDead(pipe: Pipeline, ids: Registry, records: seq<Record>, now: Time, r: Record)
    requires forall x :: x in records && At(x) == At(r) ==> x == r
    ensures LetterAt(OnePass(pipe, ids, records, now).dead, At(r))
         == if r in records then LetterFor(pipe, ids, r) else None
  {
    if records == [] {
    } else {
      assert records == Front(records) + [Last(records)];
      OnePassDead(pipe, ids, Front(records), now, r);
    }
  }

  lemma {:induction false} OnePassDeadInLog(pipe: Pipeline, ids: Registry, records: seq<Record>, now: Time,
                                            c: Coordinates)
    requires c in OnePass(pipe, ids, records, now).dead
    ensures exists r :: r in records && At(r) == c
  {
    assert records == Front(records) + [Last(records)];
    if c in OnePass(pipe, ids, Front(records), now).dead {
      OnePassDeadInLog(pipe, ids, Front(records), now, c);
      var r :| r in Front(records) && At(r) == c;
      assert r in records;
    } else {
      assert Last(records) in records;
    }
  }

  lemma {:induction false} PrefixMembers(log: Log, high: seq<nat>, n: nat, r: Record)
    requires HighInLog(log, high) && n <= |high|
    ensures r in Prefix(log, high, n) <==> exists p :: 0 <= p < n && r in log.parts[p][..high[p]]
  {
    if n == 0 {
    } else {
      PrefixMembers(log, high, n - 1, r);
    }
  }

  lemma WrittenMembers(log: Log, high: seq<nat>, p: int, o: int)
    requires log.Valid() && HighInLog(log, high) && log.Has(p, o)
    ensures log.parts[p][o] in Written(log, high) <==> o < high[p]
  {
    var r := log.parts[p][o];
    PrefixMembers(log, high, |high|, r);
    if q :| 0 <= q < |high| && r in log.parts[q][..high[q]] {
      var j :| 0 <= j < high[q] && log.parts[q][j] == r;
      assert log.Has(q, j);
    }
    if o < high[p] { assert log.parts[p][..high[p]][o] == r; }
  }

  lemma WrittenInLog(log: Log, high: seq<nat>, r: Record) returns (p: int, o: int)
    requires HighInLog(log, high) && r in Written(log, high)
    ensures log.Has(p, o) && log.parts[p][o] == r
  {
    PrefixMembers(log, high, |high|, r);
    p :| 0 <= p < |high| && r in log.parts[p][..high[p]];
    o :| 0 <= o < high[p] && log.parts[p][o] == r;
  }

  lemma DeadIsOnePass(pipe: Pipeline, ids: Registry, log: Log, dead: DeadTable, high: seq<nat>, now: Time)
    requires log.Valid() && HighInLog(log, high) && DeadExact(pipe, ids, log, dead, high)
    ensures dead == OnePass(pipe, ids, Written(log, high), now).dead
  {
    var records := Written(log, high);
    var once := OnePass(pipe, ids, records, now).dead;
    forall c | InLog(log, c) ensures LetterAt(once, c) == LetterAt(dead, c) {
      var p, o := c.partition, c.offset;
      var r := log.parts[p][o];
      forall x | x in records && At(x) == At(r) ensures x == r {
        var q, j := WrittenInLog(log, high, x);
      }
      OnePassDead(pipe, ids, records, now, r);
      WrittenMembers(log, high, p, o);
      assert LetterExact(pipe, ids, log, dead, high, p, o);
    }
    forall c | c in once ensures InLog(log, c) {
      OnePassDeadInLog(pipe, ids, records, now, c);
      var r :| r in records && At(r) == c;
      var p, o := WrittenInLog(log, high, r);
    }
    forall c ensures c in once <==> c in dead {
      if InLog(log, c) { assert LetterAt(once, c) == LetterAt(dead, c); }
    }
    forall c | c in once ensures once[c] == dead[c] {
      assert InLog(log, c);
      assert LetterAt(once, c) == LetterAt(dead, c);
    }
  }

  /**
   The headline. After any run with a fixed registry, every row and every dead
   letter is what one in-order pass over each partition's written prefix gives.
   */
  lemma EffectivelyOnceTheorem(pipe: Pipeline, ids: Registry, log: Log, actions: seq<Action>, now: Time)
    requires Produced(pipe, log) && Injective(ids)
    requires Run(pipe, log, actions).Some?
    requires forall a :: a in actions ==> UsesRegistry(a, ids)
    ensures var s := Run(pipe, log, actions).value;
      && HighInLog(log, s.high)
      && (forall p :: 0 <= p < |log.parts| ==> p < |s.committed| && s.committed[p] <= s.high[p])
      && (forall k :: Contents(s.tables.rows, k)
                      == Contents(OnePass(pipe, ids, Written(log, s.high), now).rows, k))
      && s.tables.dead == OnePass(pipe, ids, Written(log, s.high), now).dead
  {
    var s := Run(pipe, log, actions).value;
    RunIsOrdered(pipe, log, actions);
    RunIsExact(pipe, ids, log, actions);
    forall k ensures Contents(s.tables.rows, k)
                     == Contents(OnePass(pipe, ids, Written(log, s.high), now).rows, k)
    {
      OnePassRows(pipe, ids, Written(log, s.high), now, k);
    }
    DeadIsOnePass(pipe, ids, log, s.tables.dead, s.high, now);
  }

  /** How polls, retries and crashes cut the log up does not show: only the written offsets do. */
  lemma PollingDoesNotShow(pipe: Pipeline, ids: Registry, log: Log, a: seq<Action>, b: seq<Action>, k: RowKey)
    requires Produced(pipe, log) && Injective(ids)
    requires Run(pipe, log, a).Some? && Run(pipe, log, b).Some?
    requires forall x :: x in a || x in b ==> UsesRegistry(x, ids)
    requires Run(pipe, log, a).value.high == Run(pipe, log, b).value.high
    ensures Contents(Run(pipe, log, a).value.tables.rows, k) == Contents(Run(pipe, log, b).value.tables.rows, k)
    ensures Run(pipe, log, a).value.tables.dead == Run(pipe, log, b).value.tables.dead
  {
    EffectivelyOnceTheorem(pipe, ids, log, a, 0);
    EffectivelyOnceTheorem(pipe, ids, log, b, 0);
  }

  /** A transaction never aborts because of what it writes. */
  lemma PendingBatchIsWritable(pipe: Pipeline, ids: Registry, log: Log, actions: seq<Action>, w: int, now: Time)
    requires Produced(pipe, log) && Injective(ids)
    requires Run(pipe, log, actions).Some? && IsWriting(Run(pipe, log, actions).value, w)
    requires forall a :: a in actions ==> UsesRegistry(a, ids)
    ensures Run(pipe, log, actions + [WriteCommitted(w, ids, now)]).Some?
  {
    RunIsOrdered(pipe, log, actions);
    RunIsExact(pipe, ids, log, actions);
    var s := Run(pipe, log, actions).value;
    WriteKeepsExact(pipe, ids, log, s, w, now);
    WriteCommittedStep(pipe, log, s, w, ids, now, AfterWrite(pipe, log, s, w, ids, now).value);
    RunSnoc(pipe, log, actions, WriteCommitted(w, ids, now));
  }
}
