/**
 One batch, one transaction: what `Worker._write_batch` leaves in the data table
 and in `dead_letter_events`, as a function of the records and the registry.
 */
module BatchWrite {
  import opened Wrappers
  import opened Sequences
  import opened Events
  import opened Batching
  import opened Repository
  import ApplicationResolver

  // ----- Dead letters -----

  datatype DeadLetter = DeadLetter(key: Option<string>, payload: Option<seq<Byte>>, reason: string)

  type DeadTable = map<Coordinates, DeadLetter>

  const MAX_PAYLOAD_BYTES: nat := 65536
  const MAX_KEY_CHARS: nat := 1024
  const TRUNCATION_NOTE: string := " [payload truncated]"

  function At(r: Record): Coordinates { Coordinates(r.topic, r.partition, r.offset) }

  function Clamp(payload: Option<seq<Byte>>): (Option<seq<Byte>>, bool) {
    if payload.None? || |payload.value| <= MAX_PAYLOAD_BYTES then (payload, false)
    else (Some(payload.value[..MAX_PAYLOAD_BYTES]), true)
  }

  function ClipKey(key: Option<string>): Option<string> {
    if key.None? || |key.value| <= MAX_KEY_CHARS then key else Some(key.value[..MAX_KEY_CHARS])
  }

  function LetterOf(r: RejectedRecord): DeadLetter {
    var (payload, truncated) := Clamp(r.source.value);
    DeadLetter(ClipKey(r.source.key), payload, r.reason + (if truncated then TRUNCATION_NOTE else ""))
  }

  /** A stored payload is the message, cut at the limit, and the reason says so exactly when it was cut. */
  lemma LetterKeepsMessage(r: RejectedRecord)
    ensures var l := LetterOf(r);
      && (l.payload.Some? <==> r.source.value.Some?)
      && (l.payload.Some? ==> |l.payload.value| <= MAX_PAYLOAD_BYTES && l.payload.value <= r.source.value.value)
      && (l.reason == r.reason <==> l.payload == r.source.value)
      && r.reason <= l.reason
  {
  }

  /** `DeadLetterRepository.record`: insert-once on the Kafka coordinates. */
  function RecordDead(dead: DeadTable, rejected: seq<RejectedRecord>): DeadTable {
    if rejected == [] then dead
    else
      var before, r := RecordDead(dead, Front(rejected)), Last(rejected);
      if At(r.source) in before then before else before[At(r.source) := LetterOf(r)]
  }

  function LetterAt(dead: DeadTable, c: Coordinates): Option<DeadLetter> {
    if c in dead then Some(dead[c]) else None
  }

  /** Recorded letters stay; a new one appears exactly where something was rejected. */
  lemma {:induction false} RecordDeadMeaning(dead: DeadTable, rejected: seq<RejectedRecord>, c: Coordinates)
    ensures c in dead ==> LetterAt(RecordDead(dead, rejected), c) == Some(dead[c])
    ensures c !in dead && c in RecordDead(dead, rejected) ==>
      exists i :: 0 <= i < |rejected| && At(rejected[i].source) == c
                  && RecordDead(dead, rejected)[c] == LetterOf(rejected[i])
    ensures (exists i :: 0 <= i < |rejected| && At(rejected[i].source) == c) ==> c in RecordDead(dead, rejected)
  {
    if rejected == [] {
    } else {
      var f := Front(rejected);
      RecordDeadMeaning(dead, f, c);
      assert rejected == f + [Last(rejected)];
      if c !in dead && c in RecordDead(dead, f) {
        var i :| 0 <= i < |f| && At(f[i].source) == c && RecordDead(dead, f)[c] == LetterOf(f[i]);
        assert rejected[i] == f[i];
      }
      if exists i :: 0 <= i < |rejected| && At(rejected[i].source) == c {
        var i :| 0 <= i < |rejected| && At(rejected[i].source) == c;
        if i < |f| { assert f[i] == rejected[i]; }
      }
    }
  }

  // ----- A batch -----

  datatype Pipeline = Pipeline(kind: Kind, decode: Decoder)

  /** The decoder of a pipeline produces that pipeline's events. */
  ghost predicate WellTyped(pipe: Pipeline) {
    forall v :: pipe.decode(v).Ok? ==> pipe.decode(v).value.Kind() == pipe.kind
  }

  datatype Tables = Tables(rows: Table, dead: DeadTable)

  function BoundOf(pipe: Pipeline, ids: Registry, records: seq<Record>): seq<BoundRecord> {
    Bound(ids, Accepted(pipe.decode, records))
  }

  function RejectedOf(pipe: Pipeline, ids: Registry, records: seq<Record>): seq<RejectedRecord> {
    Undecodable(pipe.decode, records) + Unknown(ids, Accepted(pipe.decode, records))
  }

  /** `_write_batch`, committed at time `now`. */
  function WriteBatch(pipe: Pipeline, ids: Registry, t: Tables, records: seq<Record>, now: Time)
    : Result<Tables, string>
  {
    match Upsert(pipe.kind, t.rows, Dedupe(BoundOf(pipe, ids, records)), now)
    case Err(e) => Err(e)
    case Ok(w) => Ok(Tables(w.table, RecordDead(t.dead, RejectedOf(pipe, ids, records))))
  }

  // ----- One record at a time -----

  datatype Fate = Stored(row: BoundRecord) | Refused(reason: string)

  function FateOf(pipe: Pipeline, ids: Registry, r: Record): Fate {
    match pipe.decode(r.value)
    case Err(reason) => Refused(reason)
    case Ok(event) =>
      if event.packageName in ids then Stored(BoundRecord(r, event, ids[event.packageName]))
      else Refused(UnknownReason(event.packageName))
  }

  predicate StoredAt(pipe: Pipeline, ids: Registry, r: Record, k: RowKey) {
    var fate := FateOf(pipe, ids, r);
    fate.Stored? && fate.row.RowKey() == k
  }

  /** What a sequence of records makes of the row with key `k`. */
  function FoldRecords(pipe: Pipeline, ids: Registry, c: Option<Columns>, records: seq<Record>, k: RowKey)
    : Option<Columns>
  {
    if records == [] then c
    else
      var before := FoldRecords(pipe, ids, c, Front(records), k);
      if StoredAt(pipe, ids, Last(records), k)
      then Put(pipe.kind, before, FateOf(pipe, ids, Last(records)).row.Columns()) else before
  }

  function LetterFor(pipe: Pipeline, ids: Registry, r: Record): Option<DeadLetter> {
    match FateOf(pipe, ids, r)
    case Stored(_) => None
    case Refused(reason) => Some(LetterOf(RejectedRecord(r, reason)))
  }

  predicate StoredAs(pipe: Pipeline, ids: Registry, r: Record, b: BoundRecord) {
    FateOf(pipe, ids, r) == Stored(b)
  }

  predicate RefusedAs(pipe: Pipeline, ids: Registry, r: Record, x: RejectedRecord) {
    r == x.source && FateOf(pipe, ids, r) == Refused(x.reason)
  }

  lemma {:induction false} BoundMembers(pipe: Pipeline, ids: Registry, records: seq<Record>, b: BoundRecord)
    ensures b in BoundOf(pipe, ids, records) <==> b.source in records && StoredAs(pipe, ids, b.source, b)
  {
    if records == [] {
    } else {
      BoundMembers(pipe, ids, Front(records), b);
      BoundSnoc(pipe, ids, records);
      assert records == Front(records) + [Last(records)];
    }
  }

  lemma BoundSnoc(pipe: Pipeline, ids: Registry, records: seq<Record>)
    requires records != []
    ensures BoundOf(pipe, ids, records) == BoundOf(pipe, ids, Front(records))
      + (match FateOf(pipe, ids, Last(records)) case Stored(b) => [b] case Refused(_) => [])
  {
    var d, r := Accepted(pipe.decode, Front(records)), Last(records);
    if pipe.decode(r.value).Ok? {
      Snoc(d, DecodedRecord(r, pipe.decode(r.value).value));
    }
  }

  lemma {:induction false} FoldRecordsIsFold(
      pipe: Pipeline, ids: Registry, c: Option<Columns>, records: seq<Record>, k: RowKey)
    ensures FoldRecords(pipe, ids, c, records, k) == Fold(pipe.kind, c, BoundOf(pipe, ids, records), k)
  {
    if records == [] {
    } else {
      FoldRecordsIsFold(pipe, ids, c, Front(records), k);
      BoundSnoc(pipe, ids, records);
      var front := BoundOf(pipe, ids, Front(records));
      if FateOf(pipe, ids, Last(records)).Stored? {
        Snoc(front, FateOf(pipe, ids, Last(records)).row);
      } else {
        assert front + [] == front;
      }
    }
  }

  lemma {:induction false} RejectedMembers(pipe: Pipeline, ids: Registry, records: seq<Record>, x: RejectedRecord)
    ensures x in RejectedOf(pipe, ids, records) <==> x.source in records && RefusedAs(pipe, ids, x.source, x)
  {
    if records == [] {
    } else {
      RejectedMembers(pipe, ids, Front(records), x);
      RejectedSnoc(pipe, ids, records, x);
      assert records == Front(records) + [Last(records)];
    }
  }

  lemma RejectedSnoc(pipe: Pipeline, ids: Registry, records: seq<Record>, x: RejectedRecord)
    requires records != []
    ensures x in RejectedOf(pipe, ids, records) <==>
      x in RejectedOf(pipe, ids, Front(records)) || RefusedAs(pipe, ids, Last(records), x)
  {
    var d, r := Accepted(pipe.decode, Front(records)), Last(records);
    if pipe.decode(r.value).Ok? {
      Snoc(d, DecodedRecord(r, pipe.decode(r.value).value));
    }
  }

  /** Every record is stored or refused, once. */
  lemma {:induction false} RecordsPartition(pipe: Pipeline, ids: Registry, records: seq<Record>)
    ensures |BoundOf(pipe, ids, records)| + |RejectedOf(pipe, ids, records)| == |records|
  {
    if records == [] {
    } else {
      RecordsPartition(pipe, ids, Front(records));
      var d, r := Accepted(pipe.decode, Front(records)), Last(records);
      if pipe.decode(r.value).Ok? {
        Snoc(d, DecodedRecord(r, pipe.decode(r.value).value));
      }
    }
  }

  // ----- A batch is its records, one at a time -----

  predicate Injective(ids: Registry) {
    forall a, b :: a in ids && b in ids && ids[a] == ids[b] ==> a == b
  }

  /** Messages that share an `analysis_id` are redeliveries of one message. */
  ghost predicate Redeliveries(pipe: Pipeline, records: seq<Record>) {
    pipe.kind == NetworkMetricKind ==>
      forall a, b :: a in records && b in records ==> SameMessage(pipe, a, b)
  }

  ghost predicate SameMessage(pipe: Pipeline, a: Record, b: Record) {
    var da, db := pipe.decode(a.value), pipe.decode(b.value);
    da.Ok? && db.Ok? && da.value.ConflictKey() == db.value.ConflictKey() ==> da.value == db.value
  }

  lemma KeysOneToOne(pipe: Pipeline, ids: Registry, records: seq<Record>)
    requires WellTyped(pipe) && Injective(ids)
    ensures OneToOne(BoundOf(pipe, ids, records))
  {
    var rs := BoundOf(pipe, ids, records);
    forall i, j | 0 <= i < |rs| && 0 <= j < |rs| ensures SameKey(rs[i], rs[j]) {
      BoundMembers(pipe, ids, records, rs[i]);
      BoundMembers(pipe, ids, records, rs[j]);
    }
  }

  lemma {:induction false} FirstMember(rs: seq<BoundRecord>, k: RowKey)
    ensures FirstOf(rs, k).Some? ==> FirstOf(rs, k).value in rs && FirstOf(rs, k).value.RowKey() == k
  {
    if rs == [] {
    } else {
      FirstMember(Front(rs), k);
    }
  }

  /** Redeliveries make every batch coherent; `app_stats` needs no such help. */
  lemma BatchIsCoherent(pipe: Pipeline, ids: Registry, records: seq<Record>, table: Table)
    requires WellTyped(pipe) && Injective(ids) && Redeliveries(pipe, records)
    ensures Coherent(pipe.kind, table, BoundOf(pipe, ids, records))
  {
    var rs := BoundOf(pipe, ids, records);
    forall k | pipe.kind != ReviewKind && FirstOf(rs, k).Some? && FreshestOf(rs, k).Some?
      ensures FirstOf(rs, k).value.Columns() == FreshestOf(rs, k).value.Columns()
    {
      FirstMember(rs, k);
      FreshestMember(rs, k);
      var a, b := FirstOf(rs, k).value, FreshestOf(rs, k).value;
      BoundMembers(pipe, ids, records, a);
      BoundMembers(pipe, ids, records, b);
      if pipe.kind == AppStatsKind {
        SameTimeSameRecord(pipe, ids, records, k);
      } else {
        assert SameMessage(pipe, a.source, b.source);
      }
    }
  }

  /** Rows of `app_stats` with one key were observed at one time, so the first is the freshest. */
  lemma SameTimeSameRecord(pipe: Pipeline, ids: Registry, records: seq<Record>, k: RowKey)
    requires WellTyped(pipe) && pipe.kind == AppStatsKind
    ensures FirstOf(BoundOf(pipe, ids, records), k) == FreshestOf(BoundOf(pipe, ids, records), k)
  {
    var rs := BoundOf(pipe, ids, records);
    forall i | 0 <= i < |rs| && rs[i].RowKey() == k ensures k.AppStatsRow? && ObsOf(rs[i]) == k.crawledAt {
      BoundMembers(pipe, ids, records, rs[i]);
    }
    FirstIsFreshest(rs, k);
  }

  lemma {:induction false} FirstIsFreshest(rs: seq<BoundRecord>, k: RowKey)
    requires forall i :: 0 <= i < |rs| && rs[i].RowKey() == k ==> k.AppStatsRow? && ObsOf(rs[i]) == k.crawledAt
    ensures FirstOf(rs, k) == FreshestOf(rs, k)
    ensures FirstOf(rs, k).Some? ==> k.AppStatsRow? && ObsOf(FirstOf(rs, k).value) == k.crawledAt
  {
    if rs == [] {
    } else {
      FirstIsFreshest(Front(rs), k);
    }
  }

  /** The batch's effect on one row is that of its records written in order. */
  lemma BatchFolds(pipe: Pipeline, ids: Registry, t: Tables, records: seq<Record>, now: Time)
    requires WellTyped(pipe) && Injective(ids) && Redeliveries(pipe, records)
    ensures WriteBatch(pipe, ids, t, records, now).Ok?
    ensures forall k :: Contents(WriteBatch(pipe, ids, t, records, now).value.rows, k)
                        == FoldRecords(pipe, ids, Contents(t.rows, k), records, k)
  {
    var rs := BoundOf(pipe, ids, records);
    KeysOneToOne(pipe, ids, records);
    BatchIsCoherent(pipe, ids, records, t.rows);
    BatchEqualsStream(pipe.kind, t.rows, rs, now);
    forall k ensures Contents(WriteBatch(pipe, ids, t, records, now).value.rows, k)
                     == FoldRecords(pipe, ids, Contents(t.rows, k), records, k)
    {
      StreamFolds(pipe.kind, t.rows, rs, now, k);
      FoldRecordsIsFold(pipe, ids, Contents(t.rows, k), records, k);
    }
  }

  // ----- Asking only for the names of the batch -----

  function NamesOf(records: seq<DecodedRecord>): set<string> {
    set r | r in records :: r.event.packageName
  }

  /** Looking up only the names a batch mentions binds it as the whole registry would. */
  lemma {:induction false} BatchNamesSuffice(ids: Registry, records: seq<DecodedRecord>, wanted: set<string>)
    requires NamesOf(records) <= wanted
    ensures Bound(ApplicationResolver.Lookup(ids, wanted), records) == Bound(ids, records)
    ensures Unknown(ApplicationResolver.Lookup(ids, wanted), records) == Unknown(ids, records)
  {
    if records == [] {
    } else {
      assert Last(records) in records;
      assert forall r :: r in Front(records) ==> r in records;
      BatchNamesSuffice(ids, Front(records), wanted);
      assert Last(records).event.packageName in wanted;
    }
  }
}
