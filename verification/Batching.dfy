/** The three batch transformations of storage_consumer/core/batching.py. */
module Batching {
  import opened Wrappers
  import opened Sequences
  import opened Events

  type Decoder = Option<seq<Byte>> -> Result<Event, string>
  type Registry = map<string, int>

  // ----- What becomes of each record -----

  function Accepted(decode: Decoder, records: seq<Record>): seq<DecodedRecord> {
    if records == [] then []
    else
      var rest, r := Accepted(decode, Front(records)), Last(records);
      match decode(r.value)
      case Ok(event) => rest + [DecodedRecord(r, event)]
      case Err(_) => rest
  }

  function Undecodable(decode: Decoder, records: seq<Record>): seq<RejectedRecord> {
    if records == [] then []
    else
      var rest, r := Undecodable(decode, Front(records)), Last(records);
      match decode(r.value)
      case Ok(_) => rest
      case Err(reason) => rest + [RejectedRecord(r, reason)]
  }

  function Bound(ids: Registry, records: seq<DecodedRecord>): seq<BoundRecord> {
    if records == [] then []
    else
      var rest, r := Bound(ids, Front(records)), Last(records);
      if r.event.packageName in ids then rest + [BoundRecord(r.source, r.event, ids[r.event.packageName])] else rest
  }

  function UnknownReason(packageName: string): string {
    "Unknown package_name '" + packageName + "': no row in apps_registry_application. "
    + "Register the application and replay this offset to store it."
  }

  function Unknown(ids: Registry, records: seq<DecodedRecord>): seq<RejectedRecord> {
    if records == [] then []
    else
      var rest, r := Unknown(ids, Front(records)), Last(records);
      if r.event.packageName in ids then rest
      else rest + [RejectedRecord(r.source, UnknownReason(r.event.packageName))]
  }

  /** What decodes and what does not, each in the order of the records, and nothing else. */
  predicate IsDecoding(decode: Decoder, records: seq<Record>, decoded: seq<DecodedRecord>,
                       rejected: seq<RejectedRecord>)
  {
    && decoded == Accepted(decode, records)
    && rejected == Undecodable(decode, records)
    && |decoded| + |rejected| == |records|
  }

  /** `decode_batch` */
  method DecodeBatch(records: seq<Record>, decode: Decoder)
    returns (decoded: seq<DecodedRecord>, rejected: seq<RejectedRecord>)
    ensures IsDecoding(decode, records, decoded, rejected)
  {
    decoded, rejected := [], [];
    for i := 0 to |records|
      invariant decoded == Accepted(decode, records[..i])
      invariant rejected == Undecodable(decode, records[..i])
      invariant |decoded| + |rejected| == i
    {
      TakeNext(records, i);
      Snoc(records[..i], records[i]);
      match decode(records[i].value) {
        case Err(reason) => rejected := rejected + [RejectedRecord(records[i], reason)];
        case Ok(event) => decoded := decoded + [DecodedRecord(records[i], event)];
      }
    }
    assert records[..|records|] == records;
  }

  /** `bind_application_ids` */
  method BindApplicationIds(records: seq<DecodedRecord>, ids: Registry)
    returns (bound: seq<BoundRecord>, rejected: seq<RejectedRecord>)
    ensures bound == Bound(ids, records)
    ensures rejected == Unknown(ids, records)
    ensures |bound| + |rejected| == |records|
  {
    bound, rejected := [], [];
    for i := 0 to |records|
      invariant bound == Bound(ids, records[..i])
      invariant rejected == Unknown(ids, records[..i])
      invariant |bound| + |rejected| == i
    {
      TakeNext(records, i);
      Snoc(records[..i], records[i]);
      var name := records[i].event.packageName;
      if name !in ids {
        rejected := rejected + [RejectedRecord(records[i].source, UnknownReason(name))];
        continue;
      }
      bound := bound + [BoundRecord(records[i].source, records[i].event, ids[name])];
    }
    assert records[..|records|] == records;
  }

  // ----- Deduplication -----

  function KeyOf(r: BoundRecord): ConflictKey { r.event.ConflictKey() }

  function ObsOf(r: BoundRecord): Time { r.event.ObservedAt() }

  /** Position of the first record with this conflict key, or the length. */
  function Find(rs: seq<BoundRecord>, key: ConflictKey): (i: nat)
    ensures i <= |rs|
    ensures forall j :: 0 <= j < i ==> KeyOf(rs[j]) != key
    ensures i < |rs| ==> KeyOf(rs[i]) == key
  {
    if rs == [] then 0
    else
      var i := Find(Front(rs), key);
      if i < |rs| - 1 || KeyOf(Last(rs)) == key then i else |rs|
  }

  /** One record per conflict key, in order of first appearance. */
  function Dedupe(rs: seq<BoundRecord>): seq<BoundRecord> {
    if rs == [] then [] else Compete(Dedupe(Front(rs)), Last(rs))
  }

  /** A record joins the kept ones, replaces the staler holder of its key, or is dropped. */
  function Compete(kept: seq<BoundRecord>, r: BoundRecord): seq<BoundRecord> {
    var i := Find(kept, KeyOf(r));
    if i == |kept| then kept + [r]
    else if ObsOf(r) > ObsOf(kept[i]) then kept[i := r]
    else kept
  }

  predicate DistinctKeys(rs: seq<BoundRecord>) {
    forall i, j :: 0 <= i < j < |rs| ==> KeyOf(rs[i]) != KeyOf(rs[j])
  }

  /** Record `i` is the earliest of the freshest records with its key. */
  ghost predicate Wins(rs: seq<BoundRecord>, i: nat) {
    && i < |rs|
    && forall j :: 0 <= j < |rs| && KeyOf(rs[j]) == KeyOf(rs[i]) ==> !Beats(rs, j, i)
  }

  predicate Beats(rs: seq<BoundRecord>, j: nat, i: nat)
    requires i < |rs| && j < |rs|
  {
    ObsOf(rs[j]) > ObsOf(rs[i]) || (ObsOf(rs[j]) == ObsOf(rs[i]) && j < i)
  }

  ghost predicate IsWinner(rs: seq<BoundRecord>, r: BoundRecord) {
    exists i: nat :: Wins(rs, i) && rs[i] == r
  }

  predicate EveryKeyKept(rs: seq<BoundRecord>, kept: seq<BoundRecord>) {
    forall i :: 0 <= i < |rs| ==> Find(kept, KeyOf(rs[i])) < |kept|
  }

  ghost predicate AllWinners(rs: seq<BoundRecord>, kept: seq<BoundRecord>) {
    forall n :: 0 <= n < |kept| ==> IsWinner(rs, kept[n])
  }

  /** One record per key, the freshest, and of those the earliest. */
  ghost predicate KeepsWinners(rs: seq<BoundRecord>, kept: seq<BoundRecord>) {
    DistinctKeys(kept) && EveryKeyKept(rs, kept) && AllWinners(rs, kept) && |kept| <= |rs|
  }

  /** Deduplication keeps exactly the winners. */
  lemma {:induction false} DedupeKeepsWinners(rs: seq<BoundRecord>)
    ensures KeepsWinners(rs, Dedupe(rs))
  {
    if rs == [] {
    } else {
      DedupeKeepsWinners(Front(rs));
      CompeteKeepsWinners(Front(rs), Dedupe(Front(rs)), Last(rs));
      assert rs == Front(rs) + [Last(rs)];
    }
  }

  lemma CompeteKeepsWinners(rs: seq<BoundRecord>, kept: seq<BoundRecord>, r: BoundRecord)
    requires KeepsWinners(rs, kept)
    ensures KeepsWinners(rs + [r], Compete(kept, r))
  {
    CompeteDistinct(kept, r);
    CompeteCovers(rs, kept, r);
    forall n | 0 <= n < |Compete(kept, r)| ensures IsWinner(rs + [r], Compete(kept, r)[n]) {
      CompeteWinner(rs, kept, r, n);
    }
  }

  lemma CompeteDistinct(kept: seq<BoundRecord>, r: BoundRecord)
    requires DistinctKeys(kept)
    ensures DistinctKeys(Compete(kept, r))
  {
  }

  lemma FindSame(a: seq<BoundRecord>, i: nat, key: ConflictKey)
    requires i < |a| && KeyOf(a[i]) == key
    ensures Find(a, key) <= i
  {
  }

  lemma CompeteCovers(rs: seq<BoundRecord>, kept: seq<BoundRecord>, r: BoundRecord)
    requires EveryKeyKept(rs, kept)
    ensures EveryKeyKept(rs + [r], Compete(kept, r))
  {
    var kept' := Compete(kept, r);
    forall j | 0 <= j < |rs + [r]| ensures Find(kept', KeyOf((rs + [r])[j])) < |kept'| {
      var key := KeyOf((rs + [r])[j]);
      FindSame(kept', Find(kept, key), key);
    }
  }

  lemma CompeteWinner(rs: seq<BoundRecord>, kept: seq<BoundRecord>, r: BoundRecord, n: nat)
    requires KeepsWinners(rs, kept)
    requires n < |Compete(kept, r)|
    ensures IsWinner(rs + [r], Compete(kept, r)[n])
  {
    var i := Find(kept, KeyOf(r));
    if n == i && (i == |kept| || ObsOf(r) > ObsOf(kept[i])) {
      NewWinner(rs, kept, r);
    } else {
      assert kept[n] == Compete(kept, r)[n];
      assert IsWinner(rs, kept[n]);
      var j: nat :| Wins(rs, j) && rs[j] == kept[n];
      OldWinner(rs, r, j);
      assert (rs + [r])[j] == kept[n];
    }
  }

  lemma OldWinner(rs: seq<BoundRecord>, r: BoundRecord, j: nat)
    requires Wins(rs, j)
    requires KeyOf(r) != KeyOf(rs[j]) || ObsOf(r) <= ObsOf(rs[j])
    ensures Wins(rs + [r], j)
  {
  }

  lemma NewWinner(rs: seq<BoundRecord>, kept: seq<BoundRecord>, r: BoundRecord)
    requires EveryKeyKept(rs, kept) && AllWinners(rs, kept)
    requires var i := Find(kept, KeyOf(r)); i == |kept| || ObsOf(r) > ObsOf(kept[i])
    ensures IsWinner(rs + [r], r)
  {
    var i := Find(kept, KeyOf(r));
    var rs' := rs + [r];
    forall j | 0 <= j < |rs'| && KeyOf(rs'[j]) == KeyOf(r) ensures !Beats(rs', j, |rs|) {
      if j < |rs| {
        assert Find(kept, KeyOf(rs[j])) < |kept|;
        assert IsWinner(rs, kept[i]);
        var w: nat :| Wins(rs, w) && rs[w] == kept[i];
        assert !Beats(rs, j, w);
      }
    }
    assert Wins(rs', |rs|) && rs'[|rs|] == r;
  }

  /** `dedupe_by_key` */
  method DedupeByKey(records: seq<BoundRecord>) returns (rows: seq<BoundRecord>)
    ensures rows == Dedupe(records)
  {
    var winners: map<ConflictKey, BoundRecord> := map[];
    var order: seq<ConflictKey> := [];
    for i := 0 to |records|
      invariant Tracks(winners, order, Dedupe(records[..i]))
    {
      TakeNext(records, i);
      Snoc(records[..i], records[i]);
      var r := records[i];
      var key := KeyOf(r);
      TracksCompete(winners, order, Dedupe(records[..i]), r);
      if key !in winners {
        winners := winners[key := r];
        order := order + [key];
      } else if ObsOf(r) > ObsOf(winners[key]) {
        winners := winners[key := r];
      }
    }
    assert records[..|records|] == records;
    forall i | 0 <= i < |order| ensures order[i] in winners && winners[order[i]] == Dedupe(records)[i] {
      assert TracksAt(winners, order, Dedupe(records), i);
    }
    rows := seq(|order|, i requires 0 <= i < |order| && order[i] in winners => winners[order[i]]);
  }

  /** The dictionary and the key order together hold the deduplicated list. */
  ghost predicate Tracks(winners: map<ConflictKey, BoundRecord>, order: seq<ConflictKey>, kept: seq<BoundRecord>) {
    && |order| == |kept|
    && (forall i :: 0 <= i < |order| ==> TracksAt(winners, order, kept, i))
    && (forall i, j :: 0 <= i < j < |order| ==> order[i] != order[j])
    && (forall key :: key in winners ==> key in order)
  }

  predicate TracksAt(winners: map<ConflictKey, BoundRecord>, order: seq<ConflictKey>, kept: seq<BoundRecord>, i: nat)
    requires i < |order| && i < |kept|
  {
    order[i] == KeyOf(kept[i]) && order[i] in winners && winners[order[i]] == kept[i]
  }

  lemma TracksCompete(winners: map<ConflictKey, BoundRecord>, order: seq<ConflictKey>, kept: seq<BoundRecord>,
                      r: BoundRecord)
    requires Tracks(winners, order, kept)
    ensures KeyOf(r) !in winners ==> Tracks(winners[KeyOf(r) := r], order + [KeyOf(r)], Compete(kept, r))
    ensures KeyOf(r) in winners && ObsOf(r) > ObsOf(winners[KeyOf(r)])
      ==> Tracks(winners[KeyOf(r) := r], order, Compete(kept, r))
    ensures KeyOf(r) in winners && ObsOf(r) <= ObsOf(winners[KeyOf(r)]) ==> Tracks(winners, order, Compete(kept, r))
  {
    var key, i := KeyOf(r), Find(kept, KeyOf(r));
    if i < |kept| {
      assert TracksAt(winners, order, kept, i);
    } else if key in winners {
      var j :| 0 <= j < |order| && order[j] == key;
      assert TracksAt(winners, order, kept, j);
    }
    var winners', kept' := winners[key := r], Compete(kept, r);
    var order' := if key in winners then order else order + [key];
    if key !in winners || ObsOf(r) > ObsOf(winners[key]) {
      forall j | 0 <= j < |order'| ensures TracksAt(winners', order', kept', j) {
        if j < |order| && j != i { assert TracksAt(winners, order, kept, j); }
      }
      forall j | 0 <= j < |order| ensures key !in winners ==> order[j] != key {
        assert TracksAt(winners, order, kept, j);
      }
      forall k | k in winners' ensures k in order' {
        assert k == key || k in order;
        if key !in winners { assert order'[|order|] == key; }
      }
    }
  }
}
