/**
 The writers of storage_consumer/persistence: what one INSERT ... ON CONFLICT
 statement does to a table, and what a deduplicated batch leaves behind.
 */
module Repository {
  import opened Wrappers
  import opened Sequences
  import opened Events
  import opened Batching

  /** `firstSeenAt` and `sentiment` are columns of `reviews` that no INSERT here supplies. */
  datatype Row = Row(columns: Columns, firstSeenAt: Time, sentiment: Option<string>)

  type Table = map<RowKey, Row>

  /** What the statement's RETURNING clause says of one row. */
  datatype Mark = Inserted | Updated | Skipped

  datatype Written = Written(table: Table, marks: seq<Mark>)

  datatype WriteOutcome = WriteOutcome(inserted: nat, updated: nat, skipped: nat)

  const PAGE_SIZE: nat := 1000

  /** The guard of the reviews' DO UPDATE; the other two tables DO NOTHING. */
  predicate Supersedes(kind: Kind, incoming: Columns, stored: Columns) {
    kind == ReviewKind && incoming.ObservedAt() > stored.ObservedAt()
  }

  /** One row meeting the table at transaction time `now`. */
  function WriteRow(kind: Kind, w: Written, r: BoundRecord, now: Time): Written {
    var k := r.RowKey();
    if k !in w.table then
      Written(w.table[k := Row(r.Columns(), now, None)], w.marks + [Inserted])
    else if Supersedes(kind, r.Columns(), w.table[k].columns) then
      Written(w.table[k := w.table[k].(columns := r.Columns())], w.marks + [Updated])
    else
      Written(w.table, w.marks + [Skipped])
  }

  /** Rows written one statement each, in order. */
  function Stream(kind: Kind, table: Table, rs: seq<BoundRecord>, now: Time): (w: Written)
    ensures |w.marks| == |rs|
  {
    if rs == [] then Written(table, [])
    else WriteRow(kind, Stream(kind, table, Front(rs), now), Last(rs), now)
  }

  predicate Touched(rs: seq<BoundRecord>, marks: seq<Mark>, k: RowKey) {
    exists i :: 0 <= i < |rs| && i < |marks| && rs[i].RowKey() == k && marks[i] != Skipped
  }

  /**
   One multi-row statement. A DO UPDATE that meets a row the same statement has
   already inserted or updated aborts.
   */
  function Statement(kind: Kind, table: Table, rs: seq<BoundRecord>, now: Time): (w: Result<Written, string>)
    ensures w.Ok? ==> w.value == Stream(kind, table, rs, now)
  {
    if rs == [] then Ok(Written(table, []))
    else
      match Statement(kind, table, Front(rs), now)
      case Err(e) => Err(e)
      case Ok(w) =>
        if kind == ReviewKind && Touched(Front(rs), w.marks, Last(rs).RowKey())
        then Err("ON CONFLICT DO UPDATE command cannot affect row a second time")
        else Ok(WriteRow(kind, w, Last(rs), now))
  }

  /** `Repository.upsert`: pages of rows, each its own statement, in one transaction. */
  function Upsert(kind: Kind, table: Table, rs: seq<BoundRecord>, now: Time): Result<Written, string>
    decreases |rs|
  {
    if |rs| <= PAGE_SIZE then Statement(kind, table, rs, now)
    else
      match Statement(kind, table, rs[..PAGE_SIZE], now)
      case Err(e) => Err(e)
      case Ok(page) =>
        match Upsert(kind, page.table, rs[PAGE_SIZE..], now)
        case Err(e) => Err(e)
        case Ok(rest) => Ok(Written(rest.table, page.marks + rest.marks))
  }

  function Count(marks: seq<Mark>, m: Mark): nat {
    if marks == [] then 0 else Count(Front(marks), m) + (if Last(marks) == m then 1 else 0)
  }

  function OutcomeOf(rows: nat, marks: seq<Mark>): WriteOutcome
    requires |marks| == rows
  {
    CountsAddUp(marks);
    WriteOutcome(Count(marks, Inserted), Count(marks, Updated), rows - Count(marks, Inserted) - Count(marks, Updated))
  }

  lemma {:induction false} CountsAddUp(marks: seq<Mark>)
    ensures Count(marks, Inserted) + Count(marks, Updated) + Count(marks, Skipped) == |marks|
  {
    if marks == [] {
    } else {
      CountsAddUp(Front(marks));
    }
  }

  // ----- When a statement aborts -----

  predicate DistinctRows(rs: seq<BoundRecord>) {
    forall i, j :: 0 <= i < j < |rs| ==> rs[i].RowKey() != rs[j].RowKey()
  }

  lemma {:induction false} StatementAccepts(kind: Kind, table: Table, rs: seq<BoundRecord>, now: Time)
    requires kind == ReviewKind ==> DistinctRows(rs)
    ensures Statement(kind, table, rs, now) == Ok(Stream(kind, table, rs, now))
  {
    if rs == [] {
    } else {
      StatementAccepts(kind, table, Front(rs), now);
    }
  }

  /** Paging does not show: the pages together write what one pass writes. */
  lemma {:induction false} UpsertIsStream(kind: Kind, table: Table, rs: seq<BoundRecord>, now: Time)
    requires kind == ReviewKind ==> DistinctRows(rs)
    ensures Upsert(kind, table, rs, now) == Ok(Stream(kind, table, rs, now))
    decreases |rs|
  {
    if |rs| <= PAGE_SIZE {
      StatementAccepts(kind, table, rs, now);
    } else {
      var page, rest := rs[..PAGE_SIZE], rs[PAGE_SIZE..];
      StatementAccepts(kind, table, page, now);
      UpsertIsStream(kind, Stream(kind, table, page, now).table, rest, now);
      StreamConcat(kind, table, page, rest, now);
      assert rs == page + rest;
    }
  }

  lemma {:induction false} StreamConcat(kind: Kind, table: Table, a: seq<BoundRecord>, b: seq<BoundRecord>, now: Time)
    ensures var first := Stream(kind, table, a, now);
      var second := Stream(kind, first.table, b, now);
      Stream(kind, table, a + b, now) == Written(second.table, first.marks + second.marks)
  {
    if b == [] {
      assert a + b == a;
    } else {
      StreamConcat(kind, table, a, Front(b), now);
      assert a + b == (a + Front(b)) + [Last(b)];
      Snoc(a + Front(b), Last(b));
      var first := Stream(kind, table, a, now);
      var second := Stream(kind, first.table, Front(b), now);
      MarksFollow(kind, second.table, first.marks, second.marks, Last(b), now);
      assert second == Written(second.table, second.marks);
    }
  }

  /** What a row does does not depend on the marks before it. */
  lemma MarksFollow(kind: Kind, table: Table, before: seq<Mark>, marks: seq<Mark>, r: BoundRecord, now: Time)
    ensures var w := WriteRow(kind, Written(table, marks), r, now);
      WriteRow(kind, Written(table, before + marks), r, now) == Written(w.table, before + w.marks)
  {
  }

  /** Would this row be inserted, or update the row stored? */
  predicate Touches(table: Table, r: BoundRecord) {
    r.RowKey() !in table || Supersedes(ReviewKind, r.Columns(), table[r.RowKey()].columns)
  }

  /** Some row of the page touches the table, and its key is offered again. */
  predicate OffersTouchedAgain(table: Table, rs: seq<BoundRecord>) {
    exists i, j :: 0 <= i < j < |rs| && rs[i].RowKey() == rs[j].RowKey() && Touches(table, rs[i])
  }

  predicate SomeTouches(table: Table, rs: seq<BoundRecord>, k: RowKey) {
    exists i :: 0 <= i < |rs| && rs[i].RowKey() == k && Touches(table, rs[i])
  }

  /** What a page has touched so far can be read off the table it started from. */
  lemma {:induction false} TouchedFromTheStart(table: Table, rs: seq<BoundRecord>, now: Time, k: RowKey)
    ensures var w := Stream(ReviewKind, table, rs, now);
      && (Touched(rs, w.marks, k) <==> SomeTouches(table, rs, k))
      && (!SomeTouches(table, rs, k) ==> Contents(w.table, k) == Contents(table, k))
  {
    if rs == [] {
    } else {
      var f, r := Front(rs), Last(rs);
      TouchedFromTheStart(table, f, now, k);
      TouchedNext(Stream(ReviewKind, table, f, now), f, r, now, k);
      assert rs == f + [r];
      assert SomeTouches(table, rs, k) <==> SomeTouches(table, f, k) || (r.RowKey() == k && Touches(table, r));
    }
  }

  lemma TouchedNext(w: Written, f: seq<BoundRecord>, r: BoundRecord, now: Time, k: RowKey)
    requires |w.marks| == |f|
    ensures var w' := WriteRow(ReviewKind, w, r, now);
      && (Touched(f + [r], w'.marks, k) <==> Touched(f, w.marks, k) || (r.RowKey() == k && Touches(w.table, r)))
      && (!(r.RowKey() == k && Touches(w.table, r)) ==> Contents(w'.table, k) == Contents(w.table, k))
  {
    var rs, w' := f + [r], WriteRow(ReviewKind, w, r, now);
    if Touched(f, w.marks, k) {
      var i :| 0 <= i < |f| && i < |w.marks| && f[i].RowKey() == k && w.marks[i] != Skipped;
      assert rs[i] == f[i] && w'.marks[i] == w.marks[i];
    }
    assert rs[|f|] == r;
    assert w'.marks[|f|] != Skipped <==> Touches(w.table, r);
  }

  lemma OffersNext(table: Table, f: seq<BoundRecord>, r: BoundRecord)
    ensures OffersTouchedAgain(table, f + [r]) <==> OffersTouchedAgain(table, f) || SomeTouches(table, f, r.RowKey())
  {
    var rs := f + [r];
    if OffersTouchedAgain(table, f) {
      var i, j :| 0 <= i < j < |f| && f[i].RowKey() == f[j].RowKey() && Touches(table, f[i]);
      assert rs[i].RowKey() == rs[j].RowKey();
    }
    if SomeTouches(table, f, r.RowKey()) {
      var i :| 0 <= i < |f| && f[i].RowKey() == r.RowKey() && Touches(table, f[i]);
      assert rs[i].RowKey() == rs[|f|].RowKey();
    }
  }

  /**
   A page aborts exactly when it is of reviews, one of its rows is new to the
   table or newer than the row stored, and the key of that row comes again.
   */
  lemma {:induction false} StatementAborts(kind: Kind, table: Table, rs: seq<BoundRecord>, now: Time)
    ensures Statement(kind, table, rs, now).Err? <==> kind == ReviewKind && OffersTouchedAgain(table, rs)
  {
    if rs == [] {
    } else {
      StatementAborts(kind, table, Front(rs), now);
      TouchedFromTheStart(table, Front(rs), now, Last(rs).RowKey());
      assert rs == Front(rs) + [Last(rs)];
      OffersNext(table, Front(rs), Last(rs));
    }
  }

  /** Some page offers a touched row again, each page meeting the table its predecessors left. */
  predicate SomePageRepeats(table: Table, rs: seq<BoundRecord>, now: Time)
    decreases |rs|
  {
    if |rs| <= PAGE_SIZE then OffersTouchedAgain(table, rs)
    else
      || OffersTouchedAgain(table, rs[..PAGE_SIZE])
      || SomePageRepeats(Stream(ReviewKind, table, rs[..PAGE_SIZE], now).table, rs[PAGE_SIZE..], now)
  }

  /** Why `dedupe_by_key` is mandatory: a batch aborts exactly when some page repeats a row it has touched. */
  lemma {:induction false} RepeatedReviewAborts(kind: Kind, table: Table, rs: seq<BoundRecord>, now: Time)
    ensures Upsert(kind, table, rs, now).Err? <==> kind == ReviewKind && SomePageRepeats(table, rs, now)
    decreases |rs|
  {
    if |rs| <= PAGE_SIZE {
      StatementAborts(kind, table, rs, now);
    } else {
      StatementAborts(kind, table, rs[..PAGE_SIZE], now);
      RepeatedReviewAborts(kind, Stream(kind, table, rs[..PAGE_SIZE], now).table, rs[PAGE_SIZE..], now);
    }
  }

  // ----- One key at a time -----

  function Contents(table: Table, k: RowKey): Option<Columns> {
    if k in table then Some(table[k].columns) else None
  }

  function Put(kind: Kind, stored: Option<Columns>, incoming: Columns): Option<Columns> {
    if stored.None? || Supersedes(kind, incoming, stored.value) then Some(incoming) else stored
  }

  /** What a sequence of writes makes of the row with key `k`. */
  function Fold(kind: Kind, c: Option<Columns>, rs: seq<BoundRecord>, k: RowKey): Option<Columns> {
    if rs == [] then c
    else
      var before := Fold(kind, c, Front(rs), k);
      if Last(rs).RowKey() == k then Put(kind, before, Last(rs).Columns()) else before
  }

  lemma {:induction false} StreamFolds(kind: Kind, table: Table, rs: seq<BoundRecord>, now: Time, k: RowKey)
    ensures Contents(Stream(kind, table, rs, now).table, k) == Fold(kind, Contents(table, k), rs, k)
  {
    if rs == [] {
    } else {
      StreamFolds(kind, table, Front(rs), now, k);
    }
  }

  /** No write ever touches the first-seen time or the sentiment of an existing row. */
  lemma {:induction false} StreamKeeps(kind: Kind, table: Table, rs: seq<BoundRecord>, now: Time, k: RowKey)
    ensures k in table ==> k in Stream(kind, table, rs, now).table
    ensures k in Stream(kind, table, rs, now).table ==>
      var row := Stream(kind, table, rs, now).table[k];
      && row.firstSeenAt == (if k in table then table[k].firstSeenAt else now)
      && row.sentiment == (if k in table then table[k].sentiment else None)
  {
    if rs == [] {
    } else {
      StreamKeeps(kind, table, Front(rs), now, k);
    }
  }

  // ----- Batch equals stream -----

  /** Conflict keys and row keys agree, as they do when names and ids are one-to-one. */
  ghost predicate OneToOne(rs: seq<BoundRecord>) {
    forall i, j :: 0 <= i < |rs| && 0 <= j < |rs| ==> SameKey(rs[i], rs[j])
  }

  predicate SameKey(a: BoundRecord, b: BoundRecord) {
    KeyOf(a) == KeyOf(b) <==> a.RowKey() == b.RowKey()
  }

  function FirstOf(rs: seq<BoundRecord>, k: RowKey): Option<BoundRecord> {
    if rs == [] then None
    else if FirstOf(Front(rs), k).Some? then FirstOf(Front(rs), k)
    else if Last(rs).RowKey() == k then Some(Last(rs)) else None
  }

  function FreshestOf(rs: seq<BoundRecord>, k: RowKey): Option<BoundRecord> {
    if rs == [] then None
    else
      var before := FreshestOf(Front(rs), k);
      if Last(rs).RowKey() == k && (before.None? || ObsOf(Last(rs)) > ObsOf(before.value))
      then Some(Last(rs)) else before
  }

  function PutIf(kind: Kind, c: Option<Columns>, r: Option<BoundRecord>): Option<Columns> {
    if r.None? then c else Put(kind, c, r.value.Columns())
  }

  lemma {:induction false} FreshestMember(rs: seq<BoundRecord>, k: RowKey)
    ensures FreshestOf(rs, k).Some? ==>
      exists i :: 0 <= i < |rs| && rs[i] == FreshestOf(rs, k).value && rs[i].RowKey() == k
    ensures FreshestOf(rs, k).None? ==> forall i :: 0 <= i < |rs| ==> rs[i].RowKey() != k
  {
    if rs == [] {
    } else {
      FreshestMember(Front(rs), k);
      assert rs == Front(rs) + [Last(rs)];
      if FreshestOf(Front(rs), k).Some? {
        var i :| 0 <= i < |Front(rs)| && Front(rs)[i] == FreshestOf(Front(rs), k).value && Front(rs)[i].RowKey() == k;
        assert rs[i] == Front(rs)[i];
      }
    }
  }

  lemma {:induction false} WinnerIsFreshest(rs: seq<BoundRecord>, i: nat)
    requires OneToOne(rs) && Wins(rs, i)
    ensures FreshestOf(rs, rs[i].RowKey()) == Some(rs[i])
  {
    var f, k := Front(rs), rs[i].RowKey();
    if i < |f| {
      forall j | 0 <= j < |f| && KeyOf(f[j]) == KeyOf(f[i]) ensures !Beats(f, j, i) {
        assert !Beats(rs, j, i);
      }
      WinnerIsFreshest(f, i);
      assert SameKey(rs[|f|], rs[i]);
    } else {
      FreshestMember(f, k);
      if FreshestOf(f, k).Some? {
        var j :| 0 <= j < |f| && f[j] == FreshestOf(f, k).value && f[j].RowKey() == k;
        assert SameKey(rs[j], rs[i]) && !Beats(rs, j, i);
      }
    }
  }

  /** The kept record of each key is the freshest one. */
  lemma KeptIsFreshest(rs: seq<BoundRecord>, n: nat)
    requires OneToOne(rs) && n < |Dedupe(rs)|
    ensures FreshestOf(rs, Dedupe(rs)[n].RowKey()) == Some(Dedupe(rs)[n])
  {
    DedupeKeepsWinners(rs);
    assert IsWinner(rs, Dedupe(rs)[n]);
    var i: nat :| Wins(rs, i) && rs[i] == Dedupe(rs)[n];
    WinnerIsFreshest(rs, i);
  }

  lemma FreshestIsKept(rs: seq<BoundRecord>, k: RowKey) returns (n: nat)
    requires OneToOne(rs) && FreshestOf(rs, k).Some?
    ensures n < |Dedupe(rs)| && FreshestOf(rs, k) == Some(Dedupe(rs)[n]) && Dedupe(rs)[n].RowKey() == k
  {
    FreshestMember(rs, k);
    var i :| 0 <= i < |rs| && rs[i] == FreshestOf(rs, k).value && rs[i].RowKey() == k;
    DedupeKeepsWinners(rs);
    n := Find(Dedupe(rs), KeyOf(rs[i]));
    assert IsWinner(rs, Dedupe(rs)[n]);
    var w: nat :| Wins(rs, w) && rs[w] == Dedupe(rs)[n];
    assert SameKey(rs[w], rs[i]);
    KeptIsFreshest(rs, n);
  }

  lemma {:induction false} FoldDistinct(kind: Kind, c: Option<Columns>, rs: seq<BoundRecord>, k: RowKey)
    requires DistinctRows(rs)
    ensures (forall i :: 0 <= i < |rs| ==> rs[i].RowKey() != k) ==> Fold(kind, c, rs, k) == c
    ensures forall i :: 0 <= i < |rs| && rs[i].RowKey() == k ==>
      Fold(kind, c, rs, k) == Put(kind, c, rs[i].Columns())
  {
    if rs == [] {
    } else {
      FoldDistinct(kind, c, Front(rs), k);
    }
  }

  lemma DedupedRowsDistinct(rs: seq<BoundRecord>)
    requires OneToOne(rs)
    ensures DistinctRows(Dedupe(rs))
  {
    var kept := Dedupe(rs);
    DedupeKeepsWinners(rs);
    forall i, j | 0 <= i < j < |kept| ensures kept[i].RowKey() != kept[j].RowKey() {
      assert IsWinner(rs, kept[i]) && IsWinner(rs, kept[j]);
      var a: nat :| Wins(rs, a) && rs[a] == kept[i];
      var b: nat :| Wins(rs, b) && rs[b] == kept[j];
      assert SameKey(rs[a], rs[b]);
    }
  }

  /** A deduplicated batch offers each row its freshest record, once. */
  lemma DedupedFold(kind: Kind, c: Option<Columns>, rs: seq<BoundRecord>, k: RowKey)
    requires OneToOne(rs)
    ensures Fold(kind, c, Dedupe(rs), k) == PutIf(kind, c, FreshestOf(rs, k))
  {
    DedupedRowsDistinct(rs);
    FoldDistinct(kind, c, Dedupe(rs), k);
    if FreshestOf(rs, k).Some? {
      var n := FreshestIsKept(rs, k);
    } else {
      forall n | 0 <= n < |Dedupe(rs)| ensures Dedupe(rs)[n].RowKey() != k { KeptIsFreshest(rs, n); }
    }
  }

  /** Written one by one, reviews settle on the freshest record; the other tables keep the first. */
  lemma {:induction false} StreamedFold(kind: Kind, c: Option<Columns>, rs: seq<BoundRecord>, k: RowKey)
    ensures kind == ReviewKind ==> Fold(kind, c, rs, k) == PutIf(kind, c, FreshestOf(rs, k))
    ensures kind != ReviewKind ==> Fold(kind, c, rs, k) == PutIf(kind, c, FirstOf(rs, k))
    ensures FirstOf(rs, k).Some? <==> FreshestOf(rs, k).Some?
  {
    if rs == [] {
    } else {
      StreamedFold(kind, c, Front(rs), k);
      ColumnsKeepObservedAt(Last(rs));
      if FreshestOf(Front(rs), k).Some? { ColumnsKeepObservedAt(FreshestOf(Front(rs), k).value); }
    }
  }

  /**
   A batch may be written as a whole when, for each row that DO NOTHING would
   insert, its first and its freshest record say the same.
   */
  ghost predicate Coherent(kind: Kind, table: Table, rs: seq<BoundRecord>) {
    kind != ReviewKind ==>
      forall k :: k !in table && FirstOf(rs, k).Some? && FreshestOf(rs, k).Some? ==>
        FirstOf(rs, k).value.Columns() == FreshestOf(rs, k).value.Columns()
  }

  /**
   Deduplicating a batch and writing it at once never aborts, and gives the same
   table as writing its records one at a time exactly when the batch is coherent.
   */
  lemma BatchEqualsStream(kind: Kind, table: Table, rs: seq<BoundRecord>, now: Time)
    requires OneToOne(rs)
    ensures (forall k :: FirstOf(rs, k).Some? <==> FreshestOf(rs, k).Some?)
    ensures Upsert(kind, table, Dedupe(rs), now).Ok?
    ensures Upsert(kind, table, Dedupe(rs), now).value.table == Stream(kind, table, rs, now).table
        <==> Coherent(kind, table, rs)
  {
    DedupedRowsDistinct(rs);
    UpsertIsStream(kind, table, Dedupe(rs), now);
    var batch, stream := Stream(kind, table, Dedupe(rs), now).table, Stream(kind, table, rs, now).table;
    forall k ensures Contents(batch, k) == PutIf(kind, Contents(table, k), FreshestOf(rs, k)) {
      StreamFolds(kind, table, Dedupe(rs), now, k);
      DedupedFold(kind, Contents(table, k), rs, k);
    }
    forall k
      ensures FirstOf(rs, k).Some? <==> FreshestOf(rs, k).Some?
      ensures Contents(stream, k)
           == PutIf(kind, Contents(table, k), if kind == ReviewKind then FreshestOf(rs, k) else FirstOf(rs, k))
    {
      StreamFolds(kind, table, rs, now, k);
      StreamedFold(kind, Contents(table, k), rs, k);
    }
    SameContentsSameTable(kind, table, Dedupe(rs), rs, now);
  }

  /** Tables written in one transaction differ only where their contents do. */
  lemma SameContentsSameTable(kind: Kind, table: Table, a: seq<BoundRecord>, b: seq<BoundRecord>, now: Time)
    ensures var ta, tb := Stream(kind, table, a, now).table, Stream(kind, table, b, now).table;
      ta == tb <==> forall k :: Contents(ta, k) == Contents(tb, k)
  {
    var ta, tb := Stream(kind, table, a, now).table, Stream(kind, table, b, now).table;
    if forall k :: Contents(ta, k) == Contents(tb, k) {
      forall k ensures (k in ta <==> k in tb) && (k in ta ==> ta[k] == tb[k]) {
        assert Contents(ta, k) == Contents(tb, k);
        SameContentsSameRow(kind, table, a, b, now, k);
      }
    }
  }

  lemma SameContentsSameRow(kind: Kind, table: Table, a: seq<BoundRecord>, b: seq<BoundRecord>, now: Time, k: RowKey)
    requires Contents(Stream(kind, table, a, now).table, k) == Contents(Stream(kind, table, b, now).table, k)
    ensures var ta, tb := Stream(kind, table, a, now).table, Stream(kind, table, b, now).table;
      (k in ta <==> k in tb) && (k in ta ==> ta[k] == tb[k])
  {
    StreamKeeps(kind, table, a, now, k);
    StreamKeeps(kind, table, b, now, k);
  }
}
