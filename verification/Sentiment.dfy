/**
 The sentiment job: sentiment/runtime/sentiment_service.py over the keyset pages
 of sentiment/persistence/review_repository.py and the batch classifier of
 sentiment/core/classifier.py. The model is a function from a text to a raw label.
 */
module Sentiment {
  import opened Wrappers

  datatype Label = POSITIVE | NEUTRAL | NEGATIVE

  datatype Review = Review(content: Option<string>, sentiment: Option<Label>)

  type Reviews = map<int, Review>

  type Model = string -> string

  /** `LABEL_MAP` */
  function MapLabel(raw: string): Option<Label> {
    if raw in {"positive", "Positive", "POSITIVE", "LABEL_2"} then Some(POSITIVE)
    else if raw in {"neutral", "Neutral", "NEUTRAL", "LABEL_1"} then Some(NEUTRAL)
    else if raw in {"negative", "Negative", "NEGATIVE", "LABEL_0"} then Some(NEGATIVE)
    else None
  }

  /** The characters `str.strip` removes. */
  predicate IsSpace(c: char) {
    var n := c as int;
    || 9 <= n <= 13 || 28 <= n <= 32 || n == 0x85 || n == 0xA0 || n == 0x1680
    || 0x2000 <= n <= 0x200A || n == 0x2028 || n == 0x2029 || n == 0x202F || n == 0x205F || n == 0x3000
  }

  function StripLeft(s: string): string {
    if s != [] && IsSpace(s[0]) then StripLeft(s[1..]) else s
  }

  function StripRight(s: string): string {
    if s != [] && IsSpace(s[|s| - 1]) then StripRight(s[..|s| - 1]) else s
  }

  function Strip(s: string): string { StripRight(StripLeft(s)) }

  lemma {:induction false} AllSpaceStripsEmpty(s: string)
    ensures Strip(s) == [] <==> forall i :: 0 <= i < |s| ==> IsSpace(s[i])
  {
    if s != [] && IsSpace(s[0]) {
      AllSpaceStripsEmpty(s[1..]);
      assert s == [s[0]] + s[1..];
    } else if s != [] {
      StripRightKeeps(s);
    }
  }

  lemma {:induction false} StripRightKeeps(s: string)
    requires s != [] && !IsSpace(s[0])
    ensures StripRight(s) != []
  {
    if IsSpace(s[|s| - 1]) { StripRightKeeps(s[..|s| - 1]); }
  }

  // ----- Classifying a batch -----

  /** The label of one text on its own; `None` when there is nothing to classify. */
  function LabelOf(model: Model, text: string): Option<Label> {
    if Strip(text) == [] then None else MapLabel(model(Strip(text)))
  }

  predicate Recognised(model: Model, text: string) {
    Strip(text) != [] ==> MapLabel(model(Strip(text))).Some?
  }

  /** `classify_batch`: filter, classify together, scatter back by index. */
  method ClassifyBatch(model: Model, texts: seq<string>) returns (r: Result<seq<Option<Label>>, string>)
    ensures r.Ok? <==> forall i :: 0 <= i < |texts| ==> Recognised(model, texts[i])
    ensures r.Ok? ==> |r.value| == |texts|
    ensures r.Ok? ==> forall i :: 0 <= i < |texts| ==> r.value[i] == LabelOf(model, texts[i])
  {
    var results := new Option<Label>[|texts|](_ => None);
    var indexed: seq<(nat, string)> := [];
    for i := 0 to |texts|
      invariant Indexes(texts, indexed, i)
      invariant forall j :: 0 <= j < |texts| ==> results[j] == None
    {
      var stripped := Strip(texts[i]);
      IndexesNext(texts, indexed, i);
      if stripped == [] {
        continue;
      }
      indexed := indexed + [(i, stripped)];
    }
    if indexed == [] {
      ScatteredAll(model, texts, indexed, results[..]);
      return Ok(results[..]);
    }
    var outputs := seq(|indexed|, n requires 0 <= n < |indexed| => model(indexed[n].1));
    for n := 0 to |indexed|
      invariant Scattered(model, texts, indexed, results[..], n)
    {
      var index := indexed[n].0;
      var mapped := MapLabel(outputs[n]);
      if mapped.None? {
        assert !Recognised(model, texts[index]);
        return Err("Unrecognized model label");
      }
      ScatteredNext(model, texts, indexed, results[..], n);
      results[index] := mapped;
    }
    ScatteredAll(model, texts, indexed, results[..]);
    return Ok(results[..]);
  }

  /** The first `n` outputs are in place; every text not indexed still has no label. */
  ghost predicate Scattered(model: Model, texts: seq<string>, indexed: seq<(nat, string)>,
                            results: seq<Option<Label>>, n: nat) {
    && Indexes(texts, indexed, |texts|) && n <= |indexed| && |results| == |texts|
    && (forall m :: 0 <= m < n ==> PlacedAt(model, texts, results, indexed[m].0))
    && (forall i :: 0 <= i < |texts| && Strip(texts[i]) == [] ==> results[i] == None)
  }

  predicate PlacedAt(model: Model, texts: seq<string>, results: seq<Option<Label>>, i: nat) {
    i < |texts| && i < |results| && Recognised(model, texts[i]) && results[i] == LabelOf(model, texts[i])
  }

  lemma ScatteredNext(model: Model, texts: seq<string>, indexed: seq<(nat, string)>, results: seq<Option<Label>>,
                      n: nat)
    requires Scattered(model, texts, indexed, results, n) && n < |indexed|
    requires MapLabel(model(indexed[n].1)).Some?
    ensures Scattered(model, texts, indexed, results[indexed[n].0 := MapLabel(model(indexed[n].1))], n + 1)
  {
  }

  /** Once every output is in place, so is every text. */
  lemma ScatteredAll(model: Model, texts: seq<string>, indexed: seq<(nat, string)>, results: seq<Option<Label>>)
    requires Scattered(model, texts, indexed, results, |indexed|)
    ensures forall i :: 0 <= i < |texts| ==> Recognised(model, texts[i]) && results[i] == LabelOf(model, texts[i])
  {
  }

  /** `indexed` lists, in order, the texts before `n` that have something to classify. */
  ghost predicate Indexes(texts: seq<string>, indexed: seq<(nat, string)>, n: nat) {
    && n <= |texts|
    && (forall m :: 0 <= m < |indexed| ==>
          indexed[m].0 < n && indexed[m].1 == Strip(texts[indexed[m].0]) && indexed[m].1 != [])
    && (forall l, m :: 0 <= l < m < |indexed| ==> indexed[l].0 < indexed[m].0)
    && (forall i :: 0 <= i < n && Strip(texts[i]) != [] ==> IsIndexed(indexed, i))
  }

  predicate IsIndexed(indexed: seq<(nat, string)>, i: nat) {
    exists m :: 0 <= m < |indexed| && indexed[m].0 == i
  }

  lemma IndexesNext(texts: seq<string>, indexed: seq<(nat, string)>, i: nat)
    requires i < |texts| && Indexes(texts, indexed, i)
    ensures Strip(texts[i]) == [] ==> Indexes(texts, indexed, i + 1)
    ensures Strip(texts[i]) != [] ==> Indexes(texts, indexed + [(i, Strip(texts[i]))], i + 1)
  {
    var grown := indexed + [(i, Strip(texts[i]))];
    forall j | 0 <= j < i && IsIndexed(indexed, j) ensures IsIndexed(grown, j) {
      var m :| 0 <= m < |indexed| && indexed[m].0 == j;
      assert grown[m].0 == j;
    }
    assert grown[|indexed|].0 == i;
  }

  // ----- Pages -----

  predicate Eligible(reviews: Reviews, id: int) {
    id in reviews && reviews[id].content.Some? && reviews[id].content.value != ""
  }

  /** The eligible ids above the cursor. */
  function Ahead(reviews: Reviews, after: int): set<int> {
    set id | id in reviews && Eligible(reviews, id) && id > after
  }

  predicate IsLeast(x: int, s: set<int>) {
    x in s && forall y :: y in s ==> x <= y
  }

  lemma {:induction false} LeastExists(s: set<int>, x: int) returns (least: int)
    requires x in s
    ensures IsLeast(least, s)
    decreases |s|
  {
    if y :| y in s && y < x {
      least := LeastExists(s - {x}, y);
      assert least <= y;
      forall z | z in s ensures least <= z { assert z == x || z in s - {x}; }
    } else {
      least := x;
    }
  }

  function Least(s: set<int>): (x: int)
    requires exists y :: y in s
    ensures IsLeast(x, s)
  {
    assert exists y :: IsLeast(y, s) by {
      var some :| some in s;
      var least := LeastExists(s, some);
    }
    var y :| IsLeast(y, s);
    y
  }

  /** `fetch_batch`: the first `size` eligible ids above the cursor, ascending. */
  method FetchBatch(reviews: Reviews, size: nat, after: int) returns (page: seq<(int, string)>)
    ensures IsFullPage(reviews, after, size, page)
    ensures size > 0 ==> (page == [] <==> Ahead(reviews, after) == {})
  {
    page := [];
    var rest := Ahead(reviews, after);
    while |page| < size && exists id :: id in rest
      invariant |page| <= size
      invariant IsPage(reviews, after, page)
      invariant rest == Ahead(reviews, CursorAfter(after, page))
      invariant page == [] ==> rest == Ahead(reviews, after)
      decreases size - |page|
    {
      var id := Least(rest);
      PageGrows(reviews, after, page, id);
      page := page + [(id, reviews[id].content.value)];
      rest := Ahead(reviews, id);
    }
  }

  function CursorAfter(after: int, page: seq<(int, string)>): int {
    if page == [] then after else page[|page| - 1].0
  }

  /** Ascending eligible rows above `after`, skipping none up to the last. */
  ghost predicate IsPage(reviews: Reviews, after: int, page: seq<(int, string)>) {
    && (forall i :: 0 <= i < |page| ==>
          page[i].0 in Ahead(reviews, after) && reviews[page[i].0].content == Some(page[i].1))
    && (forall i, j :: 0 <= i < j < |page| ==> page[i].0 < page[j].0)
    && (forall id :: id in Ahead(reviews, after) && id <= CursorAfter(after, page) ==> OnPage(page, id))
  }

  /** A page of `size` rows, or of all there are. */
  ghost predicate IsFullPage(reviews: Reviews, after: int, size: nat, page: seq<(int, string)>) {
    && IsPage(reviews, after, page) && |page| <= size
    && (|page| < size ==> Ahead(reviews, CursorAfter(after, page)) == {})
  }

  predicate OnPage(page: seq<(int, string)>, id: int) {
    exists i :: 0 <= i < |page| && page[i].0 == id
  }

  lemma PageGrows(reviews: Reviews, after: int, page: seq<(int, string)>, id: int)
    requires IsPage(reviews, after, page)
    requires id in Ahead(reviews, CursorAfter(after, page))
    requires forall x :: x in Ahead(reviews, CursorAfter(after, page)) ==> id <= x
    ensures IsPage(reviews, after, page + [(id, reviews[id].content.value)])
  {
    var page' := page + [(id, reviews[id].content.value)];
    assert after <= CursorAfter(after, page);
    forall x | x in Ahead(reviews, after) && x <= id ensures OnPage(page', x) {
      if x <= CursorAfter(after, page) {
        var i :| 0 <= i < |page| && page[i].0 == x;
        assert page'[i].0 == x;
      } else {
        assert x in Ahead(reviews, CursorAfter(after, page));
        assert page'[|page|].0 == x;
      }
    }
  }

  // ----- The job -----

  /** What the whole job should leave: every eligible row above `after` labelled on its own. */
  function Labelled(model: Model, reviews: Reviews, after: int): Reviews {
    map id | id in reviews ::
      if Eligible(reviews, id) && id > after
      then reviews[id].(sentiment := Some(FinalLabel(model, reviews[id].content.value)))
      else reviews[id]
  }

  /** An unclassifiable text is NEUTRAL. */
  function FinalLabel(model: Model, text: string): Label {
    match LabelOf(model, text)
    case Some(found) => found
    case None => NEUTRAL
  }

  predicate AllRecognised(model: Model, reviews: Reviews, after: int) {
    forall id :: id in Ahead(reviews, after) ==> Recognised(model, reviews[id].content.value)
  }

  /** `update_sentiments`: set the label of each listed row. */
  function Update(reviews: Reviews, results: seq<(int, Label)>): Reviews {
    if results == [] then reviews
    else
      var before, last := Update(reviews, results[..|results| - 1]), results[|results| - 1];
      if last.0 in before then before[last.0 := before[last.0].(sentiment := Some(last.1))] else before
  }

  ghost predicate LabelsPage(model: Model, page: seq<(int, string)>, results: seq<(int, Label)>) {
    |results| == |page| && forall i :: 0 <= i < |page| ==> results[i] == (page[i].0, FinalLabel(model, page[i].1))
  }

  function RowAfter(model: Model, reviews: Reviews, page: seq<(int, string)>, id: int): Review
    requires id in reviews
  {
    var row := reviews[id];
    if OnPage(page, id) && row.content.Some? then row.(sentiment := Some(FinalLabel(model, row.content.value))) else row
  }

  /** After the first `n` results, exactly the first `n` rows of the page carry their labels. */
  lemma {:induction false} UpdateMeaning(model: Model, reviews: Reviews, after: int, page: seq<(int, string)>,
                                         results: seq<(int, Label)>, n: nat, id: int)
    requires IsPage(reviews, after, page) && LabelsPage(model, page, results) && n <= |page|
    ensures Update(reviews, results[..n]).Keys == reviews.Keys
    ensures id in reviews ==>
      Update(reviews, results[..n])[id] == RowAfter(model, reviews, page[..n], id)
  {
    if n == 0 {
    } else {
      UpdateMeaning(model, reviews, after, page, results, n - 1, id);
      UpdateNext(reviews, results, n - 1);
      assert page[n - 1].0 in Ahead(reviews, after);
      if id in reviews { RowNext(model, reviews, after, page, results, n - 1, id); }
    }
  }

  /** The next result labels its own row and no other. */
  lemma RowNext(model: Model, reviews: Reviews, after: int, page: seq<(int, string)>,
                results: seq<(int, Label)>, n: nat, id: int)
    requires IsPage(reviews, after, page) && LabelsPage(model, page, results) && n < |page| && id in reviews
    ensures RowAfter(model, reviews, page[..n + 1], id)
         == if results[n].0 == id then RowAfter(model, reviews, page[..n], id).(sentiment := Some(results[n].1))
            else RowAfter(model, reviews, page[..n], id)
  {
    OnPageNext(page, n, id);
    assert page[n].0 in Ahead(reviews, after) && reviews[page[n].0].content == Some(page[n].1);
  }

  lemma UpdateNext(reviews: Reviews, results: seq<(int, Label)>, n: nat)
    requires n < |results|
    ensures var before, last := Update(reviews, results[..n]), results[n];
      Update(reviews, results[..n + 1])
      == if last.0 in before then before[last.0 := before[last.0].(sentiment := Some(last.1))] else before
  {
    assert results[..n + 1][..n] == results[..n];
  }

  lemma OnPageNext(page: seq<(int, string)>, n: nat, id: int)
    requires n < |page|
    ensures OnPage(page[..n + 1], id) <==> OnPage(page[..n], id) || page[n].0 == id
  {
  }

  /** Labelling a page and then everything after it is labelling everything. */
  lemma PageThenRest(model: Model, reviews: Reviews, after: int, page: seq<(int, string)>, results: seq<(int, Label)>)
    requires IsPage(reviews, after, page) && LabelsPage(model, page, results) && page != []
    ensures var updated, cursor := Update(reviews, results), CursorAfter(after, page);
      && after < cursor
      && Labelled(model, updated, cursor) == Labelled(model, reviews, after)
      && Ahead(updated, cursor) == Ahead(reviews, cursor)
      && (AllRecognised(model, reviews, cursor) <==> AllRecognised(model, updated, cursor))
  {
    var updated, cursor := Update(reviews, results), CursorAfter(after, page);
    assert results[..|page|] == results && page[..|page|] == page;
    assert page[|page| - 1].0 in Ahead(reviews, after);
    forall id
      ensures updated.Keys == reviews.Keys
      ensures id in reviews ==> updated[id] == RowAfter(model, reviews, page, id)
    {
      UpdateMeaning(model, reviews, after, page, results, |page|, id);
    }
    forall id | id in reviews ensures Eligible(updated, id) <==> Eligible(reviews, id) {}
    forall id | id in reviews ensures Labelled(model, updated, cursor)[id] == Labelled(model, reviews, after)[id] {
      RowOfPage(reviews, after, page, id);
    }
  }

  /** Which rows a page holds. */
  lemma RowOfPage(reviews: Reviews, after: int, page: seq<(int, string)>, id: int)
    requires IsPage(reviews, after, page) && page != []
    ensures OnPage(page, id) <==> id in Ahead(reviews, after) && id <= CursorAfter(after, page)
  {
  }

  function IdsOf(page: seq<(int, string)>): seq<int> {
    seq(|page|, i requires 0 <= i < |page| => page[i].0)
  }

  datatype CycleResult = Worked | NothingLeft | ClassificationFailed

  /** How a cycle over this page ends. */
  function Concluded(model: Model, page: seq<(int, string)>): CycleResult {
    if page == [] then NothingLeft
    else if forall i :: 0 <= i < |page| ==> Recognised(model, page[i].1) then Worked
    else ClassificationFailed
  }

  class SentimentService {
    const model: Model
    const batchSize: nat
    const dryRun: bool
    var reviews: Reviews
    var afterId: int
    /** The ids the job has processed, in order. */
    ghost var visited: seq<int>

    constructor (model: Model, batchSize: nat, dryRun: bool, reviews: Reviews)
      ensures this.model == model && this.batchSize == batchSize && this.dryRun == dryRun
      ensures this.reviews == reviews && afterId == 0 && visited == []
    {
      this.model, this.batchSize, this.dryRun, this.reviews := model, batchSize, dryRun, reviews;
      afterId := 0;
      visited := [];
    }

    /** Classify a page and pair each label with its row, NEUTRAL where there is none. */
    method ClassifyPage(rows: seq<(int, string)>) returns (r: Result<seq<(int, Label)>, string>)
      ensures r.Ok? <==> forall i :: 0 <= i < |rows| ==> Recognised(model, rows[i].1)
      ensures r.Ok? ==> LabelsPage(model, rows, r.value)
    {
      var texts := seq(|rows|, i requires 0 <= i < |rows| => rows[i].1);
      var labels := ClassifyBatch(model, texts);
      if labels.Err? {
        assert exists i :: 0 <= i < |rows| && !Recognised(model, texts[i]);
        return Err(labels.error);
      }
      forall i | 0 <= i < |rows| ensures Recognised(model, rows[i].1) { assert texts[i] == rows[i].1; }
      return Ok(seq(|rows|, i requires 0 <= i < |rows| && i < |labels.value| =>
                      (rows[i].0, if labels.value[i].None? then NEUTRAL else labels.value[i].value)));
    }

    /** `run_batch_cycle`: one full page, all of it or, if a label is not recognised, none of it. */
    method RunBatchCycle() returns (r: CycleResult, ghost page: seq<(int, string)>)
      modifies this
      ensures IsFullPage(old(reviews), old(afterId), batchSize, page)
      ensures r == Concluded(model, page)
      ensures r == Worked ==> afterId == CursorAfter(old(afterId), page) && visited == old(visited) + IdsOf(page)
      ensures r == Worked ==>
        && batchSize > 0 && old(afterId) < afterId
        && afterId in Ahead(old(reviews), old(afterId))
        && (dryRun ==> reviews == old(reviews))
        && (!dryRun ==> Labelled(model, reviews, afterId) == Labelled(model, old(reviews), old(afterId)))
        && Ahead(reviews, afterId) == Ahead(old(reviews), afterId)
        && (AllRecognised(model, old(reviews), old(afterId)) <==> AllRecognised(model, reviews, afterId))
        && Visits(old(reviews), old(afterId), afterId, old(visited), visited)
      ensures r != Worked ==> reviews == old(reviews) && afterId == old(afterId) && visited == old(visited)
      ensures r == NothingLeft ==> batchSize > 0 ==> Ahead(reviews, afterId) == {}
      ensures r == ClassificationFailed ==> batchSize > 0 && !AllRecognised(model, reviews, afterId)
    {
      var rows := FetchBatch(reviews, batchSize, afterId);
      page := rows;
      if rows == [] {
        return NothingLeft, page;
      }
      var labels := ClassifyPage(rows);
      if labels.Err? {
        UnrecognisedRow(model, reviews, afterId, rows);
        return ClassificationFailed, page;
      }
      var results := labels.value;
      PageThenRest(model, reviews, afterId, rows, results);
      AheadOfPage(model, reviews, afterId, rows);
      VisitPage(reviews, afterId, rows, visited);
      visited := visited + IdsOf(rows);
      afterId := rows[|rows| - 1].0;
      if dryRun {
        return Worked, page;
      }
      reviews := Update(reviews, results);
      return Worked, page;
    }

    /** `main`'s loop: cycles until there is nothing left or a label is not recognised. */
    method RunJob() returns (ok: bool)
      requires afterId == 0 && visited == []
      modifies this
      ensures !dryRun && batchSize > 0 && ok ==> reviews == Labelled(model, old(reviews), 0)
      ensures !dryRun ==> Labelled(model, reviews, afterId) == Labelled(model, old(reviews), 0)
      ensures dryRun || batchSize == 0 ==> reviews == old(reviews)
      ensures batchSize > 0 && ok ==> VisitedExactly(visited, Ahead(old(reviews), 0))
      ensures batchSize > 0 ==> (ok <==> AllRecognised(model, old(reviews), 0))
      ensures batchSize == 0 ==> ok && visited == []
    {
      ghost var start := reviews;
      while true
        invariant !dryRun ==> Labelled(model, reviews, afterId) == Labelled(model, start, 0)
        invariant dryRun || batchSize == 0 ==> reviews == start
        invariant Ahead(reviews, afterId) == Ahead(start, afterId)
        invariant batchSize > 0 ==> (AllRecognised(model, start, 0) <==> AllRecognised(model, reviews, afterId))
        invariant 0 <= afterId
        invariant Visits(start, 0, afterId, [], visited)
        invariant batchSize == 0 ==> visited == []
        decreases |Ahead(reviews, afterId)|
      {
        ghost var reviews0, after0, visited0 := reviews, afterId, visited;
        var r, _ := RunBatchCycle();
        match r {
          case Worked =>
            FewerAhead(reviews0, after0, afterId);
            SameAhead(reviews0, start, after0, afterId);
            VisitsCompose(start, reviews0, after0, afterId, visited0, visited);
          case NothingLeft =>
            if batchSize > 0 {
              NothingAhead(model, reviews, afterId);
              VisitedAll(start, afterId, visited);
            }
            return true;
          case ClassificationFailed =>
            return false;
        }
      }
    }
  }

  lemma UnrecognisedRow(model: Model, reviews: Reviews, after: int, rows: seq<(int, string)>)
    requires IsPage(reviews, after, rows)
    requires !(forall i :: 0 <= i < |rows| ==> Recognised(model, rows[i].1))
    ensures !AllRecognised(model, reviews, after)
  {
  }

  /** Past a page whose labels are all recognised, what is left to recognise is what was. */
  lemma AheadOfPage(model: Model, reviews: Reviews, after: int, page: seq<(int, string)>)
    requires IsPage(reviews, after, page) && page != []
    requires forall i :: 0 <= i < |page| ==> Recognised(model, page[i].1)
    ensures var cursor := CursorAfter(after, page);
      && cursor in Ahead(reviews, after)
      && (AllRecognised(model, reviews, after) <==> AllRecognised(model, reviews, cursor))
  {
    var cursor := CursorAfter(after, page);
    assert page[|page| - 1].0 in Ahead(reviews, after);
    forall id | id in Ahead(reviews, after) && id <= cursor ensures Recognised(model, reviews[id].content.value) {
      var i :| 0 <= i < |page| && page[i].0 == id;
      assert reviews[page[i].0].content == Some(page[i].1);
    }
  }

  /** Between `after` and `upTo`, `visited` grew by exactly the eligible ids, ascending. */
  ghost predicate Visits(reviews: Reviews, after: int, upTo: int, before: seq<int>, visited: seq<int>) {
    && before <= visited
    && (forall i, j :: |before| <= i < j < |visited| ==> visited[i] < visited[j])
    && (forall i :: |before| <= i < |visited| ==> visited[i] in Ahead(reviews, after) && visited[i] <= upTo)
    && (forall id :: id in Ahead(reviews, after) && id <= upTo ==> Appears(visited, |before|, id))
  }

  predicate Appears(visited: seq<int>, lo: nat, id: int) {
    exists i :: lo <= i < |visited| && visited[i] == id
  }

  /** Every id of `ids` once, and nothing else, in ascending order. */
  ghost predicate VisitedExactly(visited: seq<int>, ids: set<int>) {
    && (forall i, j :: 0 <= i < j < |visited| ==> visited[i] < visited[j])
    && (forall id :: id in ids <==> id in visited)
  }

  lemma VisitPage(reviews: Reviews, after: int, page: seq<(int, string)>, before: seq<int>)
    requires IsPage(reviews, after, page) && page != []
    ensures Visits(reviews, after, CursorAfter(after, page), before, before + IdsOf(page))
  {
    var visited := before + IdsOf(page);
    forall id | id in Ahead(reviews, after) && id <= CursorAfter(after, page) ensures Appears(visited, |before|, id) {
      var i :| 0 <= i < |page| && page[i].0 == id;
      assert visited[|before| + i] == id;
    }
    forall i | |before| <= i < |visited|
      ensures visited[i] in Ahead(reviews, after) && visited[i] <= CursorAfter(after, page)
    {
      assert page[i - |before|].0 in Ahead(reviews, after);
      assert i - |before| == |page| - 1 || page[i - |before|].0 < page[|page| - 1].0;
    }
  }

  lemma FewerAhead(reviews: Reviews, after: int, cursor: int)
    requires cursor in Ahead(reviews, after)
    ensures |Ahead(reviews, cursor)| < |Ahead(reviews, after)|
  {
    var more, fewer := Ahead(reviews, after), Ahead(reviews, cursor);
    assert fewer <= more - {cursor};
    assert more - {cursor} == fewer + (more - {cursor} - fewer);
  }

  lemma SameAhead(a: Reviews, b: Reviews, after: int, cursor: int)
    requires Ahead(a, after) == Ahead(b, after) && after <= cursor
    ensures Ahead(a, cursor) == Ahead(b, cursor)
  {
    forall id ensures id in Ahead(a, cursor) <==> id in Ahead(b, cursor) {
      assert id in Ahead(a, cursor) <==> id in Ahead(a, after) && id > cursor;
      assert id in Ahead(b, cursor) <==> id in Ahead(b, after) && id > cursor;
    }
  }

  lemma VisitsCompose(start: Reviews, reviews: Reviews, mid: int, upTo: int, before: seq<int>, visited: seq<int>)
    requires Visits(start, 0, mid, [], before) && Visits(reviews, mid, upTo, before, visited)
    requires Ahead(reviews, mid) == Ahead(start, mid) && 0 <= mid <= upTo
    ensures Visits(start, 0, upTo, [], visited)
  {
    forall id | id in Ahead(start, 0) && id <= upTo ensures Appears(visited, 0, id) {
      if id <= mid {
        var i :| 0 <= i < |before| && before[i] == id;
        assert visited[i] == id;
      } else {
        assert id in Ahead(reviews, mid);
        var i :| |before| <= i < |visited| && visited[i] == id;
      }
    }
    forall i | 0 <= i < |visited| ensures visited[i] in Ahead(start, 0) && visited[i] <= upTo {
      if i < |before| {
        assert visited[i] == before[i];
      } else {
        assert visited[i] in Ahead(start, mid);
      }
    }
    forall i, j | 0 <= i < j < |visited| ensures visited[i] < visited[j] {
      if i < |before| { assert visited[i] == before[i] && before[i] <= mid; }
      if j < |before| { assert visited[j] == before[j]; } else { assert visited[j] in Ahead(reviews, mid); }
    }
  }

  lemma NothingAhead(model: Model, reviews: Reviews, after: int)
    requires Ahead(reviews, after) == {}
    ensures Labelled(model, reviews, after) == reviews
  {
    forall id | id in reviews ensures Labelled(model, reviews, after)[id] == reviews[id] {
      assert id !in Ahead(reviews, after);
    }
  }

  lemma VisitedAll(start: Reviews, upTo: int, visited: seq<int>)
    requires Visits(start, 0, upTo, [], visited) && Ahead(start, upTo) == {}
    ensures VisitedExactly(visited, Ahead(start, 0))
  {
    forall id | id in Ahead(start, 0) ensures id in visited {
      assert id !in Ahead(start, upTo);
      var i :| 0 <= i < |visited| && visited[i] == id;
    }
  }

  /** Eligible rows get their own label, whitespace is NEUTRAL, and every other row is untouched. */
  lemma LabelledMeaning(model: Model, reviews: Reviews, id: int)
    requires id in reviews && id > 0
    ensures var row, after := reviews[id], Labelled(model, reviews, 0)[id];
      && after.content == row.content
      && (!Eligible(reviews, id) ==> after == row)
      && (Eligible(reviews, id) && (forall i :: 0 <= i < |row.content.value| ==> IsSpace(row.content.value[i]))
          ==> after.sentiment == Some(NEUTRAL))
      && (Eligible(reviews, id) && Recognised(model, row.content.value) && Strip(row.content.value) != []
          ==> after.sentiment == MapLabel(model(Strip(row.content.value))))
  {
    if Eligible(reviews, id) { AllSpaceStripsEmpty(reviews[id].content.value); }
  }
}
