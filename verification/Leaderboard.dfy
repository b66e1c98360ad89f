/**
 Order and paging of the leaderboard (backend/app/modules/analytics/leaderboard.py).
 `casefold` is a parameter: everything holds for any normalisation of strings.
 */
module Leaderboard {
  import opened Options
  import opened Ordering
  import opened Sequences

  type Casefold = string -> string

  /** A value that a row offers for sorting; one field is either text or numeric on all rows. */
  datatype Value = Missing | Numeric(number: real) | Textual(text: string)

  datatype Row = Row(
    runId: string, displayName: string, modelName: string, dataset: string, status: string, createdAt: string,
    sampleCount: int, score: Option<real>, averageLatency: Option<real>, p95Latency: Option<real>,
    estimatedCost: Option<real>, namedMetrics: map<string, Option<real>>)

  const COMPLETED: set<string> := {"completed", "completed_with_errors"}

  const METRIC_NAMES: set<string> := {
    "score", "accuracy", "precision_macro", "recall_macro", "f1_macro", "exact_match", "normalized_exact_match",
    "token_f1", "bleu", "rouge_l", "llm_judge", "pass@1", "perplexity", "completion_rate", "success_rate", "error_rate",
    "average_latency_ms", "p50_latency_ms", "p95_latency_ms", "p99_latency_ms", "input_tokens", "output_tokens",
    "estimated_cost"
  }

  const SORT_FIELDS: set<string> := {
    "default", "name", "model", "dataset", "status", "created_at", "score", "average_latency_ms", "p95_latency_ms",
    "estimated_cost", "sample_count"
  } + METRIC_NAMES

  /** The fields that name an attribute of the row rather than a metric. */
  const ROW_FIELDS: set<string> := {
    "name", "model", "dataset", "status", "created_at", "sample_count", "score", "average_latency_ms",
    "p95_latency_ms", "estimated_cost"
  }

  const MAX_PAGE_SIZE: int := 100

  // ---------- Comparators ----------

  function CompareNumbers(left: real, right: real): int {
    if left < right then -1 else if right < left then 1 else 0
  }

  /** `<` and `==` of two normalised values; Python would reject a mixed pair. */
  function CompareKnown(left: Value, right: Value): int
    requires !left.Missing? && !right.Missing?
  {
    match (left, right)
    case (Numeric(x), Numeric(y)) => CompareNumbers(x, y)
    case (Textual(s), Textual(t)) => CompareText(s, t)
    case (Numeric(_), _) => -1
    case _ => 1
  }

  function Normalised(value: Value, fold: Casefold): Value {
    if value.Textual? then Textual(fold(value.text)) else value
  }

  /** `_compare_values`. */
  function CompareValues(left: Value, right: Value, ascending: bool, fold: Casefold): int {
    if left.Missing? || right.Missing? then
      if left.Missing? && right.Missing? then 0 else if left.Missing? then 1 else -1
    else
      var result := CompareKnown(Normalised(left, fold), Normalised(right, fold));
      if ascending then result else -result
  }

  function OfOption(value: Option<real>): Value {
    match value case None => Missing case Some(x) => Numeric(x)
  }

  predicate Completed(row: Row) {
    row.status in COMPLETED
  }

  predicate Ranked(row: Row) {
    Completed(row) && row.score.Some?
  }

  function CompareIds(left: Row, right: Row, fold: Casefold): int {
    CompareValues(Textual(left.runId), Textual(right.runId), true, fold)
  }

  /** Newest first, then by id. */
  function CompareDated(left: Row, right: Row, fold: Casefold): int {
    Then(CompareValues(Textual(left.createdAt), Textual(right.createdAt), false, fold), CompareIds(left, right, fold))
  }

  function CompareRanked(left: Row, right: Row, fold: Casefold): int {
    Then(CompareValues(OfOption(left.score), OfOption(right.score), false, fold),
    Then(CompareValues(OfOption(left.p95Latency), OfOption(right.p95Latency), true, fold),
    Then(CompareValues(OfOption(left.estimatedCost), OfOption(right.estimatedCost), true, fold),
         CompareDated(left, right, fold))))
  }

  function CompareUnranked(left: Row, right: Row, fold: Casefold): int {
    if Completed(left) != Completed(right) then if Completed(left) then -1 else 1
    else CompareDated(left, right, fold)
  }

  /** `_compare_default`. */
  function CompareDefault(left: Row, right: Row, fold: Casefold): int {
    if Ranked(left) != Ranked(right) then if Ranked(left) then -1 else 1
    else if Ranked(left) then CompareRanked(left, right, fold)
    else CompareUnranked(left, right, fold)
  }

  function SortValue(row: Row, field: string): Value {
    match field
    case "name" => Textual(row.displayName)
    case "model" => Textual(row.modelName)
    case "dataset" => Textual(row.dataset)
    case "status" => Textual(row.status)
    case "created_at" => Textual(row.createdAt)
    case "sample_count" => Numeric(row.sampleCount as real)
    case "score" => OfOption(row.score)
    case "average_latency_ms" => OfOption(row.averageLatency)
    case "p95_latency_ms" => OfOption(row.p95Latency)
    case "estimated_cost" => OfOption(row.estimatedCost)
    case _ => if field in row.namedMetrics then OfOption(row.namedMetrics[field]) else Missing
  }

  /** `_compare_explicit`. */
  function CompareExplicit(left: Row, right: Row, field: string, ascending: bool, fold: Casefold): int {
    Then(CompareValues(SortValue(left, field), SortValue(right, field), ascending, fold),
         CompareIds(left, right, fold))
  }

  // ---------- Both comparators are total orders ----------

  lemma KnownFits(a: Value, b: Value, c: Value)
    requires !a.Missing? && !b.Missing? && !c.Missing?
    ensures CompareKnown(a, b) == -CompareKnown(b, a)
    ensures Fits(CompareKnown(a, b), CompareKnown(b, c), CompareKnown(a, c))
  {
    if a.Textual? && b.Textual? {
      CompareTextReverses(a.text, b.text);
      if c.Textual? {
        CompareTextReverses(b.text, c.text);
        CompareTextReverses(a.text, c.text);
        TextFits(a.text, b.text, c.text);
      }
    }
  }

  lemma ValuesFit(a: Value, b: Value, c: Value, ascending: bool, fold: Casefold)
    ensures CompareValues(a, b, ascending, fold) == -CompareValues(b, a, ascending, fold)
    ensures Fits(CompareValues(a, b, ascending, fold), CompareValues(b, c, ascending, fold),
                 CompareValues(a, c, ascending, fold))
  {
    if !a.Missing? && !b.Missing? {
      var x, y := Normalised(a, fold), Normalised(b, fold);
      KnownFits(x, y, y);
      if !c.Missing? {
        var z := Normalised(c, fold);
        KnownFits(x, y, z);
        KnownFits(y, z, x);
        KnownFits(z, y, x);
        KnownFits(z, x, y);
      }
    }
  }

  lemma ExplicitFits(a: Row, b: Row, c: Row, field: string, ascending: bool, fold: Casefold)
    ensures CompareExplicit(a, b, field, ascending, fold) == -CompareExplicit(b, a, field, ascending, fold)
    ensures CompareExplicit(a, b, field, ascending, fold) == 0 ==> fold(a.runId) == fold(b.runId)
    ensures Fits(CompareExplicit(a, b, field, ascending, fold), CompareExplicit(b, c, field, ascending, fold),
                 CompareExplicit(a, c, field, ascending, fold))
  {
    ValuesFit(SortValue(a, field), SortValue(b, field), SortValue(c, field), ascending, fold);
    ValuesFit(Textual(a.runId), Textual(b.runId), Textual(c.runId), true, fold);
    CompareTextReverses(fold(a.runId), fold(b.runId));
  }

  lemma DatedFits(a: Row, b: Row, c: Row, fold: Casefold)
    ensures CompareDated(a, b, fold) == -CompareDated(b, a, fold)
    ensures CompareDated(a, b, fold) == 0 ==> fold(a.runId) == fold(b.runId)
    ensures Fits(CompareDated(a, b, fold), CompareDated(b, c, fold), CompareDated(a, c, fold))
  {
    ValuesFit(Textual(a.createdAt), Textual(b.createdAt), Textual(c.createdAt), false, fold);
    ValuesFit(Textual(a.runId), Textual(b.runId), Textual(c.runId), true, fold);
    CompareTextReverses(fold(a.runId), fold(b.runId));
  }

  lemma RankedFits(a: Row, b: Row, c: Row, fold: Casefold)
    ensures CompareRanked(a, b, fold) == -CompareRanked(b, a, fold)
    ensures CompareRanked(a, b, fold) == 0 ==> fold(a.runId) == fold(b.runId)
    ensures Fits(CompareRanked(a, b, fold), CompareRanked(b, c, fold), CompareRanked(a, c, fold))
  {
    DatedFits(a, b, c, fold);
    ValuesFit(OfOption(a.estimatedCost), OfOption(b.estimatedCost), OfOption(c.estimatedCost), true, fold);
    ValuesFit(OfOption(a.p95Latency), OfOption(b.p95Latency), OfOption(c.p95Latency), true, fold);
    ValuesFit(OfOption(a.score), OfOption(b.score), OfOption(c.score), false, fold);
  }

  lemma DefaultFits(a: Row, b: Row, c: Row, fold: Casefold)
    ensures CompareDefault(a, b, fold) == -CompareDefault(b, a, fold)
    ensures CompareDefault(a, b, fold) == 0 ==> fold(a.runId) == fold(b.runId)
    ensures Fits(CompareDefault(a, b, fold), CompareDefault(b, c, fold), CompareDefault(a, c, fold))
  {
    RankedFits(a, b, c, fold);
    DatedFits(a, b, c, fold);
  }

  // ---------- Sorting ----------

  /** The comparator that a query selects. */
  function Selected(sort: string, ascending: bool, fold: Casefold): Comparator<Row> {
    if sort == "default" then (left: Row, right: Row) => CompareDefault(left, right, fold)
    else (left: Row, right: Row) => CompareExplicit(left, right, sort, ascending, fold)
  }

  /** Every selectable comparator is a total preorder, and ties share a casefolded run id. */
  lemma SelectedIsOrder(sort: string, ascending: bool, fold: Casefold)
    ensures IsOrder(Selected(sort, ascending, fold))
    ensures forall a, b :: Selected(sort, ascending, fold)(a, b) == 0 ==> fold(a.runId) == fold(b.runId)
  {
    var cmp := Selected(sort, ascending, fold);
    forall a, b
      ensures Opposed(cmp, a, b)
      ensures cmp(a, b) == 0 ==> fold(a.runId) == fold(b.runId)
    {
      DefaultFits(a, b, b, fold);
      ExplicitFits(a, b, b, sort, ascending, fold);
    }
    forall a, b, c
      ensures Chained(cmp, a, b, c)
    {
      DefaultFits(a, b, c, fold);
      ExplicitFits(a, b, c, sort, ascending, fold);
    }
  }

  ghost predicate DistinctIds(rows: seq<Row>, fold: Casefold) {
    forall i, j :: 0 <= i < |rows| && 0 <= j < |rows| && fold(rows[i].runId) == fold(rows[j].runId) ==> i == j
  }

  /**
   For runs whose ids differ after casefolding, the sorted list does not depend on the order
   in which the repository returned them.
   */
  lemma {:induction false} RepositoryOrderIsIrrelevant(rows: seq<Row>, shuffled: seq<Row>, sort: string, ascending: bool, fold: Casefold)
    requires multiset(shuffled) == multiset(rows) && DistinctIds(rows, fold)
    ensures Sort(Selected(sort, ascending, fold), rows) == Sort(Selected(sort, ascending, fold), shuffled)
    ensures StrictlySorted(Selected(sort, ascending, fold), Sort(Selected(sort, ascending, fold), rows))
  {
    var cmp := Selected(sort, ascending, fold);
    SelectedIsOrder(sort, ascending, fold);
    SortSorts(cmp, rows);
    SortSorts(cmp, shuffled);
    var sorted := Sort(cmp, rows);
    forall a, b | a in sorted && b in sorted && cmp(a, b) == 0
      ensures a == b
    {
      assert a in multiset(sorted) && b in multiset(sorted);
      assert a in rows && b in rows;
      var i :| 0 <= i < |rows| && rows[i] == a;
      var j :| 0 <= j < |rows| && rows[j] == b;
    }
    SortedArrangementIsUnique(cmp, sorted, Sort(cmp, shuffled));
    NoRepeats(rows, sorted, fold);
    forall i, j | 0 <= i < j < |sorted|
      ensures cmp(sorted[i], sorted[j]) < 0
    {
      assert sorted[i] in sorted && sorted[j] in sorted;
    }
  }

  lemma NoRepeats(rows: seq<Row>, sorted: seq<Row>, fold: Casefold)
    requires multiset(sorted) == multiset(rows) && DistinctIds(rows, fold)
    ensures forall i, j :: 0 <= i < j < |sorted| ==> sorted[i] != sorted[j]
  {
    forall i, j | 0 <= i < j < |sorted|
      ensures sorted[i] != sorted[j]
    {
      if sorted[i] == sorted[j] {
        TwiceCounts(sorted, i, j);
        OnceInDistinct(rows, sorted[i], fold);
      }
    }
  }

  lemma {:induction false} OnceInDistinct(rows: seq<Row>, row: Row, fold: Casefold)
    requires DistinctIds(rows, fold)
    ensures multiset(rows)[row] <= 1
  {
    if rows != [] {
      var front, last := rows[..|rows| - 1], rows[|rows| - 1];
      OnceInDistinct(front, row, fold);
      assert rows == front + [last];
      if last == row {
        forall i | 0 <= i < |front|
          ensures front[i] != row
        {
          assert rows[i] == front[i];
        }
      }
    }
  }

  /**
   Rows that tie keep the order of the repository; so every listing order of the rows gives the
   same list if and only if no two different rows tie.
   */
  lemma TieKeepsRepositoryOrder(rows: seq<Row>, sort: string, ascending: bool, fold: Casefold)
    ensures forall row ::
      Tied(Selected(sort, ascending, fold), row, Sort(Selected(sort, ascending, fold), rows))
        == Tied(Selected(sort, ascending, fold), row, rows)
    ensures OrderIrrelevant(Selected(sort, ascending, fold), rows)
       <==> OnlySelfTies(Selected(sort, ascending, fold), rows)
  {
    SelectedIsOrder(sort, ascending, fold);
    OrderMattersOnTies(Selected(sort, ascending, fold), rows);
    forall row {
      SortIsStable(Selected(sort, ascending, fold), rows, row);
    }
  }

  // ---------- What a reader of the list sees ----------

  lemma SortedBefore(rows: seq<Row>, sort: string, ascending: bool, fold: Casefold, i: nat, j: nat)
    requires i < j < |Sort(Selected(sort, ascending, fold), rows)|
    ensures var cmp, s := Selected(sort, ascending, fold), Sort(Selected(sort, ascending, fold), rows);
      cmp(s[i], s[j]) <= 0
  {
    SelectedIsOrder(sort, ascending, fold);
    SortSorts(Selected(sort, ascending, fold), rows);
  }

  /** Sorted by a field in either direction, rows without a value come after all that have one. */
  lemma MissingComesLast(rows: seq<Row>, field: string, ascending: bool, fold: Casefold, i: nat, j: nat)
    requires field != "default" && i < j < |Sort(Selected(field, ascending, fold), rows)|
    ensures var s := Sort(Selected(field, ascending, fold), rows);
      && (SortValue(s[i], field).Missing? ==> SortValue(s[j], field).Missing?)
      && CompareValues(SortValue(s[i], field), SortValue(s[j], field), ascending, fold) <= 0
  {
    SortedBefore(rows, field, ascending, fold, i, j);
  }

  /** The smaller folded id, or the same. */
  predicate IdFirst(a: Row, b: Row, fold: Casefold) {
    CompareText(fold(a.runId), fold(b.runId)) <= 0
  }

  /** A present number before a missing one, then by size in the direction, then by id. */
  predicate ByNumber(x: Option<real>, y: Option<real>, a: Row, b: Row, ascending: bool, fold: Casefold) {
    || (x.Some? && (y.None? || if ascending then x.value < y.value else x.value > y.value))
    || (x == y && IdFirst(a, b, fold))
  }

  /** By casefolded text in the direction, then by id. */
  predicate ByText(s: string, t: string, a: Row, b: Row, ascending: bool, fold: Casefold) {
    || (if ascending then CompareText(fold(s), fold(t)) < 0 else CompareText(fold(t), fold(s)) < 0)
    || (fold(s) == fold(t) && IdFirst(a, b, fold))
  }

  function NamedMetric(row: Row, name: string): Option<real> {
    if name in row.namedMetrics then row.namedMetrics[name] else None
  }

  /** The sort fields and the attribute each stands for; any other field is a metric's name. */
  predicate ListedBy(a: Row, b: Row, field: string, ascending: bool, fold: Casefold) {
    && (field == "name" ==> ByText(a.displayName, b.displayName, a, b, ascending, fold))
    && (field == "model" ==> ByText(a.modelName, b.modelName, a, b, ascending, fold))
    && (field == "dataset" ==> ByText(a.dataset, b.dataset, a, b, ascending, fold))
    && (field == "status" ==> ByText(a.status, b.status, a, b, ascending, fold))
    && (field == "created_at" ==> ByText(a.createdAt, b.createdAt, a, b, ascending, fold))
    && (field == "sample_count" ==>
          ByNumber(Some(a.sampleCount as real), Some(b.sampleCount as real), a, b, ascending, fold))
    && (field == "score" ==> ByNumber(a.score, b.score, a, b, ascending, fold))
    && (field == "average_latency_ms" ==> ByNumber(a.averageLatency, b.averageLatency, a, b, ascending, fold))
    && (field == "p95_latency_ms" ==> ByNumber(a.p95Latency, b.p95Latency, a, b, ascending, fold))
    && (field == "estimated_cost" ==> ByNumber(a.estimatedCost, b.estimatedCost, a, b, ascending, fold))
    && (field !in ROW_FIELDS ==> ByNumber(NamedMetric(a, field), NamedMetric(b, field), a, b, ascending, fold))
  }

  lemma NumbersCompared(x: Option<real>, y: Option<real>, a: Row, b: Row, ascending: bool, fold: Casefold)
    ensures Then(CompareValues(OfOption(x), OfOption(y), ascending, fold), CompareIds(a, b, fold)) <= 0
       <==> ByNumber(x, y, a, b, ascending, fold)
  {
  }

  lemma TextsCompared(s: string, t: string, a: Row, b: Row, ascending: bool, fold: Casefold)
    ensures Then(CompareValues(Textual(s), Textual(t), ascending, fold), CompareIds(a, b, fold)) <= 0
       <==> ByText(s, t, a, b, ascending, fold)
  {
    CompareTextReverses(fold(s), fold(t));
  }

  /** For every field and direction, the comparator is that order. */
  lemma ExplicitCompared(a: Row, b: Row, field: string, ascending: bool, fold: Casefold)
    ensures CompareExplicit(a, b, field, ascending, fold) <= 0 <==> ListedBy(a, b, field, ascending, fold)
  {
    match field
    case "name" => TextsCompared(a.displayName, b.displayName, a, b, ascending, fold);
    case "model" => TextsCompared(a.modelName, b.modelName, a, b, ascending, fold);
    case "dataset" => TextsCompared(a.dataset, b.dataset, a, b, ascending, fold);
    case "status" => TextsCompared(a.status, b.status, a, b, ascending, fold);
    case "created_at" => TextsCompared(a.createdAt, b.createdAt, a, b, ascending, fold);
    case "sample_count" =>
      NumbersCompared(Some(a.sampleCount as real), Some(b.sampleCount as real), a, b, ascending, fold);
    case "score" => NumbersCompared(a.score, b.score, a, b, ascending, fold);
    case "average_latency_ms" => NumbersCompared(a.averageLatency, b.averageLatency, a, b, ascending, fold);
    case "p95_latency_ms" => NumbersCompared(a.p95Latency, b.p95Latency, a, b, ascending, fold);
    case "estimated_cost" => NumbersCompared(a.estimatedCost, b.estimatedCost, a, b, ascending, fold);
    case _ => NumbersCompared(NamedMetric(a, field), NamedMetric(b, field), a, b, ascending, fold);
  }

  /**
   Sorted by a field, in either direction, the rows are ordered by the attribute the field stands
   for, missing ones last, and ties by id.
   */
  lemma ExplicitListIsOrdered(rows: seq<Row>, field: string, ascending: bool, fold: Casefold, i: nat, j: nat)
    requires field != "default" && i < j < |Sort(Selected(field, ascending, fold), rows)|
    ensures var s := Sort(Selected(field, ascending, fold), rows); ListedBy(s[i], s[j], field, ascending, fold)
  {
    SortedBefore(rows, field, ascending, fold, i, j);
    var s := Sort(Selected(field, ascending, fold), rows);
    ExplicitCompared(s[i], s[j], field, ascending, fold);
  }

  /** Completed with a score, completed without one, and neither. */
  function Tier(row: Row): nat {
    if row.status !in {"completed", "completed_with_errors"} then 2 else if row.score.Some? then 0 else 1
  }

  /** A present value before a larger or a missing one. */
  predicate Ahead(x: Option<real>, y: Option<real>) {
    x.Some? && (y.None? || x.value < y.value)
  }

  /** The later text, or of equal texts the row with the smaller id. */
  predicate NewerFirst(a: Row, b: Row, fold: Casefold) {
    || CompareText(fold(b.createdAt), fold(a.createdAt)) < 0
    || (fold(a.createdAt) == fold(b.createdAt) && CompareText(fold(a.runId), fold(b.runId)) <= 0)
  }

  predicate CheaperFirst(a: Row, b: Row, fold: Casefold) {
    Ahead(a.estimatedCost, b.estimatedCost) || (a.estimatedCost == b.estimatedCost && NewerFirst(a, b, fold))
  }

  predicate FasterFirst(a: Row, b: Row, fold: Casefold) {
    Ahead(a.p95Latency, b.p95Latency) || (a.p95Latency == b.p95Latency && CheaperFirst(a, b, fold))
  }

  /**
   The default order in words: by tier; ranked rows by higher score, then lower latency, then
   lower cost, missing ones last; then, in every tier, newer rows first and smaller ids first.
   */
  predicate ListedBefore(a: Row, b: Row, fold: Casefold) {
    || Tier(a) < Tier(b)
    || (Tier(a) == Tier(b) > 0 && NewerFirst(a, b, fold))
    || (Tier(a) == Tier(b) == 0
        && (a.score.value > b.score.value || (a.score == b.score && FasterFirst(a, b, fold))))
  }

  /** The three-tier comparator is that order. */
  lemma DefaultCompared(a: Row, b: Row, fold: Casefold)
    ensures CompareDefault(a, b, fold) <= 0 <==> ListedBefore(a, b, fold)
  {
    CompareTextReverses(fold(a.createdAt), fold(b.createdAt));
  }

  /** The default leaderboard lists its rows in that order. */
  lemma DefaultListIsTiered(rows: seq<Row>, ascending: bool, fold: Casefold, i: nat, j: nat)
    requires i < j < |Sort(Selected("default", ascending, fold), rows)|
    ensures var s := Sort(Selected("default", ascending, fold), rows); ListedBefore(s[i], s[j], fold)
  {
    SortedBefore(rows, "default", ascending, fold, i, j);
    var s := Sort(Selected("default", ascending, fold), rows);
    DefaultCompared(s[i], s[j], fold);
  }

  // ---------- Paging ----------

  /** `rows[offset : offset + page_size]`. */
  function Page(rows: seq<Row>, page: int, size: int): seq<Row>
    requires 1 <= page && 1 <= size
  {
    var offset := (page - 1) * size;
    if offset < 0 || |rows| <= offset then []
    else if |rows| <= offset + size then rows[offset..]
    else rows[offset..offset + size]
  }

  /** `math.ceil(total / page_size) if total else 0`. */
  function TotalPages(total: nat, size: int): nat
    requires 1 <= size
  {
    if total == 0 then 0 else (total + size - 1) / size
  }

  function FirstPages(rows: seq<Row>, count: nat, size: int): seq<Row>
    requires 1 <= size
  {
    if count == 0 then [] else FirstPages(rows, count - 1, size) + Page(rows, count, size)
  }

  lemma {:induction false} FirstPagesArePrefix(rows: seq<Row>, count: nat, size: int)
    requires 1 <= size
    ensures FirstPages(rows, count, size) == if count * size <= |rows| then rows[..count * size] else rows
    ensures 0 <= count * size
  {
    if count > 0 {
      FirstPagesArePrefix(rows, count - 1, size);
      var before := (count - 1) * size;
      assert count * size == before + size;
    }
  }

  /** Pages 1..total_pages concatenate to the sorted list, with no gap and no repeat. */
  lemma PagesPartition(rows: seq<Row>, size: int)
    requires 1 <= size
    ensures FirstPages(rows, TotalPages(|rows|, size), size) == rows
  {
    FirstPagesArePrefix(rows, TotalPages(|rows|, size), size);
  }

  /** The rows fill all pages but the last. */
  lemma PagesCover(total: nat, size: int)
    requires 1 <= size
    ensures var pages := TotalPages(total, size);
      total <= pages * size && (pages > 0 ==> pages * size < total + size)
  {
    if total > 0 {
      var n := total + size - 1;
      assert n == n / size * size + n % size;
    }
  }

  /** Exactly the pages up to total_pages have rows, and all but the last are full. */
  lemma {:induction false} PageSizes(rows: seq<Row>, page: int, size: int)
    requires 1 <= page && 1 <= size
    ensures Page(rows, page, size) != [] <==> page <= TotalPages(|rows|, size)
    ensures page < TotalPages(|rows|, size) ==> |Page(rows, page, size)| == size
    ensures |Page(rows, page, size)| <= size
  {
    var pages, offset := TotalPages(|rows|, size), (page - 1) * size;
    PagesCover(|rows|, size);
    ScaledOrder(0, page - 1, size);
    assert page * size == offset + size;
    if page <= pages {
      ScaledOrder(page, pages, size);
      if page < pages {
        ScaledOrder(page + 1, pages, size);
        assert (page + 1) * size == page * size + size;
      }
    } else {
      ScaledOrder(pages, page - 1, size);
    }
  }

  lemma ScaledOrder(a: int, b: int, size: int)
    requires a <= b && 0 <= size
    ensures a * size <= b * size
  {
    assert (b - a) * size == b * size - a * size;
  }

  // ---------- build_leaderboard ----------

  /** The two bounds on creation times are instants. */
  datatype Query = Query(sort: string, direction: string, page: int, pageSize: int,
                         createdFrom: Option<int>, createdTo: Option<int>)

  datatype QueryError = UnknownSort | BadDirection | BadPage | BadPageSize | BadRange

  datatype Run = Run(archived: bool, row: Row)

  datatype Response = Response(items: seq<Row>, total: nat, totalPages: nat)

  /** `_validate_query`. */
  function Validate(query: Query): Option<QueryError> {
    if query.sort !in SORT_FIELDS then Some(UnknownSort)
    else if query.direction !in {"asc", "desc"} then Some(BadDirection)
    else if query.page < 1 then Some(BadPage)
    else if !(1 <= query.pageSize <= MAX_PAGE_SIZE) then Some(BadPageSize)
    else if query.createdFrom.Some? && query.createdTo.Some? && query.createdFrom.value > query.createdTo.value
    then Some(BadRange)
    else None
  }

  function Visible(runs: seq<Run>, matches: Row -> bool): seq<Row> {
    if runs == [] then []
    else
      var last := runs[|runs| - 1];
      Visible(runs[..|runs| - 1], matches) + if !last.archived && matches(last.row) then [last.row] else []
  }

  lemma {:induction false} VisibleCounts(runs: seq<Run>, matches: Row -> bool, row: Row)
    ensures multiset(Visible(runs, matches))[row] == if matches(row) then multiset(runs)[Run(false, row)] else 0
  {
    if runs != [] {
      var front, last := runs[..|runs| - 1], runs[|runs| - 1];
      VisibleCounts(front, matches, row);
      assert runs == front + [last];
      CountOfAppended(front, last, Run(false, row));
      if !last.archived && matches(last.row) {
        CountOfAppended(Visible(front, matches), last.row, row);
      } else {
        assert Visible(runs, matches) == Visible(front, matches);
      }
    }
  }

  /** Rows keep the order in which the repository lists their runs. */
  lemma {:induction false} VisibleKeepsOrder(runs: seq<Run>, more: seq<Run>, matches: Row -> bool)
    ensures Visible(runs + more, matches) == Visible(runs, matches) + Visible(more, matches)
    ensures forall run :: Visible([run], matches) == if !run.archived && matches(run.row) then [run.row] else []
  {
    forall run
      ensures Visible([run], matches) == if !run.archived && matches(run.row) then [run.row] else []
    {
      assert [run][..0] == [];
    }
    if more == [] {
      assert runs + more == runs;
    } else {
      var front := more[..|more| - 1];
      VisibleKeepsOrder(runs, front, matches);
      LastMovesOut(runs, more);
      var last := if !more[|more| - 1].archived && matches(more[|more| - 1].row) then [more[|more| - 1].row] else [];
      Regroup(Visible(runs, matches), Visible(front, matches), last);
    }
  }

  /** The whole response is independent of the order in which the repository lists the runs. */
  lemma {:induction false} ListingOrderIsIrrelevant(runs: seq<Run>, shuffled: seq<Run>, matches: Row -> bool, sort: string,
                                 ascending: bool, fold: Casefold)
    requires multiset(shuffled) == multiset(runs) && DistinctIds(Visible(runs, matches), fold)
    ensures var cmp := Selected(sort, ascending, fold);
            Sort(cmp, Visible(runs, matches)) == Sort(cmp, Visible(shuffled, matches))
  {
    forall row
      ensures multiset(Visible(runs, matches))[row] == multiset(Visible(shuffled, matches))[row]
    {
      VisibleCounts(runs, matches, row);
      VisibleCounts(shuffled, matches, row);
    }
    assert multiset(Visible(runs, matches)) == multiset(Visible(shuffled, matches));
    RepositoryOrderIsIrrelevant(Visible(runs, matches), Visible(shuffled, matches), sort, ascending, fold);
  }

  /** `build_leaderboard`, with `matches` for `_matches_filters`. */
  method BuildLeaderboard(runs: seq<Run>, matches: Row -> bool, query: Query, fold: Casefold)
      returns (result: Result<Response, QueryError>)
    ensures result.Ok? <==>
              && query.sort in SORT_FIELDS && query.direction in {"asc", "desc"}
              && 1 <= query.page && 1 <= query.pageSize <= 100
              && (query.createdFrom.None? || query.createdTo.None? || query.createdFrom.value <= query.createdTo.value)
    ensures result.Err? ==> Validate(query) == Some(result.error)
    ensures result.Ok? ==>
              var sorted := Sort(Selected(query.sort, query.direction == "asc", fold), Visible(runs, matches));
              && result.value.items == Page(sorted, query.page, query.pageSize)
              && result.value.total == |sorted| == |Visible(runs, matches)|
              && result.value.totalPages == TotalPages(|sorted|, query.pageSize)
              && FirstPages(sorted, result.value.totalPages, query.pageSize) == sorted
              && multiset(sorted) == multiset(Visible(runs, matches))
  {
    var invalid := Validate(query);
    if invalid.Some? {
      return Err(invalid.value);
    }
    var rows: seq<Row> := [];
    for i := 0 to |runs|
      invariant rows == Visible(runs[..i], matches)
    {
      assert runs[..i + 1][..i] == runs[..i];
      if runs[i].archived {
        continue;
      }
      if matches(runs[i].row) {
        rows := rows + [runs[i].row];
      }
    }
    assert runs[..|runs|] == runs;
    var cmp := Selected(query.sort, query.direction == "asc", fold);
    SelectedIsOrder(query.sort, query.direction == "asc", fold);
    SortSorts(cmp, rows);
    assert |multiset(Sort(cmp, rows))| == |multiset(rows)|;
    rows := Sort(cmp, rows);
    PagesPartition(rows, query.pageSize);
    result := Ok(Response(Page(rows, query.page, query.pageSize), |rows|, TotalPages(|rows|, query.pageSize)));
  }
}
