/**
 The comparison heatmaps of backend/app/modules/analytics/matrix.py: attempts grouped into
 cells along one of six dimensions.  Averages are exact, before rounding.
 */
module Matrix {
  import Intervals
  import opened Options
  import opened Ordering
  import Sequences

  datatype Attempt = Attempt(
    status: string, score: Option<real>, latency: Option<real>, cost: Option<real>,
    capability: Option<string>, language: Option<string>, difficulty: Option<string>, modality: Option<string>)

  datatype Record = Record(
    runId: string, endpointId: string, modelName: string, benchmarkId: string, benchmarkVersion: string,
    promptLabel: string, currency: Option<string>, required: seq<string>, attempts: seq<Attempt>)

  datatype Dimension = ModelBenchmark | ModelCapability | ModelLanguage | ModelDifficulty | PromptBenchmark | ModelModality

  // ---------- Which cells an attempt belongs to ----------

  /** `value or default`: an empty string counts as absent. */
  function Or(value: Option<string>, fallback: string): string {
    if value.None? || value.value == "" then fallback else value.value
  }

  predicate ByBenchmark(dimension: Dimension) {
    dimension.ModelBenchmark? || dimension.PromptBenchmark?
  }

  function BenchmarkLabel(record: Record): string {
    record.benchmarkId + " v" + record.benchmarkVersion
  }

  function SingleKey(record: Record, attempt: Attempt, dimension: Dimension): string
    requires !dimension.ModelCapability?
  {
    match dimension
    case ModelModality => Or(attempt.modality, "unknown")
    case ModelLanguage => Or(attempt.language, "unknown")
    case ModelDifficulty => Or(attempt.difficulty, "unknown")
    case _ => BenchmarkLabel(record)
  }

  function Elements(items: seq<string>): set<string> {
    set item | item in items
  }

  function KeysOf(record: Record, attempt: Attempt, dimension: Dimension): set<string> {
    if dimension.ModelCapability? then {Or(attempt.capability, "custom")} + Elements(record.required)
    else {SingleKey(record, attempt, dimension)}
  }

  /** The attempts that carry the key, in order. */
  function Filtered(record: Record, attempts: seq<Attempt>, dimension: Dimension, y: string): seq<Attempt> {
    if attempts == [] then []
    else
      var last := attempts[|attempts| - 1];
      Filtered(record, attempts[..|attempts| - 1], dimension, y)
        + if y in KeysOf(record, last, dimension) then [last] else []
  }

  function Bucket(record: Record, dimension: Dimension, y: string): seq<Attempt> {
    Filtered(record, record.attempts, dimension, y)
  }

  /** A benchmark dimension has its one bucket even without attempts. */
  predicate HasBucket(record: Record, dimension: Dimension, y: string) {
    if ByBenchmark(dimension) then y == BenchmarkLabel(record) else Bucket(record, dimension, y) != []
  }

  function Get<K, V>(lists: map<K, seq<V>>, key: K): seq<V> {
    if key in lists then lists[key] else []
  }

  ghost predicate BucketsOf(buckets: map<string, seq<Attempt>>, record: Record, attempts: seq<Attempt>,
                            dimension: Dimension) {
    forall y :: && Get(buckets, y) == Filtered(record, attempts, dimension, y)
                && (y in buckets <==> Filtered(record, attempts, dimension, y) != [])
  }

  /** The buckets while one more attempt is being added under the keys `done`. */
  ghost predicate BucketsDuring(buckets: map<string, seq<Attempt>>, record: Record, attempts: seq<Attempt>,
                                attempt: Attempt, dimension: Dimension, done: set<string>) {
    forall y :: var expected := Filtered(record, attempts, dimension, y) + (if y in done then [attempt] else []);
      Get(buckets, y) == expected && (y in buckets <==> expected != [])
  }

  lemma FilteredAll(record: Record, attempts: seq<Attempt>, dimension: Dimension, y: string)
    requires ByBenchmark(dimension)
    ensures Filtered(record, attempts, dimension, y) == if y == BenchmarkLabel(record) then attempts else []
  {
    if attempts != [] {
      FilteredAll(record, attempts[..|attempts| - 1], dimension, y);
    }
  }

  lemma AttemptDone(buckets: map<string, seq<Attempt>>, record: Record, i: nat, dimension: Dimension, done: set<string>)
    requires i < |record.attempts| && done == KeysOf(record, record.attempts[i], dimension)
    requires BucketsDuring(buckets, record, record.attempts[..i], record.attempts[i], dimension, done)
    ensures BucketsOf(buckets, record, record.attempts[..i + 1], dimension)
  {
    forall y
      ensures Filtered(record, record.attempts[..i + 1], dimension, y)
           == Filtered(record, record.attempts[..i], dimension, y) + if y in done then [record.attempts[i]] else []
    {
      FilteredStep(record, i, dimension, y);
    }
  }

  lemma FilteredStep(record: Record, i: nat, dimension: Dimension, y: string)
    requires i < |record.attempts|
    ensures Filtered(record, record.attempts[..i + 1], dimension, y)
         == Filtered(record, record.attempts[..i], dimension, y)
              + if y in KeysOf(record, record.attempts[i], dimension) then [record.attempts[i]] else []
  {
    assert record.attempts[..i + 1][..i] == record.attempts[..i];
  }

  lemma KeyDone(buckets: map<string, seq<Attempt>>, record: Record, attempts: seq<Attempt>, attempt: Attempt,
                dimension: Dimension, done: set<string>, key: string)
    requires BucketsDuring(buckets, record, attempts, attempt, dimension, done) && key !in done
    ensures BucketsDuring(buckets[key := Get(buckets, key) + [attempt]], record, attempts, attempt, dimension, done + {key})
  {
  }

  /** `_dimension_buckets`; a dictionary, so the order of its items is not part of the result. */
  method DimensionBuckets(record: Record, dimension: Dimension) returns (buckets: map<string, seq<Attempt>>)
    ensures forall y :: y in buckets <==> HasBucket(record, dimension, y)
    ensures forall y :: y in buckets ==> buckets[y] == Bucket(record, dimension, y)
  {
    if ByBenchmark(dimension) {
      FilteredAll(record, record.attempts, dimension, BenchmarkLabel(record));
      return map[BenchmarkLabel(record) := record.attempts];
    }
    buckets := map[];
    for i := 0 to |record.attempts|
      invariant BucketsOf(buckets, record, record.attempts[..i], dimension)
    {
      var attempt := record.attempts[i];
      if dimension.ModelCapability? {
        var keys := KeysOf(record, attempt, dimension);
        buckets := AddToEach(buckets, attempt, keys, record, record.attempts[..i], dimension);
        AttemptDone(buckets, record, i, dimension, keys);
      } else {
        var key := SingleKey(record, attempt, dimension);
        KeyDone(buckets, record, record.attempts[..i], attempt, dimension, {}, key);
        buckets := buckets[key := Get(buckets, key) + [attempt]];
        assert {} + {key} == {key};
        AttemptDone(buckets, record, i, dimension, {key});
      }
    }
    assert record.attempts[..|record.attempts|] == record.attempts;
    assert forall y :: y in buckets ==> buckets[y] == Get(buckets, y);
  }

  /** The loop over `keys`, in whatever order the set yields them. */
  method AddToEach(start: map<string, seq<Attempt>>, attempt: Attempt, keys: set<string>,
                   ghost record: Record, ghost before: seq<Attempt>, ghost dimension: Dimension)
    returns (buckets: map<string, seq<Attempt>>)
    requires BucketsOf(start, record, before, dimension)
    ensures BucketsDuring(buckets, record, before, attempt, dimension, keys)
  {
    buckets := start;
    var remaining := keys;
    while remaining != {}
      invariant remaining <= keys
      invariant BucketsDuring(buckets, record, before, attempt, dimension, keys - remaining)
    {
      var key :| key in remaining;
      KeyDone(buckets, record, before, attempt, dimension, keys - remaining, key);
      assert keys - remaining + {key} == keys - (remaining - {key});
      buckets := buckets[key := Get(buckets, key) + [attempt]];
      remaining := remaining - {key};
    }
    assert keys - {} == keys;
  }

  // ---------- Grouping records ----------

  datatype Key = Key(x: string, y: string)

  datatype Group = Group(title: string, attempts: seq<Attempt>, byRun: map<string, seq<Attempt>>, currencies: set<string>)

  function XKey(record: Record, dimension: Dimension): string {
    if dimension.PromptBenchmark? then record.promptLabel else record.endpointId
  }

  function XLabel(record: Record, dimension: Dimension): string {
    if dimension.PromptBenchmark? then record.promptLabel else record.modelName
  }

  /** `setdefault`, then the three updates. */
  function Extended(group: Option<Group>, record: Record, dimension: Dimension, attempts: seq<Attempt>): Group {
    var base := if group.Some? then group.value else Group(XLabel(record, dimension), [], map[], {});
    Group(base.title, base.attempts + attempts,
          base.byRun[record.runId := Get(base.byRun, record.runId) + attempts],
          if Or(record.currency, "") != "" then base.currencies + {record.currency.value} else base.currencies)
  }

  predicate Contributes(record: Record, dimension: Dimension, key: Key) {
    key.x == XKey(record, dimension) && HasBucket(record, dimension, key.y)
  }

  function GroupOf(records: seq<Record>, dimension: Dimension, key: Key): Option<Group> {
    if records == [] then None
    else
      var last, before := records[|records| - 1], GroupOf(records[..|records| - 1], dimension, key);
      if Contributes(last, dimension, key) then Some(Extended(before, last, dimension, Bucket(last, dimension, key.y)))
      else before
  }

  function At(grouped: map<Key, Group>, key: Key): Option<Group> {
    if key in grouped then Some(grouped[key]) else None
  }

  ghost predicate GroupsOf(grouped: map<Key, Group>, records: seq<Record>, dimension: Dimension) {
    forall key :: At(grouped, key) == GroupOf(records, dimension, key)
  }

  ghost predicate GroupsDuring(grouped: map<Key, Group>, records: seq<Record>, record: Record, dimension: Dimension,
                               done: set<string>) {
    forall key :: At(grouped, key) ==
      var before := GroupOf(records, dimension, key);
      if key.x == XKey(record, dimension) && key.y in done
      then Some(Extended(before, record, dimension, Bucket(record, dimension, key.y))) else before
  }

  lemma BucketDone(grouped: map<Key, Group>, records: seq<Record>, record: Record, dimension: Dimension,
                   done: set<string>, y: string)
    requires GroupsDuring(grouped, records, record, dimension, done) && y !in done
    ensures var key := Key(XKey(record, dimension), y);
      GroupsDuring(grouped[key := Extended(At(grouped, key), record, dimension, Bucket(record, dimension, y))],
                   records, record, dimension, done + {y})
  {
  }

  lemma RecordDone(grouped: map<Key, Group>, records: seq<Record>, i: nat, dimension: Dimension, done: set<string>)
    requires i < |records| && GroupsDuring(grouped, records[..i], records[i], dimension, done)
    requires forall y :: y in done <==> HasBucket(records[i], dimension, y)
    ensures GroupsOf(grouped, records[..i + 1], dimension)
  {
    assert records[..i + 1][..i] == records[..i];
    forall key
      ensures At(grouped, key) == GroupOf(records[..i + 1], dimension, key)
    {
      assert Contributes(records[i], dimension, key) <==> key.x == XKey(records[i], dimension) && key.y in done;
    }
  }

  /** The first loop of `_dimension_cells`. */
  method GroupRecords(records: seq<Record>, dimension: Dimension) returns (grouped: map<Key, Group>)
    ensures GroupsOf(grouped, records, dimension)
  {
    grouped := map[];
    for i := 0 to |records|
      invariant GroupsOf(grouped, records[..i], dimension)
    {
      grouped := GroupRecord(grouped, records, i, dimension);
    }
    assert records[..|records|] == records;
  }

  method GroupRecord(start: map<Key, Group>, records: seq<Record>, i: nat, dimension: Dimension)
    returns (grouped: map<Key, Group>)
    requires i < |records| && GroupsOf(start, records[..i], dimension)
    ensures GroupsOf(grouped, records[..i + 1], dimension)
  {
    grouped := start;
    var record := records[i];
    var buckets := DimensionBuckets(record, dimension);
    var remaining := buckets.Keys;
    while remaining != {}
      invariant remaining <= buckets.Keys
      invariant GroupsDuring(grouped, records[..i], record, dimension, buckets.Keys - remaining)
    {
      var y :| y in remaining;
      var key := Key(XKey(record, dimension), y);
      BucketDone(grouped, records[..i], record, dimension, buckets.Keys - remaining, y);
      assert buckets.Keys - remaining + {y} == buckets.Keys - (remaining - {y});
      grouped := grouped[key := Extended(At(grouped, key), record, dimension, buckets[y])];
      remaining := remaining - {y};
    }
    assert buckets.Keys - {} == buckets.Keys;
    RecordDone(grouped, records, i, dimension, buckets.Keys);
  }

  // ---------- Cells ----------

  /** `scores` are what the confidence interval is computed from. */
  datatype Metrics = Metrics(
    score: Option<real>, sampleCount: nat, successRate: Option<real>, errorRate: Option<real>,
    latency: Option<real>, cost: Option<real>, scores: seq<real>)

  predicate Terminal(attempt: Attempt) {
    Succeeded(attempt) || Failed(attempt)
  }

  /** The sum of a per-attempt quantity. */
  function Total(attempts: seq<Attempt>, weight: Attempt -> real): real {
    if attempts == [] then 0.0
    else Total(attempts[..|attempts| - 1], weight) + weight(attempts[|attempts| - 1])
  }

  function Count(attempts: seq<Attempt>, test: Attempt -> bool): nat {
    if attempts == [] then 0
    else Count(attempts[..|attempts| - 1], test) + if test(attempts[|attempts| - 1]) then 1 else 0
  }

  function Value(attempt: Attempt, field: Attempt -> Option<real>): real {
    if Terminal(attempt) && field(attempt).Some? then field(attempt).value else 0.0
  }

  predicate Scored(attempt: Attempt) {
    Terminal(attempt) && attempt.score.Some?
  }

  function Scores(attempts: seq<Attempt>): seq<real> {
    if attempts == [] then []
    else
      var last := attempts[|attempts| - 1];
      Scores(attempts[..|attempts| - 1]) + if Scored(last) then [last.score.value] else []
  }

  function ScoreValue(attempt: Attempt): real {
    Value(attempt, (a: Attempt) => a.score)
  }

  predicate Timed(attempt: Attempt) {
    Terminal(attempt) && attempt.latency.Some?
  }

  function LatencyValue(attempt: Attempt): real {
    Value(attempt, (a: Attempt) => a.latency)
  }

  predicate Priced(attempt: Attempt) {
    Terminal(attempt) && attempt.cost.Some?
  }

  function CostValue(attempt: Attempt): real {
    Value(attempt, (a: Attempt) => a.cost)
  }

  predicate Succeeded(attempt: Attempt) {
    attempt.status == "succeeded"
  }

  predicate Failed(attempt: Attempt) {
    attempt.status == "failed"
  }

  function Ratio(numerator: real, denominator: nat): Option<real> {
    if denominator == 0 then None else Some(numerator / denominator as real)
  }

  function AttemptMetrics(attempts: seq<Attempt>): Metrics {
    var terminal := Count(attempts, Terminal);
    Metrics(
      Ratio(Total(attempts, ScoreValue), Count(attempts, Scored)),
      Count(attempts, Scored),
      Ratio(Count(attempts, Succeeded) as real, terminal),
      Ratio(Count(attempts, Failed) as real, terminal),
      Ratio(Total(attempts, LatencyValue), Count(attempts, Timed)),
      if Count(attempts, Priced) == 0 then None else Some(Total(attempts, CostValue)),
      Scores(attempts))
  }

  /** The reported interval; `root` is what `sqrt` returned. */
  function ConfidenceInterval(metrics: Metrics, root: real): Option<Intervals.Interval>
    requires metrics.scores != [] ==> Intervals.IsSqrt(root, Intervals.BernoulliVarianceOfMean(metrics.scores))
  {
    Intervals.MatrixInterval(metrics.scores, root)
  }

  datatype Cell = Cell(key: Key, title: string, runIds: set<string>, metrics: Metrics, currency: Option<string>,
                       baselineScore: Option<real>, delta: Option<real>)

  function Difference(value: Option<real>, baseline: Option<real>): Option<real> {
    if value.Some? && baseline.Some? then Some(value.value - baseline.value) else None
  }

  function Only(currencies: set<string>): Option<string> {
    if |currencies| == 1 then
      SingletonMember(currencies);
      var currency :| currency in currencies;
      Some(currency)
    else None
  }

  lemma SingletonMember<T>(s: set<T>)
    requires |s| == 1
    ensures forall a, b :: a in s && b in s ==> a == b
    ensures exists a :: a in s
  {
    var a :| a in s;
    assert |s - {a}| == 0;
    assert s == {a};
  }

  function CellOf(key: Key, group: Group, baseline: Option<string>): Cell {
    var metrics := AttemptMetrics(group.attempts);
    var baselineAttempts := if Or(baseline, "") != "" then Get(group.byRun, baseline.value) else [];
    var baselineScore := if baselineAttempts != [] then AttemptMetrics(baselineAttempts).score else None;
    Cell(key, group.title, group.byRun.Keys, metrics, Only(group.currencies), baselineScore,
         Difference(metrics.score, baselineScore))
  }

  // ---------- The list of cells ----------

  function CompareCells(a: Cell, b: Cell): int {
    Then(CompareText(a.key.y, b.key.y), CompareText(a.title, b.title))
  }

  lemma CellsAreOrdered()
    ensures IsOrder(CompareCells)
  {
    forall a, b
      ensures Opposed(CompareCells, a, b)
    {
      CompareTextReverses(a.key.y, b.key.y);
      CompareTextReverses(a.title, b.title);
    }
    forall a, b, c
      ensures Chained(CompareCells, a, b, c)
    {
      TextFits(a.key.y, b.key.y, c.key.y);
      TextFits(a.title, b.title, c.title);
    }
  }

  function CellFor(records: seq<Record>, dimension: Dimension, baseline: Option<string>, key: Key): Option<Cell> {
    var group := GroupOf(records, dimension, key);
    if group.Some? then Some(CellOf(key, group.value, baseline)) else None
  }

  /** Exactly one cell for every key that some record contributes to. */
  ghost predicate ListsCells(cells: seq<Cell>, records: seq<Record>, dimension: Dimension, baseline: Option<string>) {
    forall cell: Cell :: multiset(cells)[cell]
      == if CellFor(records, dimension, baseline, cell.key) == Some(cell) then 1 else 0
  }

  ghost predicate ListsSome(cells: seq<Cell>, grouped: map<Key, Group>, baseline: Option<string>, done: set<Key>) {
    forall cell: Cell :: multiset(cells)[cell]
      == if cell.key in done && cell.key in grouped && cell == CellOf(cell.key, grouped[cell.key], baseline) then 1 else 0
  }

  lemma ListAll(cells: seq<Cell>, grouped: map<Key, Group>, records: seq<Record>, dimension: Dimension,
                baseline: Option<string>)
    requires GroupsOf(grouped, records, dimension) && ListsSome(cells, grouped, baseline, grouped.Keys)
    ensures ListsCells(cells, records, dimension, baseline)
  {
    forall cell: Cell
      ensures multiset(cells)[cell] == if CellFor(records, dimension, baseline, cell.key) == Some(cell) then 1 else 0
    {
      assert At(grouped, cell.key) == GroupOf(records, dimension, cell.key);
    }
  }

  ghost predicate ByRowThenTitle(cells: seq<Cell>) {
    forall i, j :: 0 <= i < j < |cells| ==>
      || CompareText(cells[i].key.y, cells[j].key.y) < 0
      || (cells[i].key.y == cells[j].key.y && CompareText(cells[i].title, cells[j].title) <= 0)
  }

  lemma SortedByRow(cells: seq<Cell>)
    requires Sorted(CompareCells, cells)
    ensures ByRowThenTitle(cells)
  {
    forall i, j | 0 <= i < j < |cells|
      ensures CompareText(cells[i].key.y, cells[j].key.y) == 0 ==> cells[i].key.y == cells[j].key.y
    {
      CompareTextReverses(cells[i].key.y, cells[j].key.y);
    }
  }

  /** `_dimension_cells`. */
  method DimensionCells(records: seq<Record>, dimension: Dimension, baseline: Option<string>) returns (cells: seq<Cell>)
    ensures ListsCells(cells, records, dimension, baseline)
    ensures Sorted(CompareCells, cells) && ByRowThenTitle(cells)
  {
    var grouped := GroupRecords(records, dimension);
    cells := [];
    var remaining := grouped.Keys;
    while remaining != {}
      invariant remaining <= grouped.Keys
      invariant ListsSome(cells, grouped, baseline, grouped.Keys - remaining)
    {
      var key :| key in remaining;
      assert grouped.Keys - remaining + {key} == grouped.Keys - (remaining - {key});
      cells := cells + [CellOf(key, grouped[key], baseline)];
      remaining := remaining - {key};
    }
    assert grouped.Keys - {} == grouped.Keys;
    ListAll(cells, grouped, records, dimension, baseline);
    CellsAreOrdered();
    SortSorts(CompareCells, cells);
    cells := Sort(CompareCells, cells);
    SortedByRow(cells);
  }

  // ---------- What a cell contains ----------

  /** Every attempt of the records in the cell's column that carries the cell's key, in order. */
  function CellAttempts(records: seq<Record>, dimension: Dimension, key: Key): seq<Attempt> {
    if records == [] then []
    else
      var last := records[|records| - 1];
      CellAttempts(records[..|records| - 1], dimension, key)
        + if key.x == XKey(last, dimension) then Bucket(last, dimension, key.y) else []
  }

  lemma {:induction false} GroupHoldsCellAttempts(records: seq<Record>, dimension: Dimension, key: Key)
    ensures var group := GroupOf(records, dimension, key);
      CellAttempts(records, dimension, key) == if group.Some? then group.value.attempts else []
  {
    if records != [] {
      GroupHoldsCellAttempts(records[..|records| - 1], dimension, key);
      if !HasBucket(records[|records| - 1], dimension, key.y) && ByBenchmark(dimension) {
        FilteredAll(records[|records| - 1], records[|records| - 1].attempts, dimension, key.y);
      }
    }
  }

  /** The text itself, or the fallback for a missing or empty one. */
  ghost predicate Reads(attribute: Option<string>, fallback: string, y: string) {
    if attribute in {None, Some("")} then y == fallback else attribute == Some(y)
  }

  /** The cell where an attempt of the record belongs, dimension by dimension. */
  ghost predicate Placed(record: Record, attempt: Attempt, dimension: Dimension, key: Key) {
    match dimension
    case ModelBenchmark => key == Key(record.endpointId, record.benchmarkId + " v" + record.benchmarkVersion)
    case PromptBenchmark => key == Key(record.promptLabel, record.benchmarkId + " v" + record.benchmarkVersion)
    case ModelLanguage => key.x == record.endpointId && Reads(attempt.language, "unknown", key.y)
    case ModelDifficulty => key.x == record.endpointId && Reads(attempt.difficulty, "unknown", key.y)
    case ModelModality => key.x == record.endpointId && Reads(attempt.modality, "unknown", key.y)
    case ModelCapability =>
      key.x == record.endpointId && (key.y in record.required || Reads(attempt.capability, "custom", key.y))
  }

  lemma {:induction false} FilteredAreThose(record: Record, attempts: seq<Attempt>, dimension: Dimension, y: string, attempt: Attempt)
    ensures attempt in Filtered(record, attempts, dimension, y)
       <==> attempt in attempts && y in KeysOf(record, attempt, dimension)
    decreases |attempts|
  {
    if attempts != [] {
      FilteredAreThose(record, attempts[..|attempts| - 1], dimension, y, attempt);
      assert attempts == attempts[..|attempts| - 1] + [attempts[|attempts| - 1]];
    }
  }

  lemma PlacedByKeys(record: Record, attempt: Attempt, dimension: Dimension, key: Key)
    ensures Placed(record, attempt, dimension, key)
       <==> key.x == XKey(record, dimension) && key.y in KeysOf(record, attempt, dimension)
  {
  }

  ghost predicate PlacedFrom(records: seq<Record>, attempt: Attempt, dimension: Dimension, key: Key) {
    exists i :: 0 <= i < |records| && attempt in records[i].attempts && Placed(records[i], attempt, dimension, key)
  }

  lemma PlacedFromLast(records: seq<Record>, attempt: Attempt, dimension: Dimension, key: Key)
    requires records != []
    ensures var last := records[|records| - 1];
      PlacedFrom(records, attempt, dimension, key) ==
        (PlacedFrom(records[..|records| - 1], attempt, dimension, key)
          || (attempt in last.attempts && Placed(last, attempt, dimension, key)))
  {
    var front := records[..|records| - 1];
    if i :| 0 <= i < |front| && attempt in front[i].attempts && Placed(front[i], attempt, dimension, key) {
      assert records[i] == front[i];
    }
    if i :| 0 <= i < |records| && attempt in records[i].attempts && Placed(records[i], attempt, dimension, key) {
      assert i < |front| ==> front[i] == records[i];
    }
  }

  /** A cell holds exactly the attempts whose record and attributes place them there. */
  lemma {:induction false} CellHoldsThosePlaced(records: seq<Record>, dimension: Dimension, key: Key, attempt: Attempt)
    ensures attempt in CellAttempts(records, dimension, key) <==> PlacedFrom(records, attempt, dimension, key)
  {
    if records != [] {
      var last := records[|records| - 1];
      CellHoldsThosePlaced(records[..|records| - 1], dimension, key, attempt);
      PlacedFromLast(records, attempt, dimension, key);
      PlacedByKeys(last, attempt, dimension, key);
      FilteredAreThose(last, last.attempts, dimension, key.y, attempt);
    }
  }

  /** A record has a part in a cell; in a benchmark dimension even without attempts. */
  ghost predicate Occupies(record: Record, dimension: Dimension, key: Key) {
    if dimension in {ModelBenchmark, PromptBenchmark}
    then key == Key(if dimension.PromptBenchmark? then record.promptLabel else record.endpointId,
                    record.benchmarkId + " v" + record.benchmarkVersion)
    else exists attempt :: attempt in record.attempts && Placed(record, attempt, dimension, key)
  }

  lemma ContributesExactly(record: Record, dimension: Dimension, key: Key)
    ensures Contributes(record, dimension, key) <==> Occupies(record, dimension, key)
  {
    if dimension !in {ModelBenchmark, PromptBenchmark} {
      var bucket := Bucket(record, dimension, key.y);
      if bucket != [] {
        assert bucket[0] in bucket;
        FilteredAreThose(record, record.attempts, dimension, key.y, bucket[0]);
        PlacedByKeys(record, bucket[0], dimension, key);
      }
      if attempt :| attempt in record.attempts && Placed(record, attempt, dimension, key) {
        FilteredAreThose(record, record.attempts, dimension, key.y, attempt);
        PlacedByKeys(record, attempt, dimension, key);
      }
    }
  }

  /** There is a cell exactly where some record has a part. */
  lemma CellWhereOccupied(records: seq<Record>, dimension: Dimension, baseline: Option<string>, key: Key)
    ensures CellFor(records, dimension, baseline, key).Some?
       <==> exists i :: 0 <= i < |records| && Occupies(records[i], dimension, key)
  {
    GroupWhereContributed(records, dimension, key);
    forall i | 0 <= i < |records|
      ensures Contributes(records[i], dimension, key) <==> Occupies(records[i], dimension, key)
    {
      ContributesExactly(records[i], dimension, key);
    }
  }

  ghost predicate FirstTitled(records: seq<Record>, dimension: Dimension, key: Key, title: string) {
    exists i :: && 0 <= i < |records| && Contributes(records[i], dimension, key)
                && (forall j :: 0 <= j < i ==> !Contributes(records[j], dimension, key))
                && title == if dimension.PromptBenchmark? then records[i].promptLabel else records[i].modelName
  }

  lemma FirstTitledStays(records: seq<Record>, record: Record, dimension: Dimension, key: Key, title: string)
    requires FirstTitled(records, dimension, key, title)
    ensures FirstTitled(records + [record], dimension, key, title)
  {
    var more := records + [record];
    var i :| && 0 <= i < |records| && Contributes(records[i], dimension, key)
             && (forall j :: 0 <= j < i ==> !Contributes(records[j], dimension, key))
             && title == if dimension.PromptBenchmark? then records[i].promptLabel else records[i].modelName;
    assert more[i] == records[i] && forall j :: 0 <= j < i ==> more[j] == records[j];
  }

  lemma FirstTitledHere(records: seq<Record>, record: Record, dimension: Dimension, key: Key)
    requires GroupOf(records, dimension, key).None? && Contributes(record, dimension, key)
    ensures FirstTitled(records + [record], dimension, key, XLabel(record, dimension))
  {
    var more := records + [record];
    GroupWhereContributed(records, dimension, key);
    assert more[|records|] == record && forall j :: 0 <= j < |records| ==> more[j] == records[j];
  }

  /** A cell is titled by the first record that contributes to it. */
  lemma {:induction false} TitleIsFirst(records: seq<Record>, dimension: Dimension, key: Key)
    requires GroupOf(records, dimension, key).Some?
    ensures FirstTitled(records, dimension, key, GroupOf(records, dimension, key).value.title)
  {
    var front, last := records[..|records| - 1], records[|records| - 1];
    assert records == front + [last];
    if GroupOf(front, dimension, key).Some? {
      TitleIsFirst(front, dimension, key);
      FirstTitledStays(front, last, dimension, key, GroupOf(front, dimension, key).value.title);
    } else {
      FirstTitledHere(front, last, dimension, key);
    }
  }

  /** Score, baseline score and delta agree; without a baseline run there are neither. */
  lemma DeltaClosesGap(records: seq<Record>, dimension: Dimension, baseline: Option<string>, key: Key)
    requires GroupOf(records, dimension, key).Some?
    ensures var cell := CellFor(records, dimension, baseline, key).value;
      && (cell.delta.Some? <==> cell.metrics.score.Some? && cell.baselineScore.Some?)
      && (cell.delta.Some? ==> cell.baselineScore.value + cell.delta.value == cell.metrics.score.value)
      && (baseline in {None, Some("")} ==> cell.baselineScore.None?)
  {
  }

  function RecordsOf(records: seq<Record>, runId: string): seq<Record> {
    if records == [] then []
    else
      RecordsOf(records[..|records| - 1], runId)
        + if records[|records| - 1].runId == runId then [records[|records| - 1]] else []
  }

  lemma GroupOfAppended(records: seq<Record>, record: Record, dimension: Dimension, key: Key)
    ensures GroupOf(records + [record], dimension, key) ==
      var before := GroupOf(records, dimension, key);
      if Contributes(record, dimension, key) then Some(Extended(before, record, dimension, Bucket(record, dimension, key.y)))
      else before
  {
    assert (records + [record])[..|records|] == records;
  }

  /** What a cell keeps per run is the cell of that run's records alone. */
  lemma {:induction false} ByRunIsOwnCell(records: seq<Record>, dimension: Dimension, key: Key, runId: string)
    ensures var group, own := GroupOf(records, dimension, key), GroupOf(RecordsOf(records, runId), dimension, key);
      && (own.Some? <==> group.Some? && runId in group.value.byRun)
      && (own.Some? ==> group.value.byRun[runId] == own.value.attempts)
  {
    if records != [] {
      var front, last := records[..|records| - 1], records[|records| - 1];
      ByRunIsOwnCell(front, dimension, key, runId);
      GroupOfAppended(RecordsOf(front, runId), last, dimension, key);
      assert last.runId != runId ==> RecordsOf(records, runId) == RecordsOf(front, runId);
    }
  }

  /** A cell's baseline score is the score of the same cell built from the baseline run alone. */
  lemma {:induction false} BaselineIsOwnCell(records: seq<Record>, dimension: Dimension, key: Key, runId: string)
    requires runId != "" && GroupOf(records, dimension, key).Some?
    ensures var own := CellFor(RecordsOf(records, runId), dimension, None, key);
      CellFor(records, dimension, Some(runId), key).value.baselineScore
        == if own.Some? then own.value.metrics.score else None
  {
    ByRunIsOwnCell(records, dimension, key, runId);
    assert AttemptMetrics([]).score == None;
  }

  // ---------- Conservation ----------

  function SumOverCells(cells: seq<Cell>, records: seq<Record>, dimension: Dimension, weight: Attempt -> real): real {
    if cells == [] then 0.0
    else
      SumOverCells(cells[..|cells| - 1], records, dimension, weight)
        + Total(CellAttempts(records, dimension, cells[|cells| - 1].key), weight)
  }

  function BucketSum(cells: seq<Cell>, record: Record, attempts: seq<Attempt>, dimension: Dimension,
                     weight: Attempt -> real): real {
    if cells == [] then 0.0
    else
      var key := cells[|cells| - 1].key;
      BucketSum(cells[..|cells| - 1], record, attempts, dimension, weight)
        + if key.x == XKey(record, dimension) then Total(Filtered(record, attempts, dimension, key.y), weight) else 0.0
  }

  /** `value` once for every cell of column `x` whose row is one of `ys`. */
  function KeySum(cells: seq<Cell>, x: string, ys: set<string>, value: real): real {
    if cells == [] then 0.0
    else
      KeySum(cells[..|cells| - 1], x, ys, value)
        + if cells[|cells| - 1].key.x == x && cells[|cells| - 1].key.y in ys then value else 0.0
  }

  lemma {:induction false} TotalOfBoth(attempts: seq<Attempt>, more: seq<Attempt>, weight: Attempt -> real)
    ensures Total(attempts + more, weight) == Total(attempts, weight) + Total(more, weight)
    decreases |more|
  {
    if more == [] {
      assert attempts + more == attempts;
    } else {
      var front := more[..|more| - 1];
      TotalOfBoth(attempts, front, weight);
      assert (attempts + more)[..|attempts + more| - 1] == attempts + front;
    }
  }

  lemma {:induction false} SumAddsRecord(cells: seq<Cell>, records: seq<Record>, dimension: Dimension,
                                         weight: Attempt -> real)
    requires records != []
    ensures var last := records[|records| - 1];
      SumOverCells(cells, records, dimension, weight)
        == SumOverCells(cells, records[..|records| - 1], dimension, weight)
         + BucketSum(cells, last, last.attempts, dimension, weight)
    decreases |cells|
  {
    if cells != [] {
      var key, last := cells[|cells| - 1].key, records[|records| - 1];
      SumAddsRecord(cells[..|cells| - 1], records, dimension, weight);
      TotalOfBoth(CellAttempts(records[..|records| - 1], dimension, key),
                  if key.x == XKey(last, dimension) then Bucket(last, dimension, key.y) else [], weight);
    }
  }

  lemma {:induction false} BucketSumAddsAttempt(cells: seq<Cell>, record: Record, attempts: seq<Attempt>,
                                                dimension: Dimension, weight: Attempt -> real)
    requires attempts != []
    ensures var last := attempts[|attempts| - 1];
      BucketSum(cells, record, attempts, dimension, weight)
        == BucketSum(cells, record, attempts[..|attempts| - 1], dimension, weight)
         + KeySum(cells, XKey(record, dimension), KeysOf(record, last, dimension), weight(last))
    decreases |cells|
  {
    if cells != [] {
      BucketSumAddsAttempt(cells[..|cells| - 1], record, attempts, dimension, weight);
      FilteredTotal(record, attempts, dimension, cells[|cells| - 1].key.y, weight);
    }
  }

  lemma FilteredTotal(record: Record, attempts: seq<Attempt>, dimension: Dimension, y: string, weight: Attempt -> real)
    requires attempts != []
    ensures var last := attempts[|attempts| - 1];
      Total(Filtered(record, attempts, dimension, y), weight)
        == Total(Filtered(record, attempts[..|attempts| - 1], dimension, y), weight)
         + if y in KeysOf(record, last, dimension) then weight(last) else 0.0
  {
    var last, before := attempts[|attempts| - 1], Filtered(record, attempts[..|attempts| - 1], dimension, y);
    if y in KeysOf(record, last, dimension) {
      assert (before + [last])[..|before|] == before;
    } else {
      assert before + [] == before;
    }
  }

  lemma {:induction false} NoBucketSum(cells: seq<Cell>, record: Record, dimension: Dimension, weight: Attempt -> real)
    ensures BucketSum(cells, record, [], dimension, weight) == 0.0
  {
    if cells != [] {
      NoBucketSum(cells[..|cells| - 1], record, dimension, weight);
    }
  }

  lemma {:induction false} NoSum(cells: seq<Cell>, dimension: Dimension, weight: Attempt -> real)
    ensures SumOverCells(cells, [], dimension, weight) == 0.0
  {
    if cells != [] {
      NoSum(cells[..|cells| - 1], dimension, weight);
    }
  }

  ghost predicate Once(cells: seq<Cell>) {
    cells == [] || (var last := cells[|cells| - 1];
                    Once(cells[..|cells| - 1]) && forall cell :: cell in cells[..|cells| - 1] ==> cell.key != last.key)
  }

  /** The rows of column `x` that are listed among `ys`. */
  function Covered(cells: seq<Cell>, x: string, ys: set<string>): set<string> {
    if cells == [] then {}
    else
      Covered(cells[..|cells| - 1], x, ys)
        + if cells[|cells| - 1].key.x == x && cells[|cells| - 1].key.y in ys then {cells[|cells| - 1].key.y} else {}
  }

  lemma {:induction false} CoveredIsListed(cells: seq<Cell>, x: string, ys: set<string>, y: string)
    ensures y in Covered(cells, x, ys) <==> y in ys && exists cell :: cell in cells && cell.key == Key(x, y)
  {
    if cells != [] {
      var front, last := cells[..|cells| - 1], cells[|cells| - 1];
      CoveredIsListed(front, x, ys, y);
      assert cells == front + [last];
    }
  }

  lemma {:induction false} KeySumCounts(cells: seq<Cell>, x: string, ys: set<string>, value: real)
    requires Once(cells)
    ensures KeySum(cells, x, ys, value) == Times(|Covered(cells, x, ys)|, value)
  {
    if cells != [] {
      KeySumCounts(cells[..|cells| - 1], x, ys, value);
      CoveredIsListed(cells[..|cells| - 1], x, ys, cells[|cells| - 1].key.y);
    }
  }

  function Times(n: nat, value: real): real {
    if n == 0 then 0.0 else Times(n - 1, value) + value
  }

  lemma {:induction false} TimesIsProduct(n: nat, value: real)
    ensures Times(n, value) == n as real * value
  {
    if n > 0 {
      TimesIsProduct(n - 1, value);
    }
  }

  /** Each attempt's weight once per key it carries. */
  function Expected(record: Record, attempts: seq<Attempt>, dimension: Dimension, weight: Attempt -> real): real {
    if attempts == [] then 0.0
    else
      var last := attempts[|attempts| - 1];
      Expected(record, attempts[..|attempts| - 1], dimension, weight)
        + Times(|KeysOf(record, last, dimension)|, weight(last))
  }

  function ExpectedOfAll(records: seq<Record>, dimension: Dimension, weight: Attempt -> real): real {
    if records == [] then 0.0
    else
      var last := records[|records| - 1];
      ExpectedOfAll(records[..|records| - 1], dimension, weight) + Expected(last, last.attempts, dimension, weight)
  }

  /** Every key of the record's attempts has its cell. */
  ghost predicate Lists(cells: seq<Cell>, record: Record, attempts: seq<Attempt>, dimension: Dimension) {
    forall i :: 0 <= i < |attempts| ==> KeysListed(cells, record, attempts[i], dimension)
  }

  ghost predicate KeysListed(cells: seq<Cell>, record: Record, attempt: Attempt, dimension: Dimension) {
    forall y :: y in KeysOf(record, attempt, dimension) ==>
      exists cell :: cell in cells && cell.key == Key(XKey(record, dimension), y)
  }

  lemma AllCovered(cells: seq<Cell>, record: Record, attempt: Attempt, dimension: Dimension)
    requires KeysListed(cells, record, attempt, dimension)
    ensures Covered(cells, XKey(record, dimension), KeysOf(record, attempt, dimension)) == KeysOf(record, attempt, dimension)
  {
    forall y
      ensures y in Covered(cells, XKey(record, dimension), KeysOf(record, attempt, dimension))
         <==> y in KeysOf(record, attempt, dimension)
    {
      CoveredIsListed(cells, XKey(record, dimension), KeysOf(record, attempt, dimension), y);
    }
  }

  lemma AttemptIsCounted(cells: seq<Cell>, record: Record, attempt: Attempt, dimension: Dimension, value: real)
    requires Once(cells) && KeysListed(cells, record, attempt, dimension)
    ensures KeySum(cells, XKey(record, dimension), KeysOf(record, attempt, dimension), value)
         == Times(|KeysOf(record, attempt, dimension)|, value)
  {
    KeySumCounts(cells, XKey(record, dimension), KeysOf(record, attempt, dimension), value);
    AllCovered(cells, record, attempt, dimension);
  }

  lemma {:induction false} RecordIsConserved(cells: seq<Cell>, record: Record, attempts: seq<Attempt>,
                                             dimension: Dimension, weight: Attempt -> real)
    requires Once(cells) && Lists(cells, record, attempts, dimension)
    ensures BucketSum(cells, record, attempts, dimension, weight) == Expected(record, attempts, dimension, weight)
    decreases |attempts|
  {
    if attempts == [] {
      NoBucketSum(cells, record, dimension, weight);
    } else {
      var front, last := attempts[..|attempts| - 1], attempts[|attempts| - 1];
      RecordIsConserved(cells, record, front, dimension, weight);
      BucketSumAddsAttempt(cells, record, attempts, dimension, weight);
      AttemptIsCounted(cells, record, last, dimension, weight(last));
    }
  }

  lemma {:induction false} RecordsAreConserved(cells: seq<Cell>, records: seq<Record>, dimension: Dimension,
                                               weight: Attempt -> real)
    requires Once(cells)
    requires forall i :: 0 <= i < |records| ==> Lists(cells, records[i], records[i].attempts, dimension)
    ensures SumOverCells(cells, records, dimension, weight) == ExpectedOfAll(records, dimension, weight)
    decreases |records|
  {
    if records == [] {
      NoSum(cells, dimension, weight);
    } else {
      var front, last := records[..|records| - 1], records[|records| - 1];
      RecordsAreConserved(cells, front, dimension, weight);
      SumAddsRecord(cells, records, dimension, weight);
      RecordIsConserved(cells, last, last.attempts, dimension, weight);
    }
  }

  // ---------- The listed cells ----------

  ghost predicate Owned(cells: seq<Cell>, records: seq<Record>, dimension: Dimension, baseline: Option<string>) {
    forall cell :: cell in cells ==> CellFor(records, dimension, baseline, cell.key) == Some(cell)
  }

  lemma {:induction false} OwnedOnce(cells: seq<Cell>, records: seq<Record>, dimension: Dimension, baseline: Option<string>)
    requires Owned(cells, records, dimension, baseline)
    requires forall cell: Cell :: multiset(cells)[cell] <= 1
    ensures Once(cells)
    decreases |cells|
  {
    if cells != [] {
      var front, last := cells[..|cells| - 1], cells[|cells| - 1];
      assert cells == front + [last];
      assert multiset(front)[last] + 1 == multiset(cells)[last];
      forall cell: Cell
        ensures multiset(front)[cell] <= 1
      {
        assert multiset(front)[cell] <= multiset(cells)[cell];
      }
      OwnedOnce(front, records, dimension, baseline);
      forall cell | cell in front
        ensures cell.key != last.key
      {
        assert cell in cells && last in cells;
      }
    }
  }

  lemma ListedOnce(cells: seq<Cell>, records: seq<Record>, dimension: Dimension, baseline: Option<string>)
    requires ListsCells(cells, records, dimension, baseline)
    ensures Owned(cells, records, dimension, baseline) && Once(cells)
  {
    forall cell | cell in cells
      ensures CellFor(records, dimension, baseline, cell.key) == Some(cell)
    {
      assert cell in multiset(cells);
    }
    OwnedOnce(cells, records, dimension, baseline);
  }

  /** A cell exists exactly where some record contributes. */
  lemma {:induction false} GroupWhereContributed(records: seq<Record>, dimension: Dimension, key: Key)
    ensures GroupOf(records, dimension, key).Some?
       <==> exists i :: 0 <= i < |records| && Contributes(records[i], dimension, key)
  {
    if records != [] {
      var front := records[..|records| - 1];
      GroupWhereContributed(front, dimension, key);
      if i :| 0 <= i < |records| && Contributes(records[i], dimension, key) {
        assert i < |front| ==> Contributes(front[i], dimension, key);
      }
      if GroupOf(front, dimension, key).Some? {
        var i :| 0 <= i < |front| && Contributes(front[i], dimension, key);
        assert Contributes(records[i], dimension, key);
      }
    }
  }

  lemma {:induction false} FilteredHolds(record: Record, attempts: seq<Attempt>, i: nat, dimension: Dimension, y: string)
    requires i < |attempts| && y in KeysOf(record, attempts[i], dimension)
    ensures Filtered(record, attempts, dimension, y) != []
    decreases |attempts|
  {
    if i < |attempts| - 1 {
      FilteredHolds(record, attempts[..|attempts| - 1], i, dimension, y);
    }
  }

  lemma KeyHasCell(cells: seq<Cell>, records: seq<Record>, dimension: Dimension, baseline: Option<string>,
                   i: nat, j: nat, y: string)
    requires ListsCells(cells, records, dimension, baseline)
    requires i < |records| && j < |records[i].attempts| && y in KeysOf(records[i], records[i].attempts[j], dimension)
    ensures exists cell :: cell in cells && cell.key == Key(XKey(records[i], dimension), y)
  {
    var key := Key(XKey(records[i], dimension), y);
    FilteredHolds(records[i], records[i].attempts, j, dimension, y);
    assert Contributes(records[i], dimension, key);
    GroupWhereContributed(records, dimension, key);
    var cell := CellFor(records, dimension, baseline, key).value;
    assert multiset(cells)[cell] == 1;
    assert cell in multiset(cells);
  }

  lemma AllKeysListed(cells: seq<Cell>, records: seq<Record>, dimension: Dimension, baseline: Option<string>, i: nat)
    requires ListsCells(cells, records, dimension, baseline) && i < |records|
    ensures Lists(cells, records[i], records[i].attempts, dimension)
  {
    forall j | 0 <= j < |records[i].attempts|
      ensures KeysListed(cells, records[i], records[i].attempts[j], dimension)
    {
      forall y | y in KeysOf(records[i], records[i].attempts[j], dimension)
        ensures exists cell :: cell in cells && cell.key == Key(XKey(records[i], dimension), y)
      {
        KeyHasCell(cells, records, dimension, baseline, i, j, y);
      }
    }
  }

  /**
   Conservation along every dimension: summed over the cells, any per-attempt quantity is
   counted once for every key the attempt carries.
   */
  lemma EachAttemptCountedPerKey(cells: seq<Cell>, records: seq<Record>, dimension: Dimension,
                                 baseline: Option<string>, weight: Attempt -> real)
    requires ListsCells(cells, records, dimension, baseline)
    ensures SumOverCells(cells, records, dimension, weight) == ExpectedOfAll(records, dimension, weight)
  {
    ListedOnce(cells, records, dimension, baseline);
    forall i | 0 <= i < |records|
      ensures Lists(cells, records[i], records[i].attempts, dimension)
    {
      AllKeysListed(cells, records, dimension, baseline, i);
    }
    RecordsAreConserved(cells, records, dimension, weight);
  }

  // ---------- Sample counts and score totals ----------

  function SumSamples(cells: seq<Cell>): nat {
    if cells == [] then 0 else SumSamples(cells[..|cells| - 1]) + cells[|cells| - 1].metrics.sampleCount
  }

  /** The total behind an average. */
  function ScoreTotal(metrics: Metrics): real {
    if metrics.score.Some? then metrics.score.value * metrics.sampleCount as real else 0.0
  }

  function SumScores(cells: seq<Cell>): real {
    if cells == [] then 0.0 else SumScores(cells[..|cells| - 1]) + ScoreTotal(cells[|cells| - 1].metrics)
  }

  function CostTotal(metrics: Metrics): real {
    if metrics.cost.Some? then metrics.cost.value else 0.0
  }

  function SumCosts(cells: seq<Cell>): real {
    if cells == [] then 0.0 else SumCosts(cells[..|cells| - 1]) + CostTotal(cells[|cells| - 1].metrics)
  }

  function HeatmapCosts(records: seq<Record>): real {
    if records == [] then 0.0
    else HeatmapCosts(records[..|records| - 1]) + CostTotal(AttemptMetrics(records[|records| - 1].attempts))
  }

  function HeatmapSamples(records: seq<Record>): nat {
    if records == [] then 0
    else HeatmapSamples(records[..|records| - 1]) + AttemptMetrics(records[|records| - 1].attempts).sampleCount
  }

  function HeatmapScores(records: seq<Record>): real {
    if records == [] then 0.0
    else HeatmapScores(records[..|records| - 1]) + ScoreTotal(AttemptMetrics(records[|records| - 1].attempts))
  }

  function ScoredWeight(attempt: Attempt): real {
    if Scored(attempt) then 1.0 else 0.0
  }

  lemma {:induction false} CountsAndTotals(attempts: seq<Attempt>)
    ensures Count(attempts, Scored) as real == Total(attempts, ScoredWeight)
    ensures Count(attempts, Scored) == 0 ==> Total(attempts, ScoreValue) == 0.0
    ensures Count(attempts, Priced) == 0 ==> Total(attempts, CostValue) == 0.0
  {
    if attempts != [] {
      CountsAndTotals(attempts[..|attempts| - 1]);
    }
  }

  lemma RatioTimesWhole(total: real, n: nat)
    requires n > 0
    ensures Ratio(total, n).value * n as real == total
  {
  }

  lemma {:induction false} MetricTotals(attempts: seq<Attempt>)
    ensures AttemptMetrics(attempts).sampleCount as real == Total(attempts, ScoredWeight)
    ensures ScoreTotal(AttemptMetrics(attempts)) == Total(attempts, ScoreValue)
    ensures CostTotal(AttemptMetrics(attempts)) == Total(attempts, CostValue)
  {
    var m := AttemptMetrics(attempts);
    CountsAndTotals(attempts);
    assert m.score == Ratio(Total(attempts, ScoreValue), m.sampleCount);
    if m.sampleCount > 0 {
      RatioTimesWhole(Total(attempts, ScoreValue), m.sampleCount);
    }
  }

  lemma {:induction false} ScoresAreCounted(attempts: seq<Attempt>)
    ensures |Scores(attempts)| == Count(attempts, Scored)
    ensures Sequences.Sum(Scores(attempts)) == Total(attempts, ScoreValue)
  {
    if attempts != [] {
      var before, last := Scores(attempts[..|attempts| - 1]), attempts[|attempts| - 1];
      ScoresAreCounted(attempts[..|attempts| - 1]);
      if Scored(last) {
        assert (before + [last.score.value])[..|before|] == before;
      } else {
        assert before + [] == before;
      }
    }
  }

  /**
   A cell has an interval exactly when it has a score; the score is the mean the interval is
   centred on, and the clamped interval contains it whenever it lies in [0, 1].
   */
  lemma IntervalSurroundsScore(attempts: seq<Attempt>, root: real)
    requires var scores := AttemptMetrics(attempts).scores;
      scores != [] ==> Intervals.IsSqrt(root, Intervals.BernoulliVarianceOfMean(scores))
    ensures var m := AttemptMetrics(attempts);
      var interval := ConfidenceInterval(m, root);
      && interval.Some? == m.score.Some? == (m.scores != [])
      && (m.score.Some? ==> m.score.value == Sequences.Average(m.scores))
      && (m.score.Some? && 0.0 <= m.score.value <= 1.0 ==>
            0.0 <= interval.value.lower <= m.score.value <= interval.value.upper <= 1.0)
  {
    ScoresAreCounted(attempts);
  }

  lemma {:induction false} StatusesAreExclusive(attempts: seq<Attempt>)
    ensures Count(attempts, Succeeded) + Count(attempts, Failed) == Count(attempts, Terminal)
  {
    if attempts != [] {
      StatusesAreExclusive(attempts[..|attempts| - 1]);
    }
  }

  lemma QuotientsOfWhole(a: real, b: real, n: real)
    requires n > 0.0 && a + b == n
    ensures a / n + b / n == 1.0
  {
    assert (a / n) * n == a && (b / n) * n == b;
  }

  /** Success rate and error rate are present together and add up to one. */
  lemma {:induction false} RatesAddUp(attempts: seq<Attempt>)
    ensures var m := AttemptMetrics(attempts);
      && m.successRate.Some? == m.errorRate.Some? == (Count(attempts, Terminal) > 0)
      && (m.successRate.Some? ==> m.successRate.value + m.errorRate.value == 1.0)
  {
    StatusesAreExclusive(attempts);
    if Count(attempts, Terminal) > 0 {
      QuotientsOfWhole(Count(attempts, Succeeded) as real, Count(attempts, Failed) as real,
                       Count(attempts, Terminal) as real);
    }
  }

  // ---------- What each metric measures ----------

  /** The attempts with one of the statuses, by position. */
  ghost function WithStatus(attempts: seq<Attempt>, statuses: set<string>): set<int> {
    set i | 0 <= i < |attempts| && attempts[i].status in statuses
  }

  /** The ended attempts that carry the field, by position. */
  ghost function Carrying(attempts: seq<Attempt>, field: Attempt -> Option<real>): set<int> {
    set i | 0 <= i < |attempts| && attempts[i].status in {"succeeded", "failed"} && field(attempts[i]).Some?
  }

  /** The field of one attempt, zero unless it ended and carries the field. */
  ghost function Carried(attempt: Attempt, field: Attempt -> Option<real>): real {
    if attempt.status in {"succeeded", "failed"} && field(attempt).Some? then field(attempt).value else 0.0
  }

  /** The sum of the field over the ended attempts that carry it. */
  ghost function SumOfField(attempts: seq<Attempt>, field: Attempt -> Option<real>): real {
    Sequences.Sum(seq(|attempts|, i requires 0 <= i < |attempts| => Carried(attempts[i], field)))
  }

  lemma {:induction false} CountIsPositions(attempts: seq<Attempt>, test: Attempt -> bool)
    ensures Count(attempts, test) == |Sequences.Positions(attempts, test)|
  {
    if attempts != [] {
      CountIsPositions(attempts[..|attempts| - 1], test);
      Sequences.PositionsOfLast(attempts, test);
    }
  }

  lemma {:induction false} TotalIsSum(attempts: seq<Attempt>, field: Attempt -> Option<real>, weight: Attempt -> real)
    requires forall attempt :: weight(attempt) == Carried(attempt, field)
    ensures Total(attempts, weight) == SumOfField(attempts, field)
  {
    if attempts != [] {
      var front := attempts[..|attempts| - 1];
      var values := seq(|attempts|, i requires 0 <= i < |attempts| => Carried(attempts[i], field));
      TotalIsSum(front, field, weight);
      assert values[..|front|] == seq(|front|, i requires 0 <= i < |front| => Carried(front[i], field));
    }
  }

  lemma CountWithStatus(attempts: seq<Attempt>, test: Attempt -> bool, statuses: set<string>)
    requires forall attempt :: test(attempt) <==> attempt.status in statuses
    ensures Count(attempts, test) == |WithStatus(attempts, statuses)|
  {
    CountIsPositions(attempts, test);
    assert Sequences.Positions(attempts, test) == WithStatus(attempts, statuses);
  }

  lemma CountOfEnded(attempts: seq<Attempt>)
    ensures Count(attempts, Terminal) == |WithStatus(attempts, {"succeeded", "failed"})|
  {
    CountWithStatus(attempts, Terminal, {"succeeded", "failed"});
  }

  lemma CountOfEach(attempts: seq<Attempt>)
    ensures Count(attempts, Succeeded) == |WithStatus(attempts, {"succeeded"})|
    ensures Count(attempts, Failed) == |WithStatus(attempts, {"failed"})|
  {
    CountWithStatus(attempts, Succeeded, {"succeeded"});
    CountWithStatus(attempts, Failed, {"failed"});
  }

  /** A total divided by the number of positions, absent when there is none. */
  ghost function Over(total: real, positions: set<int>): Option<real> {
    if positions == {} then None else Some(total / |positions| as real)
  }

  /**
   The success rate is the share of the attempts with status succeeded, and the error rate the
   share of those with status failed, among the attempts with either status; no other counts.
   */
  lemma {:induction false} RatesAreShares(attempts: seq<Attempt>)
    ensures var ended := WithStatus(attempts, {"succeeded", "failed"});
      && AttemptMetrics(attempts).successRate == Over(|WithStatus(attempts, {"succeeded"})| as real, ended)
      && AttemptMetrics(attempts).errorRate == Over(|WithStatus(attempts, {"failed"})| as real, ended)
  {
    CountOfEnded(attempts);
    CountOfEach(attempts);
  }

  lemma FieldMeans(attempts: seq<Attempt>, field: Attempt -> Option<real>, test: Attempt -> bool, weight: Attempt -> real)
    requires forall attempt ::
      test(attempt) <==> attempt.status in {"succeeded", "failed"} && field(attempt).Some?
    requires forall attempt :: weight(attempt) == Carried(attempt, field)
    ensures Count(attempts, test) == |Carrying(attempts, field)|
    ensures Total(attempts, weight) == SumOfField(attempts, field)
    ensures Ratio(Total(attempts, weight), Count(attempts, test)) == Over(SumOfField(attempts, field), Carrying(attempts, field))
  {
    CountIsPositions(attempts, test);
    assert Sequences.Positions(attempts, test) == Carrying(attempts, field);
    TotalIsSum(attempts, field, weight);
  }

  /**
   Score and latency are the means, and the cost is the sum, over exactly the ended attempts that
   carry the field; each is absent when there is none.
   */
  lemma {:induction false} AveragesAreMeans(attempts: seq<Attempt>)
    ensures var score := (a: Attempt) => a.score;
      && AttemptMetrics(attempts).score == Over(SumOfField(attempts, score), Carrying(attempts, score))
      && AttemptMetrics(attempts).sampleCount == |Carrying(attempts, score)|
    ensures var latency := (a: Attempt) => a.latency;
      AttemptMetrics(attempts).latency == Over(SumOfField(attempts, latency), Carrying(attempts, latency))
    ensures var cost := (a: Attempt) => a.cost;
      AttemptMetrics(attempts).cost
        == if Carrying(attempts, cost) == {} then None else Some(SumOfField(attempts, cost))
  {
    FieldMeans(attempts, (a: Attempt) => a.score, Scored, ScoreValue);
    FieldMeans(attempts, (a: Attempt) => a.latency, Timed, LatencyValue);
    FieldMeans(attempts, (a: Attempt) => a.cost, Priced, CostValue);
  }

  lemma {:induction false} CellSums(cells: seq<Cell>, records: seq<Record>, dimension: Dimension, baseline: Option<string>)
    requires Owned(cells, records, dimension, baseline)
    ensures SumSamples(cells) as real == SumOverCells(cells, records, dimension, ScoredWeight)
    ensures SumScores(cells) == SumOverCells(cells, records, dimension, ScoreValue)
    ensures SumCosts(cells) == SumOverCells(cells, records, dimension, CostValue)
    decreases |cells|
  {
    if cells != [] {
      CellSums(cells[..|cells| - 1], records, dimension, baseline);
      GroupHoldsCellAttempts(records, dimension, cells[|cells| - 1].key);
      MetricTotals(CellAttempts(records, dimension, cells[|cells| - 1].key));
    }
  }

  lemma {:induction false} SingleKeyExpected(record: Record, attempts: seq<Attempt>, dimension: Dimension,
                                             weight: Attempt -> real)
    requires !dimension.ModelCapability?
    ensures Expected(record, attempts, dimension, weight) == Total(attempts, weight)
    decreases |attempts|
  {
    if attempts != [] {
      SingleKeyExpected(record, attempts[..|attempts| - 1], dimension, weight);
      assert |KeysOf(record, attempts[|attempts| - 1], dimension)| == 1;
      TimesIsProduct(1, weight(attempts[|attempts| - 1]));
    }
  }

  lemma {:induction false} HeatmapSums(records: seq<Record>, dimension: Dimension)
    requires !dimension.ModelCapability?
    ensures HeatmapSamples(records) as real == ExpectedOfAll(records, dimension, ScoredWeight)
    ensures HeatmapScores(records) == ExpectedOfAll(records, dimension, ScoreValue)
    ensures HeatmapCosts(records) == ExpectedOfAll(records, dimension, CostValue)
    decreases |records|
  {
    if records != [] {
      var last := records[|records| - 1];
      HeatmapSums(records[..|records| - 1], dimension);
      SingleKeyExpected(last, last.attempts, dimension, ScoredWeight);
      SingleKeyExpected(last, last.attempts, dimension, ScoreValue);
      SingleKeyExpected(last, last.attempts, dimension, CostValue);
      MetricTotals(last.attempts);
    }
  }

  /**
   Except along the capability dimension the cells partition the evidence: sample counts, score
   totals and costs add up to those of the per-run heatmap.
   */
  lemma {:induction false} CellsMatchHeatmap(cells: seq<Cell>, records: seq<Record>, dimension: Dimension, baseline: Option<string>)
    requires ListsCells(cells, records, dimension, baseline) && !dimension.ModelCapability?
    ensures SumSamples(cells) == HeatmapSamples(records)
    ensures SumScores(cells) == HeatmapScores(records)
    ensures SumCosts(cells) == HeatmapCosts(records)
  {
    ListedOnce(cells, records, dimension, baseline);
    CellSums(cells, records, dimension, baseline);
    HeatmapSums(records, dimension);
    EachAttemptCountedPerKey(cells, records, dimension, baseline, ScoredWeight);
    EachAttemptCountedPerKey(cells, records, dimension, baseline, ScoreValue);
    EachAttemptCountedPerKey(cells, records, dimension, baseline, CostValue);
  }

  // ---------- Runs and currencies of a cell ----------

  lemma {:induction false} RunContributes(records: seq<Record>, runId: string, dimension: Dimension, key: Key)
    ensures (exists i :: 0 <= i < |RecordsOf(records, runId)| && Contributes(RecordsOf(records, runId)[i], dimension, key))
       <==> (exists i :: 0 <= i < |records| && records[i].runId == runId && Contributes(records[i], dimension, key))
  {
    if records != [] {
      var front, last := records[..|records| - 1], records[|records| - 1];
      var own := RecordsOf(front, runId);
      RunContributes(front, runId, dimension, key);
      assert records == front + [last];
      assert RecordsOf(records, runId) == own + if last.runId == runId then [last] else [];
      if i :| 0 <= i < |own| && Contributes(own[i], dimension, key) {
        assert RecordsOf(records, runId)[i] == own[i];
      }
      if i :| 0 <= i < |front| && front[i].runId == runId && Contributes(front[i], dimension, key) {
        assert records[i] == front[i];
      }
      if last.runId == runId && Contributes(last, dimension, key) {
        assert RecordsOf(records, runId)[|own|] == last && records[|front|] == last;
      }
    }
  }

  /** A cell names exactly the runs that contribute to it. */
  lemma {:induction false} RunIdsAreContributors(records: seq<Record>, dimension: Dimension, baseline: Option<string>, key: Key, runId: string)
    requires GroupOf(records, dimension, key).Some?
    ensures runId in CellFor(records, dimension, baseline, key).value.runIds
       <==> exists i :: 0 <= i < |records| && records[i].runId == runId && Contributes(records[i], dimension, key)
  {
    ByRunIsOwnCell(records, dimension, key, runId);
    GroupWhereContributed(RecordsOf(records, runId), dimension, key);
    RunContributes(records, runId, dimension, key);
  }

  ghost predicate Pays(record: Record, dimension: Dimension, key: Key, currency: string) {
    Contributes(record, dimension, key) && record.currency == Some(currency) && currency != ""
  }

  ghost predicate SomePays(records: seq<Record>, dimension: Dimension, key: Key, currency: string) {
    exists i :: 0 <= i < |records| && Pays(records[i], dimension, key, currency)
  }

  lemma {:induction false} CurrenciesOfGroup(records: seq<Record>, dimension: Dimension, key: Key, currency: string)
    ensures (GroupOf(records, dimension, key).Some? && currency in GroupOf(records, dimension, key).value.currencies)
       <==> SomePays(records, dimension, key, currency)
  {
    if records != [] {
      var front, last := records[..|records| - 1], records[|records| - 1];
      CurrenciesOfGroup(front, dimension, key, currency);
      assert records == front + [last];
      if i :| 0 <= i < |front| && Pays(front[i], dimension, key, currency) {
        assert Pays(records[i], dimension, key, currency);
      }
      if i :| 0 <= i < |records| && Pays(records[i], dimension, key, currency) {
        assert i < |front| ==> Pays(front[i], dimension, key, currency);
      }
      if Pays(last, dimension, key, currency) {
        assert Pays(records[|front|], dimension, key, currency);
      }
    }
  }

  /** A cell shows a currency exactly when it is the only one among the contributing runs. */
  lemma CurrencyIsCommon(records: seq<Record>, dimension: Dimension, baseline: Option<string>, key: Key, currency: string)
    requires GroupOf(records, dimension, key).Some?
    ensures CellFor(records, dimension, baseline, key).value.currency == Some(currency)
       <==> && SomePays(records, dimension, key, currency)
            && (forall other :: SomePays(records, dimension, key, other) ==> other == currency)
  {
    var currencies := GroupOf(records, dimension, key).value.currencies;
    if currency in currencies && forall other :: other in currencies ==> other == currency {
      assert currencies == {currency};
    } else if |currencies| == 1 {
      SingletonMember(currencies);
    }
    forall other
      ensures other in currencies <==> SomePays(records, dimension, key, other)
    {
      CurrenciesOfGroup(records, dimension, key, other);
    }
  }
}
