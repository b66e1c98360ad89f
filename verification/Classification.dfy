/**
 Macro-averaged classification metrics (backend/app/modules/benchmarks/metrics.py), in exact
 real arithmetic before the final rounding.
 */
module Classification {
  import opened Options
  import opened Ordering
  import opened Sequences
  import opened Text

  /** An attempt's evidence: `None` where the source's type test fails. */
  datatype Attempt = Attempt(prediction: Option<string>, answer: Option<string>)

  datatype Pair = Pair(predicted: string, reference: string)

  // ---------- Pairs ----------

  function PairOf(attempt: Attempt): seq<Pair> {
    if attempt.prediction.Some? && attempt.answer.Some?
    then [Pair(Strip(attempt.prediction.value), Strip(attempt.answer.value))]
    else []
  }

  function PairsOf(attempts: seq<Attempt>): seq<Pair> {
    if attempts == [] then [] else PairsOf(attempts[..|attempts| - 1]) + PairOf(attempts[|attempts| - 1])
  }

  /** `_prediction_reference_pairs`. */
  method PredictionReferencePairs(attempts: seq<Attempt>) returns (pairs: seq<Pair>)
    ensures pairs == PairsOf(attempts)
  {
    pairs := [];
    for i := 0 to |attempts|
      invariant pairs == PairsOf(attempts[..i])
    {
      var attempt := attempts[i];
      if attempt.prediction.Some? && attempt.answer.Some? {
        pairs := pairs + [Pair(Strip(attempt.prediction.value), Strip(attempt.answer.value))];
      }
      assert attempts[..i + 1][..i] == attempts[..i];
    }
    assert attempts[..|attempts|] == attempts;
  }

  // ---------- Counts ----------

  /** True positives, false positives and false negatives. */
  datatype Counts = Counts(tp: nat, fp: nat, fn: nat)

  function AddCounts(a: Counts, b: Counts): Counts {
    Counts(a.tp + b.tp, a.fp + b.fp, a.fn + b.fn)
  }

  function Contribution(pair: Pair, category: string): Counts {
    Counts(if pair.predicted == category && pair.reference == category then 1 else 0,
           if pair.predicted == category && pair.reference != category then 1 else 0,
           if pair.predicted != category && pair.reference == category then 1 else 0)
  }

  function Tally(pairs: seq<Pair>, category: string): Counts {
    if pairs == [] then Counts(0, 0, 0)
    else AddCounts(Tally(pairs[..|pairs| - 1], category), Contribution(pairs[|pairs| - 1], category))
  }

  function Correct(pairs: seq<Pair>): nat {
    if pairs == [] then 0
    else Correct(pairs[..|pairs| - 1]) + if pairs[|pairs| - 1].predicted == pairs[|pairs| - 1].reference then 1 else 0
  }

  predicate NoRepeats(labels: seq<string>) {
    labels == [] || (labels[|labels| - 1] !in labels[..|labels| - 1] && NoRepeats(labels[..|labels| - 1]))
  }

  /** Every label that is predicted or is a reference. */
  predicate Covers(labels: seq<string>, pairs: seq<Pair>) {
    forall i :: 0 <= i < |pairs| ==> pairs[i].predicted in labels && pairs[i].reference in labels
  }

  function Total(pairs: seq<Pair>, labels: seq<string>): Counts {
    if labels == [] then Counts(0, 0, 0)
    else AddCounts(Total(pairs, labels[..|labels| - 1]), Tally(pairs, labels[|labels| - 1]))
  }

  function PairTotal(pair: Pair, labels: seq<string>): Counts {
    if labels == [] then Counts(0, 0, 0)
    else AddCounts(PairTotal(pair, labels[..|labels| - 1]), Contribution(pair, labels[|labels| - 1]))
  }

  lemma {:induction false} TotalOfLast(pairs: seq<Pair>, labels: seq<string>)
    requires pairs != []
    ensures Total(pairs, labels)
         == AddCounts(Total(pairs[..|pairs| - 1], labels), PairTotal(pairs[|pairs| - 1], labels))
  {
    if labels != [] {
      TotalOfLast(pairs, labels[..|labels| - 1]);
    }
  }

  lemma {:induction false} TotalOfNone(labels: seq<string>)
    ensures Total([], labels) == Counts(0, 0, 0)
  {
    if labels != [] {
      TotalOfNone(labels[..|labels| - 1]);
    }
  }

  lemma InLast(labels: seq<string>, category: string)
    requires labels != []
    ensures category in labels <==> category in labels[..|labels| - 1] || category == labels[|labels| - 1]
  {
    assert labels == labels[..|labels| - 1] + [labels[|labels| - 1]];
  }

  /** Each pair is counted at its predicted label and at its reference label, once each. */
  lemma {:induction false} PairCountedOnce(pair: Pair, labels: seq<string>)
    requires NoRepeats(labels)
    ensures var t := PairTotal(pair, labels);
      && t.tp + t.fp == (if pair.predicted in labels then 1 else 0)
      && t.tp + t.fn == (if pair.reference in labels then 1 else 0)
      && t.tp == (if pair.predicted == pair.reference && pair.predicted in labels then 1 else 0)
  {
    if labels != [] {
      PairCountedOnce(pair, labels[..|labels| - 1]);
      InLast(labels, pair.predicted);
      InLast(labels, pair.reference);
    }
  }

  /**
   Conservation: over all labels the true positives are the correct predictions, and both
   TP+FP and TP+FN add up to the number of pairs.
   */
  lemma {:induction false} CountsAreConserved(pairs: seq<Pair>, labels: seq<string>)
    requires NoRepeats(labels) && Covers(labels, pairs)
    ensures var t := Total(pairs, labels);
      t.tp == Correct(pairs) && t.tp + t.fp == |pairs| && t.tp + t.fn == |pairs|
  {
    if pairs == [] {
      TotalOfNone(labels);
    } else {
      CountsAreConserved(pairs[..|pairs| - 1], labels);
      TotalOfLast(pairs, labels);
      PairCountedOnce(pairs[|pairs| - 1], labels);
    }
  }

  // ---------- Scores of one label ----------

  datatype Score = Score(precision: real, recall: real, f1: real)

  function AddScores(a: Score, b: Score): Score {
    Score(a.precision + b.precision, a.recall + b.recall, a.f1 + b.f1)
  }

  function Precision(c: Counts): real {
    if c.tp + c.fp != 0 then c.tp as real / (c.tp + c.fp) as real else 0.0
  }

  function Recall(c: Counts): real {
    if c.tp + c.fn != 0 then c.tp as real / (c.tp + c.fn) as real else 0.0
  }

  function HarmonicMean(p: real, r: real): real {
    if p + r != 0.0 then 2.0 * p * r / (p + r) else 0.0
  }

  function ScoreOf(c: Counts): Score {
    Score(Precision(c), Recall(c), HarmonicMean(Precision(c), Recall(c)))
  }

  lemma Ratio(n: int, d: int)
    requires 0 <= n <= d && d > 0
    ensures 0.0 <= n as real / d as real <= 1.0
    ensures n as real / d as real * d as real == n as real
    ensures n as real / d as real == 0.0 <==> n == 0
    ensures n as real / d as real == 1.0 <==> n == d
  {
    var q := n as real / d as real;
    assert q * d as real == n as real;
  }

  lemma HarmonicMeanOfRatios(t: real, a: real, b: real, p: real, r: real)
    requires t > 0.0 && a > 0.0 && b > 0.0 && p * a == t && r * b == t
    ensures HarmonicMean(p, r) == 2.0 * t / (a + b)
  {
    assert p > 0.0 && r > 0.0;
    var s := p + r;
    var h := 2.0 * t / (a + b);
    assert h * (a + b) == 2.0 * t;
    calc {
      h * s * (a * b);
      h * ((p * a) * b + (r * b) * a);
      h * (t * b + t * a);
      t * (h * (a + b));
      t * (2.0 * t);
      2.0 * (p * a) * (r * b);
      2.0 * p * r * (a * b);
    }
    var ab := a * b;
    assert ab > 0.0;
    assert (h * s - 2.0 * p * r) * ab == 0.0;
  }

  /** F1 is 2TP / (2TP + FP + FN), and 0 when the label never occurs. */
  lemma F1IsCountRatio(c: Counts)
    ensures ScoreOf(c).f1 == if 2 * c.tp + c.fp + c.fn == 0 then 0.0
                             else (2 * c.tp) as real / (2 * c.tp + c.fp + c.fn) as real
  {
    if c.tp > 0 {
      Ratio(c.tp, c.tp + c.fp);
      Ratio(c.tp, c.tp + c.fn);
      HarmonicMeanOfRatios(c.tp as real, (c.tp + c.fp) as real, (c.tp + c.fn) as real, Precision(c), Recall(c));
      assert (c.tp + c.fp) as real + (c.tp + c.fn) as real == (2 * c.tp + c.fp + c.fn) as real;
      assert 2.0 * c.tp as real == (2 * c.tp) as real;
    } else {
      assert Precision(c) == 0.0 && Recall(c) == 0.0;
    }
  }

  lemma HarmonicMeanBetween(p: real, r: real)
    requires 0.0 <= p <= r
    ensures p <= HarmonicMean(p, r) <= r
    ensures HarmonicMean(p, r) <= (p + r) / 2.0
    ensures HarmonicMean(p, r) == HarmonicMean(r, p)
  {
    if p + r != 0.0 {
      var h := HarmonicMean(p, r);
      var s := p + r;
      assert h * s == 2.0 * p * r;
      var gap := r - p;
      assert p * gap >= 0.0 && r * gap >= 0.0 && gap * gap >= 0.0;
      assert p * s == 2.0 * p * r - p * gap;
      assert r * s == 2.0 * p * r + r * gap;
      assert (s / 2.0) * s == 2.0 * p * r + gap * gap / 2.0;
      Below(p, h, s);
      Below(h, r, s);
      Below(h, s / 2.0, s);
      assert 2.0 * r * p == 2.0 * p * r;
    }
  }

  lemma Below(x: real, y: real, z: real)
    requires z > 0.0 && x * z <= y * z
    ensures x <= y
  {
    assert (y - x) * z == y * z - x * z;
  }

  /** F1 lies between precision and recall, never above their mean, and all are in [0, 1]. */
  lemma F1Between(c: Counts)
    ensures var s := ScoreOf(c);
      && 0.0 <= s.precision <= 1.0 && 0.0 <= s.recall <= 1.0
      && (s.precision <= s.f1 <= s.recall || s.recall <= s.f1 <= s.precision)
      && s.f1 <= (s.precision + s.recall) / 2.0
  {
    if c.tp + c.fp != 0 {
      Ratio(c.tp, c.tp + c.fp);
    }
    if c.tp + c.fn != 0 {
      Ratio(c.tp, c.tp + c.fn);
    }
    var p, r := Precision(c), Recall(c);
    HarmonicMeanBetween(if p <= r then p else r, if p <= r then r else p);
  }

  // ---------- Macro averages ----------

  function MacroSum(pairs: seq<Pair>, labels: seq<string>): Score {
    if labels == [] then Score(0.0, 0.0, 0.0)
    else AddScores(MacroSum(pairs, labels[..|labels| - 1]), ScoreOf(Tally(pairs, labels[|labels| - 1])))
  }

  function Mentioned(pairs: seq<Pair>): seq<string> {
    if pairs == [] then []
    else AddNew(AddNew(Mentioned(pairs[..|pairs| - 1]), pairs[|pairs| - 1].predicted), pairs[|pairs| - 1].reference)
  }

  function AddNew(labels: seq<string>, category: string): seq<string> {
    if category in labels then labels else labels + [category]
  }

  /** `sorted({...})`: every mentioned label once, in order. */
  function Labels(pairs: seq<Pair>): seq<string> {
    Sort(CompareText, Mentioned(pairs))
  }

  ghost predicate Mentions(pairs: seq<Pair>, category: string) {
    exists i :: 0 <= i < |pairs| && (pairs[i].predicted == category || pairs[i].reference == category)
  }

  lemma MentionsLast(pairs: seq<Pair>, category: string)
    requires pairs != []
    ensures var last := pairs[|pairs| - 1];
      Mentions(pairs, category) <==>
        Mentions(pairs[..|pairs| - 1], category) || last.predicted == category || last.reference == category
  {
    var front := pairs[..|pairs| - 1];
    assert forall i :: 0 <= i < |front| ==> front[i] == pairs[i];
  }

  lemma {:induction false} MentionedIsExact(pairs: seq<Pair>)
    ensures NoRepeats(Mentioned(pairs))
    ensures forall category :: category in Mentioned(pairs) <==> Mentions(pairs, category)
  {
    if pairs != [] {
      MentionedIsExact(pairs[..|pairs| - 1]);
      forall category
        ensures category in Mentioned(pairs) <==> Mentions(pairs, category)
      {
        MentionsLast(pairs, category);
      }
    }
  }

  lemma LabelsAreExact(pairs: seq<Pair>)
    ensures StrictlySorted(CompareText, Labels(pairs)) && NoRepeats(Labels(pairs))
    ensures forall category :: category in Labels(pairs) <==> Mentions(pairs, category)
    ensures Covers(Labels(pairs), pairs)
  {
    var labels := Labels(pairs);
    MentionedIsExact(pairs);
    TextIsOrdered();
    SortSorts(CompareText, Mentioned(pairs));
    SameElements(labels, Mentioned(pairs));
    OnceEach(Mentioned(pairs));
    NoRepeatsCount(labels);
    forall i, j | 0 <= i < j < |labels|
      ensures CompareText(labels[i], labels[j]) < 0
    {
      CompareTextReverses(labels[i], labels[j]);
    }
    forall i | 0 <= i < |pairs|
      ensures pairs[i].predicted in labels && pairs[i].reference in labels
    {
      assert Mentions(pairs, pairs[i].predicted) && Mentions(pairs, pairs[i].reference);
    }
  }

  lemma {:induction false} OnceEach(s: seq<string>)
    requires NoRepeats(s)
    ensures forall x :: multiset(s)[x] == if x in s then 1 else 0
  {
    if s != [] {
      var front, last := s[..|s| - 1], s[|s| - 1];
      OnceEach(front);
      assert s == front + [last];
    }
  }

  lemma SameOnce(s: seq<string>, t: seq<string>)
    requires NoRepeats(s) && NoRepeats(t)
    requires forall x :: x in s <==> x in t
    ensures multiset(s) == multiset(t)
  {
    OnceEach(s);
    OnceEach(t);
  }

  lemma {:induction false} NoRepeatsCount(s: seq<string>)
    requires forall x :: multiset(s)[x] <= 1
    ensures NoRepeats(s)
    ensures forall i, j :: 0 <= i < j < |s| ==> s[i] != s[j]
  {
    if s != [] {
      var front, last := s[..|s| - 1], s[|s| - 1];
      assert s == front + [last];
      assert multiset(front)[last] + 1 == multiset(s)[last];
      forall x
        ensures multiset(front)[x] <= 1
      {
        assert multiset(front)[x] <= multiset(s)[x];
      }
      NoRepeatsCount(front);
      assert last !in front;
    }
  }

  datatype Metrics = Metrics(accuracy: real, macro: Score, samples: nat)

  function Mean(sum: Score, n: nat): Score
    requires n > 0
  {
    Score(sum.precision / n as real, sum.recall / n as real, sum.f1 / n as real)
  }

  function MetricsOf(pairs: seq<Pair>): (metrics: Option<Metrics>)
    ensures metrics.Some? <==> pairs != []
  {
    if pairs == [] then None
    else
      Some(Metrics(Correct(pairs) as real / |pairs| as real, Mean(MacroSum(pairs, Labels(pairs)), |Labels(pairs)|), |pairs|))
  }

  method MacroAverages(pairs: seq<Pair>, labels: seq<string>) returns (macro: Score)
    requires labels != []
    ensures macro == Mean(MacroSum(pairs, labels), |labels|)
  {
    var precisions: seq<real>, recalls: seq<real>, f1Values: seq<real> := [], [], [];
    ghost var sums := MacroSum(pairs, []);
    for i := 0 to |labels|
      invariant |precisions| == |recalls| == |f1Values| == i
      invariant sums == MacroSum(pairs, labels[..i]) == Score(Sum(precisions), Sum(recalls), Sum(f1Values))
    {
      var score := ScoreOf(Tally(pairs, labels[i]));
      assert labels[..i + 1][..i] == labels[..i];
      SumOfAppended(precisions, score.precision);
      SumOfAppended(recalls, score.recall);
      SumOfAppended(f1Values, score.f1);
      precisions := precisions + [score.precision];
      recalls := recalls + [score.recall];
      f1Values := f1Values + [score.f1];
      sums := AddScores(sums, score);
    }
    assert labels[..|labels|] == labels;
    macro := Score(Average(precisions), Average(recalls), Average(f1Values));
  }

  /** `_classification_metrics`, `None` when there is no valid pair. */
  method ClassificationMetrics(attempts: seq<Attempt>) returns (metrics: Option<Metrics>)
    ensures metrics == MetricsOf(PairsOf(attempts))
  {
    var pairs := PredictionReferencePairs(attempts);
    if pairs == [] {
      return None;
    }
    var macro := MacroAverages(pairs, Labels(pairs));
    metrics := Some(Metrics(Correct(pairs) as real / |pairs| as real, macro, |pairs|));
  }

  // ---------- What each score measures ----------

  predicate Labelled(attempt: Attempt) {
    attempt.prediction.Some? && attempt.answer.Some?
  }

  predicate Predicts(attempt: Attempt, category: string) {
    Labelled(attempt) && Strip(attempt.prediction.value) == category
  }

  predicate Answers(attempt: Attempt, category: string) {
    Labelled(attempt) && Strip(attempt.answer.value) == category
  }

  predicate Agrees(attempt: Attempt) {
    Labelled(attempt) && Strip(attempt.prediction.value) == Strip(attempt.answer.value)
  }

  /** The attempts that predict the label, by position. */
  ghost function Predicting(attempts: seq<Attempt>, category: string): set<int> {
    Positions(attempts, (attempt: Attempt) => Predicts(attempt, category))
  }

  /** Those whose reference answer is the label. */
  ghost function Answering(attempts: seq<Attempt>, category: string): set<int> {
    Positions(attempts, (attempt: Attempt) => Answers(attempt, category))
  }

  /** Those that predict it and have it as their reference. */
  ghost function Hitting(attempts: seq<Attempt>, category: string): set<int> {
    Positions(attempts, (attempt: Attempt) => Predicts(attempt, category) && Answers(attempt, category))
  }

  ghost function Quotient(part: set<int>, whole: set<int>): real {
    if |whole| == 0 then 0.0 else |part| as real / |whole| as real
  }

  function ContributionOf(attempt: Attempt, category: string): Counts {
    if Labelled(attempt)
    then Contribution(Pair(Strip(attempt.prediction.value), Strip(attempt.answer.value)), category)
    else Counts(0, 0, 0)
  }

  lemma TallyNext(attempts: seq<Attempt>, category: string)
    requires attempts != []
    ensures var front, last := attempts[..|attempts| - 1], attempts[|attempts| - 1];
      && Tally(PairsOf(attempts), category) == AddCounts(Tally(PairsOf(front), category), ContributionOf(last, category))
      && |PairsOf(attempts)| == |PairsOf(front)| + (if Labelled(last) then 1 else 0)
      && Correct(PairsOf(attempts)) == Correct(PairsOf(front)) + (if Agrees(last) then 1 else 0)
  {
    var before, more := PairsOf(attempts[..|attempts| - 1]), PairOf(attempts[|attempts| - 1]);
    if more == [] {
      assert before + more == before;
    } else {
      assert (before + more)[..|before|] == before;
    }
  }

  lemma {:induction false} TallyOverAttempts(attempts: seq<Attempt>, category: string)
    ensures var c := Tally(PairsOf(attempts), category);
      && c.tp == |Hitting(attempts, category)|
      && c.tp + c.fp == |Predicting(attempts, category)|
      && c.tp + c.fn == |Answering(attempts, category)|
  {
    if attempts != [] {
      TallyOverAttempts(attempts[..|attempts| - 1], category);
      TallyNext(attempts, category);
      PositionsOfLast(attempts, (attempt: Attempt) => Predicts(attempt, category) && Answers(attempt, category));
      PositionsOfLast(attempts, (attempt: Attempt) => Predicts(attempt, category));
      PositionsOfLast(attempts, (attempt: Attempt) => Answers(attempt, category));
    }
  }

  lemma {:induction false} CorrectOverAttempts(attempts: seq<Attempt>)
    ensures |PairsOf(attempts)| == |Positions(attempts, Labelled)|
    ensures Correct(PairsOf(attempts)) == |Positions(attempts, Agrees)|
  {
    if attempts != [] {
      CorrectOverAttempts(attempts[..|attempts| - 1]);
      TallyNext(attempts, "");
      PositionsOfLast(attempts, Labelled);
      PositionsOfLast(attempts, Agrees);
    }
  }

  /**
   Of the attempts that predict a label, precision is the share whose reference is the label; of
   those whose reference it is, recall is the share that predict it; each is 0 when there are none.
   F1 is twice the hits over both.
   */
  ghost predicate Scores(attempts: seq<Attempt>, category: string, score: Score) {
    var hits, predicting, answering := Hitting(attempts, category), Predicting(attempts, category), Answering(attempts, category);
    && score.precision == Quotient(hits, predicting)
    && score.recall == Quotient(hits, answering)
    && score.f1 == if |predicting| + |answering| == 0 then 0.0
                   else (2 * |hits|) as real / (|predicting| + |answering|) as real
  }

  lemma ScoreFromCounts(c: Counts, hits: nat, predicting: nat, answering: nat)
    requires c.tp == hits && c.tp + c.fp == predicting && c.tp + c.fn == answering
    ensures ScoreOf(c).precision == if predicting == 0 then 0.0 else hits as real / predicting as real
    ensures ScoreOf(c).recall == if answering == 0 then 0.0 else hits as real / answering as real
    ensures ScoreOf(c).f1 == if predicting + answering == 0 then 0.0
                             else (2 * hits) as real / (predicting + answering) as real
  {
    F1IsCountRatio(c);
    assert 2 * c.tp + c.fp + c.fn == predicting + answering;
  }

  lemma ScoresAreShares(attempts: seq<Attempt>, category: string)
    ensures Scores(attempts, category, ScoreOf(Tally(PairsOf(attempts), category)))
  {
    TallyOverAttempts(attempts, category);
    ScoreFromCounts(Tally(PairsOf(attempts), category), |Hitting(attempts, category)|,
                    |Predicting(attempts, category)|, |Answering(attempts, category)|);
  }

  ghost predicate Occurs(attempts: seq<Attempt>, category: string) {
    exists i :: 0 <= i < |attempts| && (Predicts(attempts[i], category) || Answers(attempts[i], category))
  }

  /** Every label that occurs, once each, with its score. */
  ghost predicate ScoreTable(attempts: seq<Attempt>, labels: seq<string>, scores: seq<Score>) {
    && |labels| == |scores|
    && (forall i, j :: 0 <= i < j < |labels| ==> labels[i] != labels[j])
    && (forall category :: category in labels <==> Occurs(attempts, category))
    && (forall k :: 0 <= k < |labels| ==> Scores(attempts, labels[k], scores[k]))
  }

  lemma {:induction false} OccursIsMentions(attempts: seq<Attempt>, category: string)
    ensures Occurs(attempts, category) <==> Mentions(PairsOf(attempts), category)
  {
    if attempts != [] {
      var front, last := attempts[..|attempts| - 1], attempts[|attempts| - 1];
      OccursIsMentions(front, category);
      OccursLast(attempts, category);
      if PairOf(last) == [] {
        assert PairsOf(attempts) == PairsOf(front);
      } else {
        assert PairsOf(attempts)[..|PairsOf(attempts)| - 1] == PairsOf(front);
        MentionsLast(PairsOf(attempts), category);
      }
    }
  }

  lemma OccursLast(attempts: seq<Attempt>, category: string)
    requires attempts != []
    ensures var front, last := attempts[..|attempts| - 1], attempts[|attempts| - 1];
      Occurs(attempts, category) == (Occurs(front, category) || Predicts(last, category) || Answers(last, category))
  {
    var front := attempts[..|attempts| - 1];
    if i :| 0 <= i < |front| && (Predicts(front[i], category) || Answers(front[i], category)) {
      assert attempts[i] == front[i];
    }
    if i :| 0 <= i < |attempts| && (Predicts(attempts[i], category) || Answers(attempts[i], category)) {
      assert i < |front| ==> front[i] == attempts[i];
    }
  }

  lemma {:induction false} DistinctNoRepeats(labels: seq<string>)
    requires forall i, j :: 0 <= i < j < |labels| ==> labels[i] != labels[j]
    ensures NoRepeats(labels)
  {
    if labels != [] {
      DistinctNoRepeats(labels[..|labels| - 1]);
    }
  }

  function Precisions(scores: seq<Score>): seq<real> {
    seq(|scores|, k requires 0 <= k < |scores| => scores[k].precision)
  }

  function Recalls(scores: seq<Score>): seq<real> {
    seq(|scores|, k requires 0 <= k < |scores| => scores[k].recall)
  }

  function F1Values(scores: seq<Score>): seq<real> {
    seq(|scores|, k requires 0 <= k < |scores| => scores[k].f1)
  }

  lemma {:induction false} SumOfScores(labels: seq<string>, score: string -> Score, scores: seq<Score>)
    requires |labels| == |scores| && forall k :: 0 <= k < |labels| ==> scores[k] == score(labels[k])
    ensures SumOver(labels, score) == Score(Sum(Precisions(scores)), Sum(Recalls(scores)), Sum(F1Values(scores)))
  {
    if labels != [] {
      var front := scores[..|scores| - 1];
      SumOfScores(labels[..|labels| - 1], score, front);
      assert Precisions(scores)[..|front|] == Precisions(front);
      assert Recalls(scores)[..|front|] == Recalls(front);
      assert F1Values(scores)[..|front|] == F1Values(front);
    }
  }

  lemma TableSum(attempts: seq<Attempt>, labels: seq<string>, scores: seq<Score>)
    requires ScoreTable(attempts, labels, scores)
    ensures multiset(labels) == multiset(Labels(PairsOf(attempts)))
    ensures MacroSum(PairsOf(attempts), Labels(PairsOf(attempts)))
         == Score(Sum(Precisions(scores)), Sum(Recalls(scores)), Sum(F1Values(scores)))
  {
    var pairs := PairsOf(attempts);
    var score := category => ScoreOf(Tally(pairs, category));
    LabelsAreExact(pairs);
    DistinctNoRepeats(labels);
    forall category
      ensures category in labels <==> category in Labels(pairs)
    {
      OccursIsMentions(attempts, category);
    }
    SameOnce(labels, Labels(pairs));
    forall k | 0 <= k < |labels|
      ensures scores[k] == score(labels[k])
    {
      ScoresAreShares(attempts, labels[k]);
    }
    SumOfScores(labels, score, scores);
    MacroSumIsSumOver(pairs, Labels(pairs), score);
    SumOverPermutation(labels, Labels(pairs), score);
  }

  lemma EmptyTable(attempts: seq<Attempt>, labels: seq<string>, scores: seq<Score>)
    requires ScoreTable(attempts, labels, scores)
    ensures PairsOf(attempts) == [] <==> labels == []
  {
    var pairs := PairsOf(attempts);
    if pairs != [] {
      OccursIsMentions(attempts, pairs[0].predicted);
      assert Mentions(pairs, pairs[0].predicted);
    } else if labels != [] {
      assert labels[0] in labels;
      OccursIsMentions(attempts, labels[0]);
    }
  }

  lemma MeanOfTable(scores: seq<Score>)
    requires scores != []
    ensures Mean(Score(Sum(Precisions(scores)), Sum(Recalls(scores)), Sum(F1Values(scores))), |scores|)
         == Score(Average(Precisions(scores)), Average(Recalls(scores)), Average(F1Values(scores)))
  {
  }

  /**
   What is reported: the share of agreeing attempts, and the unweighted means of the scores of
   the labels that occur, whatever the order of the table; nothing when no label occurs.
   */
  lemma MetricsAreMeans(attempts: seq<Attempt>, labels: seq<string>, scores: seq<Score>)
    requires ScoreTable(attempts, labels, scores)
    ensures MetricsOf(PairsOf(attempts)) ==
      if labels == [] then None
      else
        Some(Metrics(Quotient(Positions(attempts, Agrees), Positions(attempts, Labelled)),
                     Score(Average(Precisions(scores)), Average(Recalls(scores)), Average(F1Values(scores))),
                     |Positions(attempts, Labelled)|))
  {
    EmptyTable(attempts, labels, scores);
    if labels != [] {
      CorrectOverAttempts(attempts);
      TableSum(attempts, labels, scores);
      SameElements(labels, Labels(PairsOf(attempts)));
      MeanOfTable(scores);
    }
  }

  // ---------- Bounds on the averages ----------

  lemma {:induction false} MacroSumBounds(pairs: seq<Pair>, labels: seq<string>)
    ensures var m := MacroSum(pairs, labels);
      && 0.0 <= m.precision <= |labels| as real && 0.0 <= m.recall <= |labels| as real
      && 0.0 <= m.f1 <= (m.precision + m.recall) / 2.0
  {
    if labels != [] {
      MacroSumBounds(pairs, labels[..|labels| - 1]);
      F1Between(Tally(pairs, labels[|labels| - 1]));
    }
  }

  lemma AverageBounds(m: Score, n: real)
    requires n > 0.0 && 0.0 <= m.precision <= n && 0.0 <= m.recall <= n
    requires 0.0 <= m.f1 <= (m.precision + m.recall) / 2.0
    ensures 0.0 <= m.precision / n <= 1.0 && 0.0 <= m.recall / n <= 1.0
    ensures 0.0 <= m.f1 / n <= (m.precision / n + m.recall / n) / 2.0
  {
    var p, r, f := m.precision / n, m.recall / n, m.f1 / n;
    assert p * n == m.precision && r * n == m.recall && f * n == m.f1;
    Below(0.0, p, n);
    Below(p, 1.0, n);
    Below(0.0, r, n);
    Below(r, 1.0, n);
    Below(0.0, f, n);
    assert (p + r) / 2.0 * n == (p * n + r * n) / 2.0;
    Below(f, (p + r) / 2.0, n);
  }

  lemma UnitQuotient(x: real, n: real)
    requires n > 0.0
    ensures x / n == 1.0 <==> x == n
  {
    assert x / n * n == x;
  }

  /** Macro F1 never exceeds the mean of macro precision and macro recall; all lie in [0, 1]. */
  lemma MacroF1BelowMean(pairs: seq<Pair>)
    requires pairs != []
    ensures var m := MetricsOf(pairs).value.macro;
      && 0.0 <= m.precision <= 1.0 && 0.0 <= m.recall <= 1.0
      && 0.0 <= m.f1 <= (m.precision + m.recall) / 2.0
  {
    var labels := Labels(pairs);
    var m, n := MacroSum(pairs, labels), |labels| as real;
    MacroSumBounds(pairs, labels);
    AverageBounds(m, n);
  }

  lemma {:induction false} MentionedIsTallied(pairs: seq<Pair>, category: string)
    requires Mentions(pairs, category)
    ensures Tally(pairs, category) != Counts(0, 0, 0)
  {
    var front, last := pairs[..|pairs| - 1], pairs[|pairs| - 1];
    if last.predicted != category && last.reference != category {
      var i :| 0 <= i < |pairs| && (pairs[i].predicted == category || pairs[i].reference == category);
      assert front[i] == pairs[i];
      MentionedIsTallied(front, category);
    }
  }

  /** The F1 values reach 1 together exactly when no false positive or negative is counted. */
  lemma {:induction false} F1SumCeiling(pairs: seq<Pair>, labels: seq<string>)
    requires forall i :: 0 <= i < |labels| ==> Tally(pairs, labels[i]) != Counts(0, 0, 0)
    ensures MacroSum(pairs, labels).f1 <= |labels| as real
    ensures MacroSum(pairs, labels).f1 == |labels| as real
       <==> Total(pairs, labels).fp == 0 && Total(pairs, labels).fn == 0
  {
    if labels != [] {
      var front, last := labels[..|labels| - 1], labels[|labels| - 1];
      F1SumCeiling(pairs, front);
      var c := Tally(pairs, last);
      F1IsCountRatio(c);
      Ratio(2 * c.tp, 2 * c.tp + c.fp + c.fn);
      assert |labels| as real == |front| as real + 1.0;
    }
  }

  /** Macro F1 is 1 exactly when every prediction is correct, that is, when accuracy is 1. */
  lemma {:induction false} PerfectF1IffPerfectAccuracy(pairs: seq<Pair>)
    requires pairs != []
    ensures MetricsOf(pairs).value.macro.f1 == 1.0 <==> Correct(pairs) == |pairs|
    ensures MetricsOf(pairs).value.accuracy == 1.0 <==> Correct(pairs) == |pairs|
  {
    LabelsAreExact(pairs);
    var labels := Labels(pairs);
    forall i | 0 <= i < |labels|
      ensures Tally(pairs, labels[i]) != Counts(0, 0, 0)
    {
      MentionedIsTallied(pairs, labels[i]);
    }
    F1SumCeiling(pairs, labels);
    CountsAreConserved(pairs, labels);
    UnitQuotient(MacroSum(pairs, labels).f1, |labels| as real);
    UnitQuotient(Correct(pairs) as real, |pairs| as real);
  }

  // ---------- Exchanging predictions and references ----------

  function Swapped(pairs: seq<Pair>): seq<Pair> {
    seq(|pairs|, i requires 0 <= i < |pairs| => Pair(pairs[i].reference, pairs[i].predicted))
  }

  lemma {:induction false} TallySwapped(pairs: seq<Pair>, category: string)
    ensures var c := Tally(pairs, category); Tally(Swapped(pairs), category) == Counts(c.tp, c.fn, c.fp)
  {
    if pairs != [] {
      TallySwapped(pairs[..|pairs| - 1], category);
      assert Swapped(pairs)[..|pairs| - 1] == Swapped(pairs[..|pairs| - 1]);
    }
  }

  lemma {:induction false} CorrectSwapped(pairs: seq<Pair>)
    ensures Correct(Swapped(pairs)) == Correct(pairs)
  {
    if pairs != [] {
      CorrectSwapped(pairs[..|pairs| - 1]);
      assert Swapped(pairs)[..|pairs| - 1] == Swapped(pairs[..|pairs| - 1]);
    }
  }

  lemma {:induction false} MacroSumSwapped(pairs: seq<Pair>, labels: seq<string>)
    ensures var m := MacroSum(pairs, labels); MacroSum(Swapped(pairs), labels) == Score(m.recall, m.precision, m.f1)
  {
    if labels != [] {
      MacroSumSwapped(pairs, labels[..|labels| - 1]);
      TallySwapped(pairs, labels[|labels| - 1]);
      F1IsCountRatio(Tally(pairs, labels[|labels| - 1]));
      F1IsCountRatio(Tally(Swapped(pairs), labels[|labels| - 1]));
    }
  }

  lemma SameLabels(pairs: seq<Pair>, other: seq<Pair>)
    requires forall category :: Mentions(pairs, category) <==> Mentions(other, category)
    ensures Labels(pairs) == Labels(other)
  {
    LabelsAreExact(pairs);
    LabelsAreExact(other);
    TextIsOrdered();
    StrictlySortedIsUnique(CompareText, Labels(pairs), Labels(other));
  }

  /** Exchanging predictions and references exchanges precision and recall and nothing else. */
  lemma {:induction false} ExchangeSwapsPrecisionAndRecall(pairs: seq<Pair>)
    requires pairs != []
    ensures var m := MetricsOf(pairs).value;
      MetricsOf(Swapped(pairs)) == Some(m.(macro := Score(m.macro.recall, m.macro.precision, m.macro.f1)))
  {
    var swapped := Swapped(pairs);
    forall category
      ensures Mentions(pairs, category) <==> Mentions(swapped, category)
    {
      assert forall i :: 0 <= i < |pairs| ==>
        swapped[i].predicted == pairs[i].reference && swapped[i].reference == pairs[i].predicted;
    }
    SameLabels(pairs, swapped);
    MacroSumSwapped(pairs, Labels(pairs));
    CorrectSwapped(pairs);
  }

  // ---------- Reordering attempts ----------

  lemma {:induction false} TallyOfBoth(pairs: seq<Pair>, more: seq<Pair>, category: string)
    ensures Tally(pairs + more, category) == AddCounts(Tally(pairs, category), Tally(more, category))
    ensures Correct(pairs + more) == Correct(pairs) + Correct(more)
  {
    if more == [] {
      assert pairs + more == pairs;
    } else {
      TallyOfBoth(pairs, more[..|more| - 1], category);
      LastMovesOut(pairs, more);
    }
  }

  lemma TallyWithout(pairs: seq<Pair>, i: nat, category: string)
    requires i < |pairs|
    ensures Tally(pairs, category) == AddCounts(Tally(Without(pairs, i), category), Contribution(pairs[i], category))
    ensures Correct(pairs) == Correct(Without(pairs, i)) + if pairs[i].predicted == pairs[i].reference then 1 else 0
  {
    var before, after := pairs[..i], pairs[i + 1..];
    TallyOfBoth(before + [pairs[i]], after, category);
    TallyOfBoth(before, after, category);
    SplitAround(pairs, i);
  }

  lemma {:induction false} TallyOfPermutation(pairs: seq<Pair>, other: seq<Pair>, category: string)
    requires multiset(pairs) == multiset(other)
    ensures Tally(pairs, category) == Tally(other, category) && Correct(pairs) == Correct(other)
  {
    if pairs == [] {
      assert |multiset(other)| == 0;
    } else {
      var i := FindLast(pairs, other);
      TallyWithout(other, i, category);
      TallyOfPermutation(pairs[..|pairs| - 1], Without(other, i), category);
    }
  }

  lemma {:induction false} MacroSumOfPermutation(pairs: seq<Pair>, other: seq<Pair>, labels: seq<string>)
    requires multiset(pairs) == multiset(other)
    ensures MacroSum(pairs, labels) == MacroSum(other, labels)
  {
    if labels != [] {
      MacroSumOfPermutation(pairs, other, labels[..|labels| - 1]);
      TallyOfPermutation(pairs, other, labels[|labels| - 1]);
    }
  }

  lemma MentionsOfPermutation(pairs: seq<Pair>, other: seq<Pair>, category: string)
    requires multiset(pairs) == multiset(other) && Mentions(pairs, category)
    ensures Mentions(other, category)
  {
    var i :| 0 <= i < |pairs| && (pairs[i].predicted == category || pairs[i].reference == category);
    assert pairs[i] in multiset(other);
    var j :| 0 <= j < |other| && other[j] == pairs[i];
  }

  lemma {:induction false} MetricsOfPermutation(pairs: seq<Pair>, other: seq<Pair>)
    requires multiset(pairs) == multiset(other)
    ensures MetricsOf(pairs) == MetricsOf(other)
  {
    SameElements(pairs, other);
    forall category
      ensures Mentions(pairs, category) <==> Mentions(other, category)
    {
      if Mentions(pairs, category) {
        MentionsOfPermutation(pairs, other, category);
      }
      if Mentions(other, category) {
        MentionsOfPermutation(other, pairs, category);
      }
    }
    SameLabels(pairs, other);
    MacroSumOfPermutation(pairs, other, Labels(pairs));
    TallyOfPermutation(pairs, other, "");
  }

  lemma {:induction false} PairsOfBoth(attempts: seq<Attempt>, more: seq<Attempt>)
    ensures PairsOf(attempts + more) == PairsOf(attempts) + PairsOf(more)
  {
    if more == [] {
      assert attempts + more == attempts;
    } else {
      var front, last := more[..|more| - 1], more[|more| - 1];
      PairsOfBoth(attempts, front);
      assert (PairsOf(attempts) + PairsOf(front)) + PairOf(last) == PairsOf(attempts) + (PairsOf(front) + PairOf(last));
      LastMovesOut(attempts, more);
    }
  }

  lemma {:induction false} PairsOfPermutation(attempts: seq<Attempt>, other: seq<Attempt>)
    requires multiset(attempts) == multiset(other)
    ensures multiset(PairsOf(attempts)) == multiset(PairsOf(other))
  {
    if attempts == [] {
      assert |multiset(other)| == 0;
    } else {
      var i := FindLast(attempts, other);
      var before, after := other[..i], other[i + 1..];
      PairsOfBoth(before + [other[i]], after);
      PairsOfBoth(before, after);
      SplitAround(other, i);
      PairsOfPermutation(attempts[..|attempts| - 1], Without(other, i));
    }
  }

  /** The order in which attempts are listed does not matter. */
  lemma {:induction false} AttemptOrderIsIrrelevant(attempts: seq<Attempt>, other: seq<Attempt>)
    requires multiset(attempts) == multiset(other)
    ensures MetricsOf(PairsOf(attempts)) == MetricsOf(PairsOf(other))
  {
    PairsOfPermutation(attempts, other);
    MetricsOfPermutation(PairsOf(attempts), PairsOf(other));
  }

  // ---------- Renaming labels ----------

  function Renamed(pairs: seq<Pair>, name: string -> string): seq<Pair> {
    seq(|pairs|, i requires 0 <= i < |pairs| => Pair(name(pairs[i].predicted), name(pairs[i].reference)))
  }

  function RenamedLabels(labels: seq<string>, name: string -> string): seq<string> {
    seq(|labels|, i requires 0 <= i < |labels| => name(labels[i]))
  }

  /** `name` tells apart the labels that occur. */
  ghost predicate Distinguishes(name: string -> string, pairs: seq<Pair>) {
    forall a, b :: Mentions(pairs, a) && Mentions(pairs, b) && name(a) == name(b) ==> a == b
  }

  ghost predicate Separates(name: string -> string, pairs: seq<Pair>, category: string) {
    forall i :: 0 <= i < |pairs| ==>
      && (name(pairs[i].predicted) == name(category) ==> pairs[i].predicted == category)
      && (name(pairs[i].reference) == name(category) ==> pairs[i].reference == category)
  }

  lemma {:induction false} TallyRenamed(pairs: seq<Pair>, name: string -> string, category: string)
    requires Separates(name, pairs, category)
    ensures Tally(Renamed(pairs, name), name(category)) == Tally(pairs, category)
  {
    if pairs != [] {
      var front := pairs[..|pairs| - 1];
      assert forall i :: 0 <= i < |front| ==> front[i] == pairs[i];
      TallyRenamed(front, name, category);
      assert Renamed(pairs, name)[..|pairs| - 1] == Renamed(front, name);
    }
  }

  ghost predicate SeparatesEach(name: string -> string, pairs: seq<Pair>) {
    forall i :: 0 <= i < |pairs| && name(pairs[i].predicted) == name(pairs[i].reference) ==>
      pairs[i].predicted == pairs[i].reference
  }

  lemma {:induction false} CorrectRenamed(pairs: seq<Pair>, name: string -> string)
    requires SeparatesEach(name, pairs)
    ensures Correct(Renamed(pairs, name)) == Correct(pairs)
  {
    if pairs != [] {
      var front := pairs[..|pairs| - 1];
      assert forall i :: 0 <= i < |front| ==> front[i] == pairs[i];
      CorrectRenamed(front, name);
      assert Renamed(pairs, name)[..|pairs| - 1] == Renamed(front, name);
    }
  }

  lemma {:induction false} MacroSumRenamed(pairs: seq<Pair>, name: string -> string, labels: seq<string>)
    requires forall i :: 0 <= i < |labels| ==> Separates(name, pairs, labels[i])
    ensures MacroSum(Renamed(pairs, name), RenamedLabels(labels, name)) == MacroSum(pairs, labels)
  {
    if labels != [] {
      var front := labels[..|labels| - 1];
      MacroSumRenamed(pairs, name, front);
      TallyRenamed(pairs, name, labels[|labels| - 1]);
      assert RenamedLabels(labels, name)[..|labels| - 1] == RenamedLabels(front, name);
    }
  }

  function SumOver(labels: seq<string>, score: string -> Score): Score {
    if labels == [] then Score(0.0, 0.0, 0.0)
    else AddScores(SumOver(labels[..|labels| - 1], score), score(labels[|labels| - 1]))
  }

  lemma SumOverAppended(labels: seq<string>, category: string, score: string -> Score)
    ensures SumOver(labels + [category], score) == AddScores(SumOver(labels, score), score(category))
  {
    assert (labels + [category])[..|labels|] == labels;
  }

  lemma {:induction false} SumOverBoth(labels: seq<string>, more: seq<string>, score: string -> Score)
    ensures SumOver(labels + more, score) == AddScores(SumOver(labels, score), SumOver(more, score))
    decreases |more|
  {
    if more == [] {
      assert labels + more == labels;
    } else {
      var front, last := more[..|more| - 1], more[|more| - 1];
      SumOverBoth(labels, front, score);
      LastMovesOut(labels, more);
      SumOverAppended(labels + front, last, score);
    }
  }

  lemma {:induction false} SumOverPermutation(labels: seq<string>, other: seq<string>, score: string -> Score)
    requires multiset(labels) == multiset(other)
    ensures SumOver(labels, score) == SumOver(other, score)
  {
    if labels == [] {
      assert |multiset(other)| == 0;
    } else {
      var i := FindLast(labels, other);
      var before, after := other[..i], other[i + 1..];
      SumOverBoth(before + [other[i]], after, score);
      SumOverAppended(before, other[i], score);
      SumOverBoth(before, after, score);
      SplitAround(other, i);
      SumOverPermutation(labels[..|labels| - 1], Without(other, i), score);
    }
  }

  lemma {:induction false} MacroSumIsSumOver(pairs: seq<Pair>, labels: seq<string>, score: string -> Score)
    requires forall category :: score(category) == ScoreOf(Tally(pairs, category))
    ensures MacroSum(pairs, labels) == SumOver(labels, score)
  {
    if labels != [] {
      MacroSumIsSumOver(pairs, labels[..|labels| - 1], score);
    }
  }

  lemma RenamedMentions(pairs: seq<Pair>, name: string -> string, category: string)
    ensures Mentions(Renamed(pairs, name), category)
       <==> exists a :: Mentions(pairs, a) && name(a) == category
  {
    var renamed := Renamed(pairs, name);
    if Mentions(renamed, category) {
      var i :| 0 <= i < |pairs| && (renamed[i].predicted == category || renamed[i].reference == category);
      assert Mentions(pairs, pairs[i].predicted) && Mentions(pairs, pairs[i].reference);
    }
    forall a | Mentions(pairs, a) && name(a) == category
      ensures Mentions(renamed, category)
    {
      var i :| 0 <= i < |pairs| && (pairs[i].predicted == a || pairs[i].reference == a);
      assert renamed[i].predicted == category || renamed[i].reference == category;
    }
  }

  lemma {:induction false} RenamedLabelsDiffer(labels: seq<string>, name: string -> string)
    requires NoRepeats(labels)
    requires forall a, b :: a in labels && b in labels && name(a) == name(b) ==> a == b
    ensures NoRepeats(RenamedLabels(labels, name))
  {
    if labels != [] {
      var front, last := labels[..|labels| - 1], labels[|labels| - 1];
      RenamedLabelsDiffer(front, name);
      assert RenamedLabels(labels, name)[..|labels| - 1] == RenamedLabels(front, name);
      forall i | 0 <= i < |front|
        ensures RenamedLabels(front, name)[i] != name(last)
      {
        assert front[i] in front && front[i] == labels[i] && last == labels[|labels| - 1];
      }
    }
  }

  lemma RenamedLabelsAreMentioned(pairs: seq<Pair>, name: string -> string, category: string)
    ensures category in RenamedLabels(Labels(pairs), name) <==> Mentions(Renamed(pairs, name), category)
  {
    var labels, renamed := Labels(pairs), RenamedLabels(Labels(pairs), name);
    LabelsAreExact(pairs);
    RenamedMentions(pairs, name, category);
    if category in renamed {
      var i :| 0 <= i < |labels| && renamed[i] == category;
      assert labels[i] in labels;
    }
    if a :| Mentions(pairs, a) && name(a) == category {
      var i :| 0 <= i < |labels| && labels[i] == a;
      assert renamed[i] == category;
    }
  }

  /** The labels of the renamed pairs are the renamed labels, in a possibly different order. */
  lemma {:induction false} LabelsOfRenamed(pairs: seq<Pair>, name: string -> string)
    requires Distinguishes(name, pairs)
    ensures multiset(Labels(Renamed(pairs, name))) == multiset(RenamedLabels(Labels(pairs), name))
  {
    LabelsAreExact(Renamed(pairs, name));
    LabelsAreExact(pairs);
    RenamedLabelsDiffer(Labels(pairs), name);
    forall category
      ensures category in Labels(Renamed(pairs, name)) <==> category in RenamedLabels(Labels(pairs), name)
    {
      RenamedLabelsAreMentioned(pairs, name, category);
    }
    SameOnce(Labels(Renamed(pairs, name)), RenamedLabels(Labels(pairs), name));
  }

  /** Renaming labels one-to-one changes nothing, although it may reorder them. */
  lemma {:induction false} RenamingIsIrrelevant(pairs: seq<Pair>, name: string -> string)
    requires Distinguishes(name, pairs)
    ensures MetricsOf(Renamed(pairs, name)) == MetricsOf(pairs)
  {
    if pairs != [] {
      var labels, renamed := Labels(pairs), Renamed(pairs, name);
      LabelsAreExact(pairs);
      forall i | 0 <= i < |labels|
        ensures Separates(name, pairs, labels[i]) && SeparatesEach(name, pairs)
      {
        assert labels[i] in labels;
        forall k | 0 <= k < |pairs|
          ensures Mentions(pairs, pairs[k].predicted) && Mentions(pairs, pairs[k].reference)
        {
        }
      }
      assert Separates(name, pairs, labels[0]);
      CorrectRenamed(pairs, name);
      MacroSumRenamed(pairs, name, labels);
      LabelsOfRenamed(pairs, name);
      SameElements(Labels(renamed), RenamedLabels(labels, name));
      var score := category => ScoreOf(Tally(renamed, category));
      MacroSumIsSumOver(renamed, Labels(renamed), score);
      MacroSumIsSumOver(renamed, RenamedLabels(labels, name), score);
      SumOverPermutation(Labels(renamed), RenamedLabels(labels, name), score);
    }
  }
}
