/**
 The failed-password limiter of shared reports (backend/app/db/mongo.py).

 One call issues up to four separate atomic commands against the one document of a
 (share, client) pair: compare-and-increment, reset-if-expired, a denying read, and an
 insert under a unique index; a duplicate key restarts the call.  This module defines the
 commands, the atomic decision they are meant to implement, and what follows from any
 sequence of atomic decisions.  `LimiterProtocol` interleaves the commands of many callers.
 Times are integers (BSON milliseconds); nothing assumes that callers' clocks agree.
 */
module Limiter {
  import opened Options

  type CallerId = nat

  /** One document of `report_share_password_attempts`. */
  datatype Row = Row(failures: int, expiresAt: int)

  datatype Limits = Limits(limit: int, window: int)

  type Policy = p: Limits | 1 <= p.limit && 0 < p.window witness Limits(1, 1)

  // ---------- The four database commands on one document ----------

  /** The post-image of the conditional `$inc`, if its filter matches. */
  function CompareAndIncrement(row: Option<Row>, now: int, policy: Policy): Option<Row> {
    if row.Some? && row.value.expiresAt > now && row.value.failures < policy.limit
    then Some(row.value.(failures := row.value.failures + 1))
    else None
  }

  /** The post-image of the window reset, if its filter matches. */
  function ResetIfExpired(row: Option<Row>, now: int, policy: Policy): Option<Row> {
    if row.Some? && row.value.expiresAt <= now then Some(Row(1, now + policy.window)) else None
  }

  predicate LimitReached(row: Option<Row>, now: int, policy: Policy) {
    row.Some? && row.value.expiresAt > now && row.value.failures >= policy.limit
  }

  /** The inserted document; None is the duplicate-key error of the unique index. */
  function InsertUnique(row: Option<Row>, now: int, policy: Policy): Option<Row> {
    if row.None? then Some(Row(1, now + policy.window)) else None
  }

  // ---------- The atomic limiter ----------

  datatype Verdict = Opened | Incremented | Denied

  /** Absent or expired opens a window, below the limit increments, full denies. */
  function Decide(row: Option<Row>, now: int, policy: Policy): Verdict {
    match row
    case None => Opened
    case Some(r) =>
      if r.expiresAt <= now then Opened
      else if r.failures < policy.limit then Incremented
      else Denied
  }

  function Commit(row: Option<Row>, now: int, policy: Policy): Option<Row> {
    match Decide(row, now, policy)
    case Opened => Some(Row(1, now + policy.window))
    case Incremented => Some(row.value.(failures := row.value.failures + 1))
    case Denied => row
  }

  /** What happens to the document: a decided call, or a removal by the TTL index at `clock`. */
  datatype Event = Call(caller: CallerId, now: int, verdict: Verdict) | Removed(clock: int)

  function Effect(row: Option<Row>, e: Event, policy: Policy): Option<Row> {
    match e
    case Call(_, now, _) => Commit(row, now, policy)
    case Removed(_) => None
  }

  predicate Allowed(row: Option<Row>, e: Event, policy: Policy) {
    match e
    case Call(_, now, verdict) => verdict == Decide(row, now, policy)
    case Removed(clock) => row.Some? && row.value.expiresAt <= clock
  }

  /** The document after a history of atomic events. */
  function Replay(start: Option<Row>, history: seq<Event>, policy: Policy): Option<Row> {
    if history == [] then start
    else Effect(Replay(start, history[..|history| - 1], policy), history[|history| - 1], policy)
  }

  /** Every event of the history is the one the atomic limiter would produce. */
  predicate Legal(start: Option<Row>, history: seq<Event>, policy: Policy) {
    history == [] ||
    (var before := history[..|history| - 1];
     Legal(start, before, policy) &&
     Allowed(Replay(start, before, policy), history[|history| - 1], policy))
  }

  lemma ReplayAppend(start: Option<Row>, history: seq<Event>, e: Event, policy: Policy)
    ensures Replay(start, history + [e], policy) == Effect(Replay(start, history, policy), e, policy)
    ensures Legal(start, history + [e], policy) <==>
            Legal(start, history, policy) && Allowed(Replay(start, history, policy), e, policy)
  {
    assert (history + [e])[..|history|] == history;
  }

  // ---------- Safety of every atomic history ----------

  predicate InRange(row: Option<Row>, policy: Policy) {
    row.Some? ==> 1 <= row.value.failures <= policy.limit
  }

  lemma {:induction false} CountStaysInRange(start: Option<Row>, history: seq<Event>, policy: Policy)
    requires InRange(start, policy)
    ensures InRange(Replay(start, history, policy), policy)
  {
    if history != [] {
      CountStaysInRange(start, history[..|history| - 1], policy);
    }
  }

  predicate Admits(e: Event) {
    e.Call? && e.verdict != Denied
  }

  predicate Opens(e: Event) {
    e.Call? && e.verdict == Opened
  }

  /** Number of failures that were consumed, i.e. calls that returned true. */
  function Admissions(history: seq<Event>): nat {
    if history == [] then 0
    else Admissions(history[..|history| - 1]) + if Admits(history[|history| - 1]) then 1 else 0
  }

  /** The callers' clock readings at which windows were opened, oldest first. */
  function Starts(history: seq<Event>): seq<int> {
    if history == [] then []
    else
      var last := history[|history| - 1];
      Starts(history[..|history| - 1]) + if Opens(last) then [last.now] else []
  }

  /** The expiry of the window opened last. */
  function Deadline(starts: seq<int>, policy: Policy): int
    requires starts != []
  {
    starts[|starts| - 1] + policy.window
  }

  /** The event does not open a window where a removed one, by the opener's clock, still runs. */
  predicate Punctual(before: seq<Event>, e: Event, policy: Policy) {
    Opens(e) && Replay(None, before, policy).None? && Starts(before) != [] ==>
      Deadline(Starts(before), policy) <= e.now
  }

  /** No window is opened in place of a removed one before the expiry of the window opened last. */
  predicate NoEarlyOpening(history: seq<Event>, policy: Policy) {
    history == [] ||
    (var before := history[..|history| - 1];
     NoEarlyOpening(before, policy) && Punctual(before, history[|history| - 1], policy))
  }

  ghost predicate Spaced(starts: seq<int>, window: int) {
    forall k :: 0 < k < |starts| ==> starts[k - 1] + window <= starts[k]
  }

  /** The stored expiry is that of the window opened last. */
  ghost predicate ExpiryFixed(history: seq<Event>, policy: Policy) {
    var starts, row := Starts(history), Replay(None, history, policy);
    row.Some? ==> starts != [] && row.value.expiresAt == Deadline(starts, policy)
  }

  /** The admissions of each window: its opening and the increments up to the next opening. */
  function PerWindow(history: seq<Event>): seq<nat> {
    if history == [] then []
    else
      var counts, last := PerWindow(history[..|history| - 1]), history[|history| - 1];
      if Opens(last) then counts + [1]
      else if Admits(last) && counts != [] then counts[|counts| - 1 := counts[|counts| - 1] + 1]
      else counts
  }

  function Total(counts: seq<nat>): nat {
    if counts == [] then 0 else Total(counts[..|counts| - 1]) + counts[|counts| - 1]
  }

  /** Each window has had at most `limit` admissions, and no admission is outside a window. */
  ghost predicate WithinQuota(history: seq<Event>, policy: Policy) {
    var counts, row := PerWindow(history), Replay(None, history, policy);
    && |counts| == |Starts(history)|
    && (forall k :: 0 <= k < |counts| ==> counts[k] <= policy.limit)
    && (row.Some? ==> counts != [] && counts[|counts| - 1] == row.value.failures)
    && Total(counts) == Admissions(history)
  }

  lemma QuotaGrows(limit: nat, fewer: nat, more: nat)
    requires fewer <= more
    ensures limit * fewer <= limit * more
  {
    assert limit * (more - fewer) == limit * more - limit * fewer;
  }

  lemma SpacedAppend(starts: seq<int>, next: int, window: int)
    ensures Spaced(starts + [next], window) <==>
            Spaced(starts, window) && (starts != [] ==> starts[|starts| - 1] + window <= next)
  {
    var longer := starts + [next];
    if Spaced(longer, window) {
      forall k | 0 < k < |starts|
        ensures starts[k - 1] + window <= starts[k]
      {
        assert longer[k - 1] + window <= longer[k];
      }
      assert starts != [] ==> longer[|starts| - 1] + window <= longer[|starts|];
    }
  }

  lemma {:induction false} TotalWithin(counts: seq<nat>, limit: nat)
    requires forall k :: 0 <= k < |counts| ==> counts[k] <= limit
    ensures Total(counts) <= limit * |counts|
  {
    if counts != [] {
      TotalWithin(counts[..|counts| - 1], limit);
      assert limit * |counts| == limit * (|counts| - 1) + limit;
    }
  }

  /** The expiry never moves inside a window. */
  lemma {:induction false} WindowsKeepExpiry(history: seq<Event>, policy: Policy)
    requires Legal(None, history, policy)
    ensures ExpiryFixed(history, policy)
  {
    if history != [] {
      WindowsKeepExpiry(history[..|history| - 1], policy);
    }
  }

  lemma TotalGrows(counts: seq<nat>)
    ensures Total(counts + [1]) == Total(counts) + 1
    ensures counts != [] ==> Total(counts[|counts| - 1 := counts[|counts| - 1] + 1]) == Total(counts) + 1
  {
    assert (counts + [1])[..|counts|] == counts;
    if counts != [] {
      var front := counts[..|counts| - 1];
      assert counts[|counts| - 1 := counts[|counts| - 1] + 1][..|counts| - 1] == front;
    }
  }

  /** Every window of a legal history admits at most `limit` calls. */
  lemma {:induction false} WindowsKeepQuota(history: seq<Event>, policy: Policy)
    requires Legal(None, history, policy)
    ensures WithinQuota(history, policy)
  {
    if history != [] {
      var before := history[..|history| - 1];
      WindowsKeepQuota(before, policy);
      CountStaysInRange(None, before, policy);
      TotalGrows(PerWindow(before));
    }
  }

  /**
   Windows of one document start at least `window` apart, whatever the clocks do, exactly when
   no window is opened in place of a removed one before the latter's expiry.
   */
  lemma {:induction false} WindowsAreSpaced(history: seq<Event>, policy: Policy)
    requires Legal(None, history, policy)
    ensures Spaced(Starts(history), policy.window) <==> NoEarlyOpening(history, policy)
  {
    if history != [] {
      var before, e := history[..|history| - 1], history[|history| - 1];
      WindowsAreSpaced(before, policy);
      WindowsKeepExpiry(before, policy);
      if Opens(e) {
        SpacedAppend(Starts(before), e.now, policy.window);
      } else {
        assert Starts(history) == Starts(before);
      }
    }
  }

  // ---------- TTL removals ----------

  /** No window is opened by a caller whose clock is behind that of an earlier TTL removal. */
  ghost predicate RemovalsNotAhead(history: seq<Event>) {
    forall i, j :: 0 <= i < j < |history| && history[i].Removed? && Opens(history[j])
      ==> history[i].clock <= history[j].now
  }

  ghost predicate RemovedBy(history: seq<Event>, deadline: int) {
    exists i :: 0 <= i < |history| && history[i].Removed? && deadline <= history[i].clock
  }

  /** An opened window is absent only after a removal past its expiry. */
  lemma {:induction false} AbsentIsRemoved(history: seq<Event>, policy: Policy)
    requires Legal(None, history, policy) && Replay(None, history, policy).None? && Starts(history) != []
    ensures RemovedBy(history, Deadline(Starts(history), policy))
  {
    var before, e := history[..|history| - 1], history[|history| - 1];
    assert history == before + [e];
    assert e.Removed?;
    WindowsKeepExpiry(before, policy);
    assert history[|before|].Removed?;
  }

  /** Server and caller clocks that agree on the order of removal and opening suffice. */
  lemma {:induction false} PunctualRemovals(history: seq<Event>, policy: Policy)
    requires Legal(None, history, policy) && RemovalsNotAhead(history)
    ensures NoEarlyOpening(history, policy)
  {
    if history != [] {
      var before, e := history[..|history| - 1], history[|history| - 1];
      forall i, j | 0 <= i < j < |before| && before[i].Removed? && Opens(before[j])
        ensures before[i].clock <= before[j].now
      {
        assert history[i] == before[i] && history[j] == before[j];
      }
      PunctualRemovals(before, policy);
      if Opens(e) && Replay(None, before, policy).None? && Starts(before) != [] {
        AbsentIsRemoved(before, policy);
        var i :| 0 <= i < |before| && before[i].Removed? && Deadline(Starts(before), policy) <= before[i].clock;
        assert history[i] == before[i] && history[|before|] == e;
      }
    }
  }

  lemma {:induction false} SpacedSpan(starts: seq<int>, window: int)
    requires 0 < window && starts != []
    requires Spaced(starts, window)
    ensures (|starts| - 1) * window <= starts[|starts| - 1] - starts[0]
  {
    if |starts| > 1 {
      var front := starts[..|starts| - 1];
      SpacedSpan(front, window);
      assert starts[|starts| - 2] + window <= starts[|starts| - 1];
      assert (|starts| - 1) * window == (|front| - 1) * window + window;
    }
  }

  lemma {:induction false} StartsAreReadings(history: seq<Event>, lo: int, hi: int)
    requires forall i :: 0 <= i < |history| && history[i].Call? ==> lo <= history[i].now <= hi
    ensures forall k :: 0 <= k < |Starts(history)| ==> lo <= Starts(history)[k] <= hi
  {
    if history != [] {
      StartsAreReadings(history[..|history| - 1], lo, hi);
    }
  }

  lemma CancelFactor(a: int, b: int, d: int)
    requires 0 < d && a * d < b * d
    ensures a < b
  {
    assert (b - a) * d == b * d - a * d;
  }

  lemma QuotientBound(n: int, d: int, span: int)
    requires 0 < d && n * d <= span
    ensures n <= span / d
  {
    var q := span / d;
    assert span < (q + 1) * d;
    CancelFactor(n, q + 1, d);
  }

  /**
   Over any atomic history without early openings, however stale or skewed the callers' clock
   readings are, at most limit * (1 + floor((latest - first) / window)) failures are consumed.
   */
  lemma AdmissionBound(history: seq<Event>, policy: Policy, first: int, latest: int)
    requires Legal(None, history, policy) && NoEarlyOpening(history, policy)
    requires first <= latest
    requires forall i :: 0 <= i < |history| && history[i].Call? ==> first <= history[i].now <= latest
    ensures Admissions(history) <= policy.limit * (1 + (latest - first) / policy.window)
  {
    WindowsAreSpaced(history, policy);
    WindowsKeepQuota(history, policy);
    StartsAreReadings(history, first, latest);
    var windows := (latest - first) / policy.window + 1;
    if Starts(history) != [] {
      SpacedSpan(Starts(history), policy.window);
      QuotientBound(|Starts(history)| - 1, policy.window, latest - first);
    }
    TotalWithin(PerWindow(history), policy.limit);
    QuotaGrows(policy.limit, |Starts(history)|, windows);
  }

  lemma CountsAppend(history: seq<Event>, e: Event)
    ensures Starts(history + [e]) == Starts(history) + if Opens(e) then [e.now] else []
    ensures Admissions(history + [e]) == Admissions(history) + if Admits(e) then 1 else 0
  {
    assert (history + [e])[..|history|] == history;
  }

  /** A window opened at `start` and used up to `count` failures, all at the same reading. */
  function Burst(start: int, count: nat): seq<Event>
    requires 0 < count
  {
    if count == 1 then [Call(0, start, Opened)] else Burst(start, count - 1) + [Call(count - 1, start, Incremented)]
  }

  lemma {:induction false} BurstReadings(start: int, count: nat)
    requires 0 < count
    ensures forall e :: e in Burst(start, count) ==> e.Call? && e.now == start
    ensures Starts(Burst(start, count)) == [start] && Admissions(Burst(start, count)) == count
  {
    if count == 1 {
      CountsAppend([], Call(0, start, Opened));
      assert [] + [Call(0, start, Opened)] == Burst(start, 1);
    } else {
      BurstReadings(start, count - 1);
      CountsAppend(Burst(start, count - 1), Call(count - 1, start, Incremented));
    }
  }

  lemma {:induction false} BurstIsLegal(start: int, count: nat, policy: Policy)
    requires 0 < count <= policy.limit
    ensures Legal(None, Burst(start, count), policy)
    ensures Replay(None, Burst(start, count), policy) == Some(Row(count, start + policy.window))
  {
    if count == 1 {
      ReplayAppend(None, [], Call(0, start, Opened), policy);
      assert [] + [Call(0, start, Opened)] == Burst(start, 1);
    } else {
      BurstIsLegal(start, count - 1, policy);
      ReplayAppend(None, Burst(start, count - 1), Call(count - 1, start, Incremented), policy);
    }
  }

  /** A full window, removed on time by the server, then a caller whose clock is `lead` behind. */
  function EarlyOpening(start: int, lead: int, policy: Policy): seq<Event> {
    Burst(start, policy.limit) + [Removed(start + policy.window)]
      + [Call(policy.limit, start + policy.window - lead, Opened)]
  }

  lemma EarlyOpeningIsLegal(start: int, lead: int, policy: Policy)
    ensures Legal(None, EarlyOpening(start, lead, policy), policy)
  {
    var burst, removed := Burst(start, policy.limit), Removed(start + policy.window);
    BurstIsLegal(start, policy.limit, policy);
    ReplayAppend(None, burst, removed, policy);
    ReplayAppend(None, burst + [removed], Call(policy.limit, start + policy.window - lead, Opened), policy);
  }

  lemma EarlyOpeningCounts(start: int, lead: int, policy: Policy)
    ensures Starts(EarlyOpening(start, lead, policy)) == [start] + [start + policy.window - lead]
    ensures Admissions(EarlyOpening(start, lead, policy)) == policy.limit + 1
  {
    var burst, removed := Burst(start, policy.limit), Removed(start + policy.window);
    BurstReadings(start, policy.limit);
    CountsAppend(burst, removed);
    CountsAppend(burst + [removed], Call(policy.limit, start + policy.window - lead, Opened));
  }

  /**
   The condition is sharp for every policy: a removal ahead of the opener's clock by any lead
   up to the window breaks the spacing, and the admission bound with it.
   */
  lemma EarlyRemovalExceedsBound(start: int, lead: int, policy: Policy)
    requires 0 < lead <= policy.window
    ensures Legal(None, EarlyOpening(start, lead, policy), policy)
    ensures !NoEarlyOpening(EarlyOpening(start, lead, policy), policy)
    ensures !Spaced(Starts(EarlyOpening(start, lead, policy)), policy.window)
    ensures forall e :: e in EarlyOpening(start, lead, policy) && e.Call? ==> start <= e.now <= start + policy.window - lead
    ensures Admissions(EarlyOpening(start, lead, policy)) > policy.limit * (1 + (policy.window - lead) / policy.window)
  {
    EarlyOpeningIsLegal(start, lead, policy);
    EarlyOpeningCounts(start, lead, policy);
    BurstReadings(start, policy.limit);
    SpacedAppend([start], start + policy.window - lead, policy.window);
    WindowsAreSpaced(EarlyOpening(start, lead, policy), policy);
    assert (policy.window - lead) / policy.window == 0;
  }

  /** A window, removed late by a clock that is ahead, then one opened as soon as the first is over. */
  function HarmlessRemoval(start: int, ahead: int, policy: Policy): seq<Event> {
    [Call(0, start, Opened), Removed(start + policy.window + ahead)] + [Call(1, start + policy.window, Opened)]
  }

  /** The order of the two clocks need not be known: a removal ahead of an opener can be harmless. */
  lemma RemovalAheadCanBeHarmless(start: int, ahead: int, policy: Policy)
    requires 0 < ahead
    ensures Legal(None, HarmlessRemoval(start, ahead, policy), policy)
    ensures NoEarlyOpening(HarmlessRemoval(start, ahead, policy), policy)
    ensures !RemovalsNotAhead(HarmlessRemoval(start, ahead, policy))
  {
    var first, removed := Call(0, start, Opened), Removed(start + policy.window + ahead);
    var second := Call(1, start + policy.window, Opened);
    ReplayAppend(None, [], first, policy);
    ReplayAppend(None, [first], removed, policy);
    ReplayAppend(None, [first, removed], second, policy);
    CountsAppend([], first);
    CountsAppend([first], removed);
    CountsAppend([first, removed], second);
    assert [] + [first] == [first] && [first] + [removed] == [first, removed];
    var history := [first, removed] + [second];
    SpacedAppend([start], second.now, policy.window);
    WindowsAreSpaced(history, policy);
    assert history[1].Removed? && Opens(history[2]);
  }
}
