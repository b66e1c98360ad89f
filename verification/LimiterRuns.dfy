/**
 Runs of the password limiter with a given effect: what pays for the retries of a call, a
 schedule that makes a call retry for ever, and a schedule for every history of the atomic
 limiter.
 */
module LimiterRuns {
  import opened Options
  import opened Limiter
  import opened LimiterProtocol
  import opened Sequences

  // ---------- Runs in sequence ----------

  /** The state after some more actions. */
  function After(s: State, actions: seq<Action>, policy: Policy): State {
    if actions == [] then s
    else Next(After(s, actions[..|actions| - 1], policy), actions[|actions| - 1], policy)
  }

  lemma {:induction false} AfterBoth(s: State, first: seq<Action>, second: seq<Action>, policy: Policy)
    ensures After(s, first + second, policy) == After(After(s, first, policy), second, policy)
  {
    if second == [] {
      assert first + second == first;
    } else {
      var front := second[..|second| - 1];
      AfterBoth(s, first, front, policy);
      assert (first + second)[..|first + second| - 1] == first + front;
    }
  }

  lemma {:induction false} ExecIsAfter(run: seq<Action>, policy: Policy)
    ensures Exec(run, policy) == After(INITIAL, run, policy)
  {
    if run != [] {
      ExecIsAfter(run[..|run| - 1], policy);
    }
  }

  lemma ExecBoth(run: seq<Action>, more: seq<Action>, policy: Policy)
    ensures Exec(run + more, policy) == After(Exec(run, policy), more, policy)
  {
    ExecIsAfter(run, policy);
    ExecIsAfter(run + more, policy);
    AfterBoth(INITIAL, run, more, policy);
  }

  /** A call that runs from its beginning to its result while nothing else happens. */
  function OneCall(id: CallerId, now: int): seq<Action> {
    [Begin(id, now)] + [Step(id), Step(id), Step(id), Step(id)]
  }

  lemma FourSteps(s: State, id: CallerId, policy: Policy)
    ensures var step := (t: State) => Next(t, Step(id), policy);
      After(s, [Step(id), Step(id), Step(id), Step(id)], policy) == step(step(step(step(s))))
  {
    var a := Step(id);
    assert [a, a, a, a] == [a, a] + [a, a] && [a, a] == [a] + [a];
    AfterBoth(s, [a, a], [a, a], policy);
    AfterBoth(s, [a], [a], policy);
    AfterBoth(After(s, [a, a], policy), [a], [a], policy);
  }

  /** From `s` to `t` a new caller has had its call, as one atomic decision. */
  ghost predicate CalledOnce(s: State, t: State, id: CallerId, now: int, policy: Policy) {
    exists c: Caller ::
      && c.pc == Returned(Decide(s.row, now, policy) != Denied)
      && t == State(Commit(s.row, now, policy), s.callers[id := c],
                    s.history + [Call(id, now, Decide(s.row, now, policy))])
  }

  lemma OneCallIsAtomic(s: State, id: CallerId, now: int, policy: Policy)
    requires id !in s.callers
    ensures CalledOnce(s, After(s, OneCall(id, now), policy), id, now, policy)
  {
    var begun := Next(s, Begin(id, now), policy);
    AfterBoth(s, [Begin(id, now)], [Step(id), Step(id), Step(id), Step(id)], policy);
    FourSteps(begun, id, policy);
    SoloCallNeverRetries(begun, id, policy);
    var t := After(s, OneCall(id, now), policy);
    assert t.callers == s.callers[id := t.callers[id]];
  }

  // ---------- What pays for a retry ----------

  lemma {:induction false} OpenersGrow(shorter: seq<Event>, longer: seq<Event>)
    requires shorter <= longer
    ensures Openers(shorter) <= Openers(longer)
    decreases |longer|
  {
    if |shorter| < |longer| {
      OpenersGrow(shorter, longer[..|longer| - 1]);
    } else {
      assert shorter == longer;
    }
  }

  /** Each retry of `c` is paid for by a caller it has seen that is not one of `was`. */
  ghost predicate PaidFor(was: set<CallerId>, c: Caller) {
    && c.retries <= |c.seen - was|
    && (c.pc.Returned? || (c.pc == AtIncrement && c.retries == 0) || was <= c.seen)
  }

  lemma AdvanceIsPaidFor(s: State, id: CallerId, was: set<CallerId>, policy: Policy)
    requires id in s.callers && !s.callers[id].pc.Returned?
    requires CallerFacts(Openers(s.history), s.row, id, s.callers[id], policy)
    requires was <= Openers(s.history) && PaidFor(was, s.callers[id])
    ensures PaidFor(was, Advance(s, id, policy).callers[id])
  {
    var c, openers := s.callers[id], Openers(s.history);
    SubsetSize(c.seen - was, openers - was);
    if c.pc == AtInsert && c.seen != openers {
      var winner :| winner in openers && winner !in c.seen;
      assert winner in openers - was && winner !in c.seen - was;
    }
  }

  lemma OthersStay(s: State, a: Action, id: CallerId, policy: Policy)
    requires id in s.callers
    ensures id in Next(s, a, policy).callers
    ensures a != Step(id) || s.callers[id].pc.Returned? ==> Next(s, a, policy).callers[id] == s.callers[id]
  {
  }

  lemma NextIsPaidFor(s: State, a: Action, id: CallerId, was: set<CallerId>, policy: Policy)
    requires id in s.callers && CallerFacts(Openers(s.history), s.row, id, s.callers[id], policy)
    requires was <= Openers(s.history) && PaidFor(was, s.callers[id])
    ensures id in Next(s, a, policy).callers && PaidFor(was, Next(s, a, policy).callers[id])
  {
    OthersStay(s, a, id, policy);
    if a == Step(id) && !s.callers[id].pc.Returned? {
      AdvanceIsPaidFor(s, id, was, policy);
    }
  }

  lemma {:induction false} RetriesArePaidFor(run: seq<Action>, n: nat, id: CallerId, policy: Policy)
    requires n <= |run| && id !in Exec(run[..n], policy).callers
    requires id in Exec(run, policy).callers
    ensures PaidFor(Openers(Exec(run[..n], policy).history), Exec(run, policy).callers[id])
    decreases |run|
  {
    if n == |run| {
      TakeAll(run);
    } else {
      var front, a := run[..|run| - 1], run[|run| - 1];
      assert front[..n] == run[..n];
      var s, was := Exec(front, policy), Openers(Exec(run[..n], policy).history);
      if id in s.callers {
        RetriesArePaidFor(front, n, id, policy);
        RetryFactsHold(front, policy);
        HistoryExtends(front, n, policy);
        OpenersGrow(Exec(run[..n], policy).history, s.history);
        assert CallerFacts(Openers(s.history), s.row, id, s.callers[id], policy);
        NextIsPaidFor(s, a, id, was, policy);
      }
    }
  }

  /**
   A call that had not begun after the first `n` actions has retried at most once for every
   other caller that opened a window after them.
   */
  lemma RetriesAreInterferences(run: seq<Action>, n: nat, id: CallerId, policy: Policy)
    requires n <= |run| && id !in Exec(run[..n], policy).callers
    requires id in Exec(run, policy).callers
    ensures var c := Exec(run, policy).callers[id];
      var winners := Openers(Exec(run, policy).history) - Openers(Exec(run[..n], policy).history) - {id};
      c.retries <= |winners| && c.steps <= 4 * |winners| + 4
  {
    var s, was := Exec(run, policy), Openers(Exec(run[..n], policy).history);
    RetriesArePaidFor(run, n, id, policy);
    RetryFactsHold(run, policy);
    assert CallerFacts(Openers(s.history), s.row, id, s.callers[id], policy);
    SubsetSize(s.callers[id].seen - was, Openers(s.history) - was - {id});
  }

  // ---------- A call that retries for ever ----------

  /** The clock reading `n` windows after `now`. */
  function Clock(now: int, n: nat, policy: Policy): int {
    if n == 0 then now else Clock(now, n - 1, policy) + policy.window
  }

  /** Caller `id` has retried once for each of `n` windows, all gone by now, and begins again. */
  ghost predicate Starved(s: State, id: CallerId, now: int, n: nat, policy: Policy) {
    && s.row.None? && NoEarlyOpening(s.history, policy)
    && id in s.callers && s.callers[id].now == now
    && s.callers[id].pc == AtIncrement && s.callers[id].retries == n
    && Openers(s.history) <= s.callers.Keys && |Openers(s.history)| == n
    && (forall other :: other in s.callers ==> other <= id + n)
    && (Starts(s.history) != [] ==> Deadline(Starts(s.history), policy) <= Clock(now, n, policy))
  }

  /** From `s` to `t` caller `id` has moved to `pc`, with so many more retries, and `gone` was removed. */
  ghost predicate Moved(s: State, t: State, id: CallerId, pc: Pc, more: nat, row: Option<Row>, gone: seq<Event>)
    requires id in s.callers
  {
    exists c: Caller ::
      && c.pc == pc && c.now == s.callers[id].now && c.retries == s.callers[id].retries + more
      && t == State(row, s.callers[id := c], s.history + gone)
  }

  lemma ThreeStepsFindNothing(s: State, id: CallerId, policy: Policy) returns (actions: seq<Action>, t: State)
    requires id in s.callers && s.callers[id].pc == AtIncrement && s.row.None?
    ensures t == After(s, actions, policy) && Moved(s, t, id, AtInsert, 0, None, [])
  {
    var a := Step(id);
    actions, t := ([a] + [a]) + [a], Next(Next(Next(s, a, policy), a, policy), a, policy);
    AfterBoth(s, [a] + [a], [a], policy);
    AfterBoth(s, [a], [a], policy);
  }

  lemma DuplicateThenSweep(s: State, id: CallerId, clock: int, policy: Policy) returns (actions: seq<Action>, t: State)
    requires id in s.callers && s.callers[id].pc == AtInsert
    requires s.row.Some? && s.row.value.expiresAt <= clock
    ensures t == After(s, actions, policy) && Moved(s, t, id, AtIncrement, 1, None, [Removed(clock)])
  {
    var beaten := Next(s, Step(id), policy);
    actions, t := [Step(id)] + [Sweep(clock)], Next(beaten, Sweep(clock), policy);
    AfterBoth(s, [Step(id)], [Sweep(clock)], policy);
  }

  /** `longer` is `history` and one window more, opened and removed on time if `clock` was. */
  ghost predicate OneWindowMore(history: seq<Event>, longer: seq<Event>, rival: CallerId, clock: int, policy: Policy) {
    && Starts(longer) == Starts(history) + [clock] && Openers(longer) == Openers(history) + {rival}
    && (NoEarlyOpening(history, policy) && (Starts(history) != [] ==> Deadline(Starts(history), policy) <= clock)
        ==> NoEarlyOpening(longer, policy))
  }

  lemma OpenedThenRemoved(history: seq<Event>, rival: CallerId, clock: int, policy: Policy)
    ensures OneWindowMore(history, history + [Call(rival, clock, Opened)] + [Removed(clock + policy.window)], rival, clock, policy)
  {
    var extended := history + [Call(rival, clock, Opened)];
    CountsAppend(history, Call(rival, clock, Opened));
    CountsAppend(extended, Removed(clock + policy.window));
    assert extended[..|history|] == history;
    assert (extended + [Removed(clock + policy.window)])[..|extended|] == extended;
  }

  /** From `s` to `t` caller `rival` has opened a window, which is gone, and `id` has retried once. */
  ghost predicate BeatenOnce(s: State, t: State, id: CallerId, rival: CallerId, clock: int, policy: Policy) {
    exists c: Caller ::
      && id in s.callers && id in t.callers && t.callers[id] == c && t.callers.Keys == s.callers.Keys + {rival}
      && c.pc == AtIncrement && c.now == s.callers[id].now && c.retries == s.callers[id].retries + 1
      && t.row.None? && OneWindowMore(s.history, t.history, rival, clock, policy)
  }

  lemma MovesBeat(s: State, found: State, beaten: State, end: State, id: CallerId, rival: CallerId, clock: int,
                  policy: Policy)
    requires s.row.None? && id in s.callers && rival !in s.callers
    requires Moved(s, found, id, AtInsert, 0, None, []) && CalledOnce(found, beaten, rival, clock, policy)
    requires id in beaten.callers && Moved(beaten, end, id, AtIncrement, 1, None, [Removed(clock + policy.window)])
    ensures BeatenOnce(s, end, id, rival, clock, policy)
  {
    assert s.history + [] == s.history;
    OpenedThenRemoved(s.history, rival, clock, policy);
  }

  /**
   Caller `id` finds no row, up to its insert; a new caller inserts first; the duplicate key
   sends `id` back, and the TTL index removes the row when the window is over.
   */
  lemma StarvingRound(s: State, id: CallerId, rival: CallerId, clock: int, policy: Policy)
    returns (round: seq<Action>, t: State)
    requires id in s.callers && s.callers[id].pc == AtIncrement && s.row.None? && rival !in s.callers
    ensures t == After(s, round, policy) && BeatenOnce(s, t, id, rival, clock, policy)
  {
    var three, found := ThreeStepsFindNothing(s, id, policy);
    var call, beaten := OneCall(rival, clock), After(found, OneCall(rival, clock), policy);
    OneCallIsAtomic(found, rival, clock, policy);
    var last: seq<Action>;
    last, t := DuplicateThenSweep(beaten, id, clock + policy.window, policy);
    round := (three + call) + last;
    MovesBeat(s, found, beaten, t, id, rival, clock, policy);
    AfterBoth(s, three, call, policy);
    AfterBoth(s, three + call, last, policy);
  }

  lemma StarvedAgain(s: State, id: CallerId, now: int, n: nat, policy: Policy) returns (round: seq<Action>, t: State)
    requires Starved(s, id, now, n, policy)
    ensures t == After(s, round, policy) && Starved(t, id, now, n + 1, policy)
  {
    round, t := StarvingRound(s, id, id + n + 1, Clock(now, n, policy), policy);
    assert id + n + 1 !in s.callers.Keys;
    assert |Openers(t.history)| == n + 1;
    assert Starts(t.history)[|Starts(t.history)| - 1] == Clock(now, n, policy);
  }

  lemma {:induction false} StarvingRun(id: CallerId, now: int, n: nat, policy: Policy)
    returns (run: seq<Action>, s: State)
    ensures s == Exec(run, policy) && Starved(s, id, now, n, policy)
  {
    if n == 0 {
      run, s := [Begin(id, now)], Next(INITIAL, Begin(id, now), policy);
      ExecIsAfter(run, policy);
    } else {
      var before, t := StarvingRun(id, now, n - 1, policy);
      var round: seq<Action>;
      round, s := StarvedAgain(t, id, now, n - 1, policy);
      run := before + round;
      ExecBoth(before, round, policy);
    }
  }

  /**
   The limiter is lock-free, not wait-free: for every policy and number of retries there is a
   run, even one whose deletions are on time, in which a call has retried that often and is no
   further than when it began.
   */
  lemma RetriesAreUnbounded(id: CallerId, now: int, n: nat, policy: Policy)
    ensures exists run :: Starved(Exec(run, policy), id, now, n, policy)
  {
    var run, s := StarvingRun(id, now, n, policy);
    assert Starved(Exec(run, policy), id, now, n, policy);
  }

  // ---------- Every atomic history is that of a run ----------

  ghost predicate DistinctCallers(history: seq<Event>) {
    forall i, j :: 0 <= i < j < |history| && history[i].Call? && history[j].Call?
      ==> history[i].caller != history[j].caller
  }

  ghost predicate Calls(history: seq<Event>, id: CallerId) {
    exists i :: 0 <= i < |history| && history[i].Call? && history[i].caller == id
  }

  function Actions(e: Event): seq<Action> {
    match e
    case Call(id, now, _) => OneCall(id, now)
    case Removed(clock) => [Sweep(clock)]
  }

  /** The calls one after the other, each run to its result, and the deletions between them. */
  function Schedule(history: seq<Event>): seq<Action> {
    if history == [] then [] else Schedule(history[..|history| - 1]) + Actions(history[|history| - 1])
  }

  lemma ActionsReproduce(s: State, e: Event, policy: Policy)
    requires Allowed(s.row, e, policy) && (e.Call? ==> e.caller !in s.callers)
    ensures var t := After(s, Actions(e), policy);
      && t.history == s.history + [e] && t.row == Effect(s.row, e, policy)
      && t.callers.Keys == s.callers.Keys + if e.Call? then {e.caller} else {}
  {
    match e
    case Call(id, now, _) =>
      OneCallIsAtomic(s, id, now, policy);
    case Removed(clock) =>
  }

  lemma CallsAppend(history: seq<Event>, e: Event, id: CallerId)
    ensures Calls(history + [e], id) <==> Calls(history, id) || (e.Call? && e.caller == id)
  {
    var longer := history + [e];
    if Calls(history, id) {
      var i :| 0 <= i < |history| && history[i].Call? && history[i].caller == id;
      assert longer[i] == history[i];
    }
    assert longer[|history|] == e;
  }

  lemma {:induction false} ScheduleReproduces(history: seq<Event>, policy: Policy)
    requires Legal(None, history, policy) && DistinctCallers(history)
    ensures var s := Exec(Schedule(history), policy);
      && s.history == history && s.row == Replay(None, history, policy)
      && forall id :: id in s.callers ==> Calls(history, id)
  {
    if history != [] {
      var before, e := history[..|history| - 1], history[|history| - 1];
      ScheduleReproduces(before, policy);
      var s := Exec(Schedule(before), policy);
      assert history == before + [e];
      assert e.Call? ==> !Calls(before, e.caller);
      ActionsReproduce(s, e, policy);
      ExecBoth(Schedule(before), Actions(e), policy);
      forall id | id in Exec(Schedule(history), policy).callers
        ensures Calls(history, id)
      {
        CallsAppend(before, e, id);
      }
    }
  }

  lemma RunsHaveDistinctCallers(run: seq<Action>, policy: Policy)
    ensures Legal(None, Exec(run, policy).history, policy) && DistinctCallers(Exec(run, policy).history)
  {
    RunRefinesAtomic(run, policy);
    var s := Exec(run, policy);
    forall i, j | 0 <= i < j < |s.history| && s.history[i].Call? && s.history[j].Call?
      ensures s.history[i].caller != s.history[j].caller
    {
      if s.history[i].caller == s.history[j].caller {
        OneCallEach(s, s.history[i].caller, i, j, policy);
      }
    }
  }

  /**
   The histories of runs are exactly the legal histories of the atomic limiter in which no
   caller calls twice: the commands allow all that the atomic limiter allows and nothing else.
   */
  lemma HistoriesAreThoseOfRuns(history: seq<Event>, policy: Policy)
    ensures (exists run :: Exec(run, policy).history == history)
       <==> Legal(None, history, policy) && DistinctCallers(history)
  {
    if exists run :: Exec(run, policy).history == history {
      var run :| Exec(run, policy).history == history;
      RunsHaveDistinctCallers(run, policy);
    }
    if Legal(None, history, policy) && DistinctCallers(history) {
      ScheduleReproduces(history, policy);
      assert Exec(Schedule(history), policy).history == history;
    }
  }

  // ---------- A run that admits too many ----------

  lemma {:induction false} BurstCallers(start: int, count: nat)
    requires 0 < count
    ensures |Burst(start, count)| == count
    ensures forall i :: 0 <= i < count ==> Burst(start, count)[i].Call? && Burst(start, count)[i].caller == i
  {
    if count > 1 {
      BurstCallers(start, count - 1);
    }
  }

  lemma {:induction false} ScheduleReadings(history: seq<Event>, first: int, latest: int)
    requires forall e :: e in history && e.Call? ==> first <= e.now <= latest
    ensures forall a :: a in Schedule(history) && a.Begin? ==> first <= a.now <= latest
  {
    if history != [] {
      assert history[|history| - 1] in history;
      ScheduleReadings(history[..|history| - 1], first, latest);
    }
  }

  /**
   The bound on admissions fails in a run of the real commands, for every policy: the TTL index
   removes a full window on time by a clock that is ahead, by any lead up to the window, of the
   clock of the caller that opens the next one.
   */
  lemma EarlyRemovalRunExceedsBound(start: int, lead: int, policy: Policy)
    requires 0 < lead <= policy.window
    ensures var run := Schedule(EarlyOpening(start, lead, policy));
      && (forall a :: a in run && a.Begin? ==> start <= a.now <= start + policy.window - lead)
      && !Spaced(Starts(Exec(run, policy).history), policy.window)
      && |Admitted(Exec(run, policy))| > policy.limit * (1 + (policy.window - lead) / policy.window)
  {
    var history := EarlyOpening(start, lead, policy);
    EarlyRemovalExceedsBound(start, lead, policy);
    BurstCallers(start, policy.limit);
    ScheduleReproduces(history, policy);
    ScheduleReadings(history, start, start + policy.window - lead);
    AdmittedAreCounted(Schedule(history), policy);
  }
}
