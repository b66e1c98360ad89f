/**
 Many callers of `record_report_share_password_failure` interleaved with the TTL index.

 Each caller has its own fixed `now` and its own program counter; every action performs one
 atomic database command, so a run is simply a sequence of actions.  A caller that raises or
 dies is one that is never scheduled again.
 */
module LimiterProtocol {
  import opened Options
  import opened Limiter

  /** The next database command of a call, or its result. */
  datatype Pc = AtIncrement | AtReset | AtRead | AtInsert | Returned(admitted: bool)

  /**
   `seen` are the callers whose insert or reset had committed when the latest increment
   attempt answered (or the duplicate key arrived), `retries` counts restarts and `steps`
   counts database commands.
   */
  datatype Caller = Caller(now: int, pc: Pc, seen: set<CallerId>, retries: nat, steps: nat)

  datatype State = State(row: Option<Row>, callers: map<CallerId, Caller>, history: seq<Event>)

  datatype Action = Begin(id: CallerId, now: int) | Step(id: CallerId) | Sweep(clock: int)

  const INITIAL := State(None, map[], [])

  /** The callers that opened a window, by insert or by reset. */
  function Openers(history: seq<Event>): set<CallerId> {
    if history == [] then {}
    else
      var last := history[|history| - 1];
      Openers(history[..|history| - 1]) + if Opens(last) then {last.caller} else {}
  }

  function Finish(s: State, id: CallerId, row: Option<Row>, verdict: Verdict): State
    requires id in s.callers
  {
    var c := s.callers[id];
    State(row,
          s.callers[id := c.(pc := Returned(verdict != Denied), steps := c.steps + 1)],
          s.history + [Call(id, c.now, verdict)])
  }

  function Continue(s: State, id: CallerId, c: Caller): State {
    s.(callers := s.callers[id := c.(steps := c.steps + 1)])
  }

  /** One database command of caller `id`, in the order of the source. */
  function Advance(s: State, id: CallerId, policy: Policy): State
    requires id in s.callers
  {
    var c := s.callers[id];
    match c.pc
    case AtIncrement =>
      var post := CompareAndIncrement(s.row, c.now, policy);
      if post.Some? then Finish(s, id, post, Incremented)
      else Continue(s, id, c.(pc := AtReset, seen := Openers(s.history)))
    case AtReset =>
      var post := ResetIfExpired(s.row, c.now, policy);
      if post.Some? then Finish(s, id, post, Opened)
      else Continue(s, id, c.(pc := AtRead))
    case AtRead =>
      if LimitReached(s.row, c.now, policy) then Finish(s, id, s.row, Denied)
      else Continue(s, id, c.(pc := AtInsert))
    case AtInsert =>
      var post := InsertUnique(s.row, c.now, policy);
      if post.Some? then Finish(s, id, post, Opened)
      else Continue(s, id, c.(pc := AtIncrement, seen := Openers(s.history), retries := c.retries + 1))
    case Returned(_) => s
  }

  function Next(s: State, a: Action, policy: Policy): State {
    match a
    case Begin(id, now) =>
      if id in s.callers then s
      else s.(callers := s.callers[id := Caller(now, AtIncrement, {}, 0, 0)])
    case Step(id) => if id in s.callers then Advance(s, id, policy) else s
    case Sweep(clock) =>
      if s.row.Some? && s.row.value.expiresAt <= clock
      then s.(row := None, history := s.history + [Removed(clock)])
      else s
  }

  /** The state after a run; every sequence of actions is a run. */
  function Exec(run: seq<Action>, policy: Policy): State {
    if run == [] then INITIAL
    else Next(Exec(run[..|run| - 1], policy), run[|run| - 1], policy)
  }

  // ---------- Refinement of the atomic limiter ----------

  /** `id` committed exactly once, with its own clock reading and the result it returned. */
  ghost predicate CommittedOnce(s: State, id: CallerId)
    requires id in s.callers
  {
    var c := s.callers[id];
    exists i ::
      && 0 <= i < |s.history|
      && s.history[i].Call? && s.history[i].caller == id && s.history[i].now == c.now
      && c.pc == Returned(Admits(s.history[i]))
      && forall j :: 0 <= j < |s.history| && j != i && s.history[j].Call? ==> s.history[j].caller != id
  }

  ghost predicate NotCommitted(s: State, id: CallerId) {
    forall i :: 0 <= i < |s.history| && s.history[i].Call? ==> s.history[i].caller != id
  }

  ghost predicate Refines(s: State, policy: Policy) {
    && Legal(None, s.history, policy)
    && s.row == Replay(None, s.history, policy)
    && (forall id :: id in s.callers && s.callers[id].pc.Returned? ==> CommittedOnce(s, id))
    && (forall id :: id !in s.callers || !s.callers[id].pc.Returned? ==> NotCommitted(s, id))
  }

  lemma FinishCommits(s: State, id: CallerId, verdict: Verdict, policy: Policy)
    requires Refines(s, policy)
    requires id in s.callers && !s.callers[id].pc.Returned?
    requires verdict == Decide(s.row, s.callers[id].now, policy)
    ensures Refines(Finish(s, id, Commit(s.row, s.callers[id].now, policy), verdict), policy)
  {
    var e := Call(id, s.callers[id].now, verdict);
    var s' := Finish(s, id, Commit(s.row, s.callers[id].now, policy), verdict);
    ReplayAppend(None, s.history, e, policy);
    forall other | other in s'.callers && s'.callers[other].pc.Returned?
      ensures CommittedOnce(s', other)
    {
      assert other != id ==> CommittedOnce(s, other);
    }
    forall other | other !in s'.callers || !s'.callers[other].pc.Returned?
      ensures NotCommitted(s', other)
    {
      assert NotCommitted(s, other);
    }
  }

  lemma QuietStepRefines(s: State, s': State, policy: Policy)
    requires Refines(s, policy) && s'.row == s.row && s'.history == s.history
    requires forall id :: id in s.callers ==> id in s'.callers
    requires forall id :: id in s.callers && s.callers[id].pc.Returned? ==> s'.callers[id] == s.callers[id]
    requires forall id :: id in s'.callers && s'.callers[id].pc.Returned? ==>
                            id in s.callers && s.callers[id].pc.Returned?
    ensures Refines(s', policy)
  {
    forall id | id in s'.callers && s'.callers[id].pc.Returned?
      ensures CommittedOnce(s', id)
    {
      assert CommittedOnce(s, id);
    }
    forall id | id !in s'.callers || !s'.callers[id].pc.Returned?
      ensures NotCommitted(s', id)
    {
      assert NotCommitted(s, id);
    }
  }

  /**
   The command at which a call returns is the atomic decision on the row it finds; any other
   command leaves the row and the history alone.
   */
  lemma LinearisationPoint(s: State, id: CallerId, policy: Policy)
    requires id in s.callers && !s.callers[id].pc.Returned?
    ensures var s', now := Advance(s, id, policy), s.callers[id].now;
            if s'.callers[id].pc.Returned?
            then s' == Finish(s, id, Commit(s.row, now, policy), Decide(s.row, now, policy))
            else s'.row == s.row && s'.history == s.history
  {
    var c := s.callers[id];
    match c.pc
    case AtIncrement =>
      assert CompareAndIncrement(s.row, c.now, policy).Some? ==>
          CompareAndIncrement(s.row, c.now, policy) == Commit(s.row, c.now, policy);
    case AtReset =>
    case AtRead =>
    case AtInsert =>
  }

  /**
   Every interleaving refines the atomic limiter: the row is what the atomic limiter would
   hold, and each returned call took effect exactly once, as one atomic decision.
   */
  lemma {:induction false} RunRefinesAtomic(run: seq<Action>, policy: Policy)
    ensures Refines(Exec(run, policy), policy)
    ensures InRange(Exec(run, policy).row, policy)
  {
    if run != [] {
      var s, a := Exec(run[..|run| - 1], policy), run[|run| - 1];
      RunRefinesAtomic(run[..|run| - 1], policy);
      match a {
        case Begin(id, now) =>
          QuietStepRefines(s, Next(s, a, policy), policy);
        case Sweep(clock) =>
        case Step(id) =>
          if id in s.callers && !s.callers[id].pc.Returned? {
            LinearisationPoint(s, id, policy);
            var s' := Next(s, a, policy);
            if s'.callers[id].pc.Returned? {
              FinishCommits(s, id, Decide(s.row, s.callers[id].now, policy), policy);
            } else {
              QuietStepRefines(s, s', policy);
            }
          }
      }
      CountStaysInRange(None, Exec(run, policy).history, policy);
    }
  }

  // ---------- Retries ----------

  /** How many commands of the current attempt have been issued. */
  function Position(pc: Pc): nat {
    match pc
    case AtIncrement => 0
    case AtReset => 1
    case AtRead => 2
    case AtInsert => 3
    case Returned(_) => 4
  }

  /** What the answers so far say about the row if no window was opened since they were given. */
  predicate RowAsSeen(row: Option<Row>, c: Caller, policy: Policy) {
    row.Some? ==>
      match c.pc
      case AtReset => row.value.expiresAt <= c.now || row.value.failures >= policy.limit
      case AtRead => row.value.expiresAt > c.now && row.value.failures >= policy.limit
      case AtInsert => false
      case _ => true
  }

  /** Invariant of caller `id` with record `c`, when `openers` have opened windows. */
  ghost predicate CallerFacts(openers: set<CallerId>, row: Option<Row>, id: CallerId, c: Caller, policy: Policy) {
    && c.seen <= openers
    && id !in c.seen
    && c.retries <= |c.seen|
    && (c.seen == openers ==> RowAsSeen(row, c, policy))
    && (!c.pc.Returned? ==> id !in openers && c.steps == 4 * c.retries + Position(c.pc))
    && c.steps <= 4 * c.retries + 4
  }

  ghost predicate RetryFacts(s: State, policy: Policy) {
    && Openers(s.history) <= s.callers.Keys
    && forall id :: id in s.callers ==> CallerFacts(Openers(s.history), s.row, id, s.callers[id], policy)
  }

  lemma {:induction false} SubsetSize<T>(a: set<T>, b: set<T>)
    requires a <= b
    ensures |a| <= |b|
    ensures a != b ==> |a| < |b|
  {
    assert b == a + (b - a);
  }

  lemma FinisherFacts(openers: set<CallerId>, row: Option<Row>, id: CallerId, c: Caller, policy: Policy)
    requires CallerFacts(openers, row, id, c, policy) && !c.pc.Returned?
    ensures var verdict := Decide(row, c.now, policy);
      CallerFacts(if verdict == Opened then openers + {id} else openers, Commit(row, c.now, policy), id,
                  c.(pc := Returned(verdict != Denied), steps := c.steps + 1), policy)
  {
  }

  lemma FinishKeepsFacts(s: State, id: CallerId, policy: Policy)
    requires RetryFacts(s, policy)
    requires id in s.callers && !s.callers[id].pc.Returned?
    ensures var now := s.callers[id].now;
            RetryFacts(Finish(s, id, Commit(s.row, now, policy), Decide(s.row, now, policy)), policy)
  {
    var now := s.callers[id].now;
    var s' := Finish(s, id, Commit(s.row, now, policy), Decide(s.row, now, policy));
    forall other | other in s'.callers
      ensures CallerFacts(Openers(s'.history), s'.row, other, s'.callers[other], policy)
    {
      assert CallerFacts(Openers(s.history), s.row, id, s.callers[id], policy);
      if other == id {
        FinisherFacts(Openers(s.history), s.row, id, s.callers[id], policy);
      }
    }
  }

  lemma {:induction false} ContinuerKeepsFacts(s: State, id: CallerId, policy: Policy)
    requires id in s.callers && !s.callers[id].pc.Returned?
    requires CallerFacts(Openers(s.history), s.row, id, s.callers[id], policy)
    ensures var c' := Advance(s, id, policy).callers[id];
      !c'.pc.Returned? ==> CallerFacts(Openers(s.history), s.row, id, c', policy)
  {
    var c, openers := s.callers[id], Openers(s.history);
    SubsetSize(c.seen, openers);
    if c.pc == AtInsert && InsertUnique(s.row, c.now, policy).None? {
      assert c.seen != openers;
    }
  }

  lemma {:induction false} StepKeepsFacts(s: State, id: CallerId, policy: Policy)
    requires RetryFacts(s, policy) && id in s.callers && !s.callers[id].pc.Returned?
    ensures RetryFacts(Advance(s, id, policy), policy)
  {
    LinearisationPoint(s, id, policy);
    if Advance(s, id, policy).callers[id].pc.Returned? {
      FinishKeepsFacts(s, id, policy);
    } else {
      var openers, s' := Openers(s.history), Advance(s, id, policy);
      assert CallerFacts(openers, s.row, id, s.callers[id], policy);
      ContinuerKeepsFacts(s, id, policy);
      forall other | other in s'.callers
        ensures CallerFacts(openers, s.row, other, s'.callers[other], policy)
      {
        assert other != id ==> s'.callers[other] == s.callers[other];
      }
    }
  }

  lemma {:induction false} RetryFactsHold(run: seq<Action>, policy: Policy)
    ensures RetryFacts(Exec(run, policy), policy)
  {
    if run != [] {
      var s, a := Exec(run[..|run| - 1], policy), run[|run| - 1];
      RetryFactsHold(run[..|run| - 1], policy);
      match a {
        case Begin(id, now) =>
        case Sweep(clock) =>
        case Step(id) =>
          if id in s.callers && !s.callers[id].pc.Returned? {
            StepKeepsFacts(s, id, policy);
          }
      }
    }
  }

  /**
   Lock freedom: a duplicate key means that another caller's insert or reset committed after
   this caller's latest increment attempt.
   */
  lemma RetryNeedsWinner(run: seq<Action>, id: CallerId, policy: Policy)
    requires var s := Exec(run, policy);
             id in s.callers && s.callers[id].pc == AtInsert && InsertUnique(s.row, s.callers[id].now, policy).None?
    ensures var s := Exec(run, policy);
            exists winner :: winner in Openers(s.history) && winner !in s.callers[id].seen && winner != id
  {
    RetryFactsHold(run, policy);
    var s := Exec(run, policy);
    assert CallerFacts(Openers(s.history), s.row, id, s.callers[id], policy);
    assert s.callers[id].seen < Openers(s.history);
    var winner :| winner in Openers(s.history) && winner !in s.callers[id].seen;
  }

  /** A call restarts at most once for every other caller. */
  lemma {:induction false} RetriesAreBounded(s: State, id: CallerId, policy: Policy)
    requires RetryFacts(s, policy) && id in s.callers
    ensures s.callers[id].retries < |s.callers.Keys|
    ensures s.callers[id].steps <= 4 * s.callers[id].retries + 4
    ensures !s.callers[id].pc.Returned? ==>
              s.callers[id].steps == 4 * s.callers[id].retries + Position(s.callers[id].pc)
  {
    assert CallerFacts(Openers(s.history), s.row, id, s.callers[id], policy);
    SubsetSize(s.callers[id].seen, s.callers.Keys);
  }

  /** No call ever issues more than four commands per caller of the run, under any schedule. */
  lemma CommandsAreBounded(run: seq<Action>, id: CallerId, policy: Policy)
    requires id in Exec(run, policy).callers
    ensures var s := Exec(run, policy);
            s.callers[id].steps <= 4 * |s.callers.Keys|
  {
    RetryFactsHold(run, policy);
    RetriesAreBounded(Exec(run, policy), id, policy);
  }

  /** Commands a call may still need if no further caller begins. */
  function Budget(s: State, id: CallerId): int
    requires id in s.callers
  {
    if s.callers[id].pc.Returned? then 0 else 4 * |s.callers.Keys| - s.callers[id].steps
  }

  /** The action is the arrival of a new caller. */
  predicate Arrives(s: State, a: Action) {
    a.Begin? && a.id !in s.callers
  }

  lemma StepsAreCounted(s: State, id: CallerId, a: Action, policy: Policy)
    requires id in s.callers && !s.callers[id].pc.Returned?
    ensures var s' := Next(s, a, policy);
            && s'.callers.Keys == s.callers.Keys + (if Arrives(s, a) then {a.id} else {})
            && (if a == Step(id) then s'.callers[id].steps == s.callers[id].steps + 1
                else s'.callers[id] == s.callers[id])
  {
  }

  /**
   A call returns under every schedule in which only finitely many callers arrive: its budget is
   positive while it runs, is spent by each of its own commands, is untouched by those of others
   and by the TTL index, and is raised by four by each arrival.  `LimiterRuns` shows that with
   arrivals without end a call may retry without end.
   */
  lemma StepSpendsBudget(run: seq<Action>, id: CallerId, a: Action, policy: Policy)
    requires var s := Exec(run, policy);
             id in s.callers && !s.callers[id].pc.Returned?
    ensures var s := Exec(run, policy);
            var s' := Next(s, a, policy);
            && id in s'.callers
            && 0 < Budget(s, id)
            && (a == Step(id) ==> 0 <= Budget(s', id) < Budget(s, id))
            && (a != Step(id) ==> Budget(s', id) == Budget(s, id) + if Arrives(s, a) then 4 else 0)
  {
    var s := Exec(run, policy);
    var s' := Next(s, a, policy);
    RetryFactsHold(run, policy);
    RetriesAreBounded(s, id, policy);
    assert (run + [a])[..|run|] == run;
    StepsAreCounted(s, id, a, policy);
    CommandsAreBounded(run + [a], id, policy);
  }

  /**
   A caller that runs alone from its increment attempt returns within four commands, without
   a retry, and with the atomic decision.
   */
  lemma SoloCallNeverRetries(s: State, id: CallerId, policy: Policy)
    requires id in s.callers && s.callers[id].pc == AtIncrement
    ensures var step := (t: State) => Next(t, Step(id), policy);
            var end := step(step(step(step(s))));
            && id in end.callers
            && end.callers[id].retries == s.callers[id].retries
            && end.callers == s.callers[id := end.callers[id]]
            && end.callers[id].pc == Returned(Decide(s.row, s.callers[id].now, policy) != Denied)
            && end.row == Commit(s.row, s.callers[id].now, policy)
            && end.history == s.history + [Call(id, s.callers[id].now, Decide(s.row, s.callers[id].now, policy))]
  {
    match Decide(s.row, s.callers[id].now, policy)
    case Incremented =>
    case Denied =>
    case Opened =>
  }

  // ---------- The admission bound, over runs ----------

  function Admitted(s: State): set<CallerId> {
    set id | id in s.callers && s.callers[id].pc == Returned(true)
  }

  lemma FinishAdmits(s: State, id: CallerId, post: Option<Row>, verdict: Verdict)
    requires id in s.callers && !s.callers[id].pc.Returned?
    ensures var s' := Finish(s, id, post, verdict);
      |Admitted(s')| - |Admitted(s)| == Admissions(s'.history) - Admissions(s.history)
  {
    var s' := Finish(s, id, post, verdict);
    assert s'.history[..|s.history|] == s.history;
    if verdict == Denied {
      assert Admitted(s') == Admitted(s);
    } else {
      assert Admitted(s') == Admitted(s) + {id};
    }
  }

  lemma ContinueAdmits(s: State, id: CallerId, policy: Policy)
    requires id in s.callers && !s.callers[id].pc.Returned?
    requires !Advance(s, id, policy).callers[id].pc.Returned?
    ensures Admitted(Advance(s, id, policy)) == Admitted(s)
  {
    var s' := Advance(s, id, policy);
    forall other
      ensures other in Admitted(s') <==> other in Admitted(s)
    {
      assert other != id && other in s'.callers ==> s'.callers[other] == s.callers[other];
    }
  }

  lemma StepAdmits(s: State, a: Action, policy: Policy)
    ensures var s' := Next(s, a, policy);
      |Admitted(s')| - |Admitted(s)| == Admissions(s'.history) - Admissions(s.history)
  {
    if !a.Step? {
      var s' := Next(s, a, policy);
      if s'.history != s.history {
        assert s'.history[..|s.history|] == s.history;
      }
      assert Admitted(s') == Admitted(s);
    } else if a.id in s.callers && !s.callers[a.id].pc.Returned? {
      LinearisationPoint(s, a.id, policy);
      if Advance(s, a.id, policy).callers[a.id].pc.Returned? {
        FinishAdmits(s, a.id, Commit(s.row, s.callers[a.id].now, policy), Decide(s.row, s.callers[a.id].now, policy));
      } else {
        ContinueAdmits(s, a.id, policy);
      }
    }
  }

  lemma {:induction false} AdmittedAreCounted(run: seq<Action>, policy: Policy)
    ensures |Admitted(Exec(run, policy))| == Admissions(Exec(run, policy).history)
  {
    if run == [] {
      assert Admitted(INITIAL) == {};
    } else {
      AdmittedAreCounted(run[..|run| - 1], policy);
      StepAdmits(Exec(run[..|run| - 1], policy), run[|run| - 1], policy);
    }
  }

  ghost predicate ReadingsWithin(s: State, first: int, latest: int) {
    && (forall i :: 0 <= i < |s.history| && s.history[i].Call? ==> first <= s.history[i].now <= latest)
    && (forall id :: id in s.callers ==> first <= s.callers[id].now <= latest)
  }

  lemma {:induction false} HistoryReadings(run: seq<Action>, policy: Policy, first: int, latest: int)
    requires forall i :: 0 <= i < |run| && run[i].Begin? ==> first <= run[i].now <= latest
    ensures ReadingsWithin(Exec(run, policy), first, latest)
  {
    if run != [] {
      HistoryReadings(run[..|run| - 1], policy, first, latest);
      var s, a := Exec(run[..|run| - 1], policy), run[|run| - 1];
      if a.Step? && a.id in s.callers && !s.callers[a.id].pc.Returned? {
        LinearisationPoint(s, a.id, policy);
      }
    }
  }

  /**
   In a run whose TTL removals let no window open early, at most
   limit * (1 + floor((latest - first) / window)) calls return true, for any interleaving and
   any clock readings between `first` and `latest`.
   */
  lemma AdmissionsOverRun(run: seq<Action>, policy: Policy, first: int, latest: int)
    requires first <= latest
    requires NoEarlyOpening(Exec(run, policy).history, policy)
    requires forall i :: 0 <= i < |run| && run[i].Begin? ==> first <= run[i].now <= latest
    ensures |Admitted(Exec(run, policy))| <= policy.limit * (1 + (latest - first) / policy.window)
  {
    RunRefinesAtomic(run, policy);
    AdmittedAreCounted(run, policy);
    HistoryReadings(run, policy, first, latest);
    AdmissionBound(Exec(run, policy).history, policy, first, latest);
  }

  lemma {:induction false} NoSweepNoRemoval(run: seq<Action>, policy: Policy)
    requires forall i :: 0 <= i < |run| ==> !run[i].Sweep?
    ensures forall e :: e in Exec(run, policy).history ==> e.Call?
  {
    if run != [] {
      var s, a := Exec(run[..|run| - 1], policy), run[|run| - 1];
      NoSweepNoRemoval(run[..|run| - 1], policy);
      if a.Step? && a.id in s.callers && !s.callers[a.id].pc.Returned? {
        LinearisationPoint(s, a.id, policy);
      }
    }
  }

  /** In particular in every run without TTL removals. */
  lemma AdmissionsWithoutRemovals(run: seq<Action>, policy: Policy, first: int, latest: int)
    requires first <= latest
    requires forall i :: 0 <= i < |run| ==> !run[i].Sweep?
    requires forall i :: 0 <= i < |run| && run[i].Begin? ==> first <= run[i].now <= latest
    ensures |Admitted(Exec(run, policy))| <= policy.limit * (1 + (latest - first) / policy.window)
  {
    NoSweepNoRemoval(run, policy);
    RunRefinesAtomic(run, policy);
    var history := Exec(run, policy).history;
    assert forall i :: 0 <= i < |history| ==> history[i] in history;
    PunctualRemovals(history, policy);
    AdmissionsOverRun(run, policy, first, latest);
  }

  // ---------- Real-time order ----------

  /** The history of a run extends that of each of its beginnings, and results stay. */
  lemma {:induction false} HistoryExtends(run: seq<Action>, n: nat, policy: Policy)
    requires n <= |run|
    ensures Exec(run[..n], policy).history <= Exec(run, policy).history
    decreases |run|
  {
    if n == |run| {
      assert run[..n] == run;
    } else {
      HistoryExtends(run[..|run| - 1], n, policy);
      assert run[..|run| - 1][..n] == run[..n];
      var s, a := Exec(run[..|run| - 1], policy), run[|run| - 1];
      if a.Step? && a.id in s.callers && !s.callers[a.id].pc.Returned? {
        LinearisationPoint(s, a.id, policy);
      }
    }
  }

  /**
   The linearisation keeps real-time order: if `early` had returned after the first `n` actions
   and `late` had not begun by then, the call of `early` precedes the call of `late`.
   */
  lemma {:induction false} ReturnedBeforeBegunPrecedes(run: seq<Action>, n: nat, early: CallerId, late: CallerId, i: nat, j: nat,
                                    policy: Policy)
    requires n <= |run|
    requires var middle := Exec(run[..n], policy);
      early in middle.callers && middle.callers[early].pc.Returned? && late !in middle.callers
    requires var history := Exec(run, policy).history;
      && i < |history| && history[i].Call? && history[i].caller == early
      && j < |history| && history[j].Call? && history[j].caller == late
    ensures i < j
  {
    var middle, end := Exec(run[..n], policy), Exec(run, policy);
    RunRefinesAtomic(run[..n], policy);
    RunRefinesAtomic(run, policy);
    HistoryExtends(run, n, policy);
    assert CommittedOnce(middle, early) && NotCommitted(middle, late);
    var k :| 0 <= k < |middle.history| && middle.history[k].Call? && middle.history[k].caller == early;
    assert end.history[k] == middle.history[k];
    assert forall h :: 0 <= h < |middle.history| ==> end.history[h] == middle.history[h];
    OneCallEach(end, early, i, k, policy);
  }

  lemma OneCallEach(s: State, id: CallerId, i: nat, k: nat, policy: Policy)
    requires Refines(s, policy) && i < |s.history| && k < |s.history|
    requires s.history[i].Call? && s.history[i].caller == id && s.history[k].Call? && s.history[k].caller == id
    ensures i == k
  {
    assert !NotCommitted(s, id);
    assert CommittedOnce(s, id);
  }
}
