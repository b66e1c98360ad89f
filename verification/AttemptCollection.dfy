/**
 The `report_share_password_attempts` collection as the code drives it: documents updated in
 place, one command at a time, with other callers and the TTL index acting in between.
 By `LimiterProtocol.RunRefinesAtomic` the others are visible only through their atomic
 decisions, so that is what a turn of the environment performs.
 */
module AttemptCollection {
  import opened Options
  import opened Limiter

  datatype Key = Key(shareId: string, clientKey: string)

  /** One visible action of the environment on the document of the call. */
  datatype Other = Attempt(id: CallerId, now: int) | Sweep(clock: int)

  /** The document went from `start` to `row` through the atomic events of `trace`. */
  ghost predicate Explains(start: Option<Row>, trace: seq<Event>, row: Option<Row>, policy: Policy) {
    Legal(start, trace, policy) && row == Replay(start, trace, policy)
  }

  ghost predicate NoCallBy(id: CallerId, trace: seq<Event>) {
    forall e :: e in trace && e.Call? ==> e.caller != id
  }

  ghost predicate NoAttemptBy(id: CallerId, others: seq<Other>) {
    forall o :: o in others && o.Attempt? ==> o.id != id
  }

  ghost predicate NoTurnOf(id: CallerId, turns: seq<seq<Other>>) {
    forall k :: 0 <= k < |turns| ==> NoAttemptBy(id, turns[k])
  }

  class Collection {
    var rows: map<Key, Row>
    const policy: Policy

    constructor (policy: Policy)
      ensures rows == map[] && this.policy == policy
    {
      rows := map[];
      this.policy := policy;
    }

    function Lookup(key: Key): Option<Row>
      reads this
    {
      if key in rows then Some(rows[key]) else None
    }

    /** Every document but that of `key` is as it was. */
    twostate predicate OnlyChanged(key: Key)
      reads this
    {
      rows - {key} == old(rows) - {key}
    }

    method Store(key: Key, row: Option<Row>)
      modifies this
      ensures Lookup(key) == row && OnlyChanged(key)
    {
      rows := if row.Some? then rows[key := row.value] else rows - {key};
    }

    /** `find_one_and_update` with the compare-and-increment filter. */
    method FindAndIncrement(key: Key, now: int) returns (matched: bool)
      modifies this
      ensures var post := CompareAndIncrement(old(Lookup(key)), now, policy);
              matched == post.Some? && Lookup(key) == (if matched then post else old(Lookup(key)))
      ensures OnlyChanged(key)
    {
      matched := key in rows && rows[key].expiresAt > now && rows[key].failures < policy.limit;
      if matched {
        rows := rows[key := rows[key].(failures := rows[key].failures + 1)];
      }
    }

    /** `find_one_and_update` with the expired filter. */
    method FindAndReset(key: Key, now: int) returns (matched: bool)
      modifies this
      ensures var post := ResetIfExpired(old(Lookup(key)), now, policy);
              matched == post.Some? && Lookup(key) == (if matched then post else old(Lookup(key)))
      ensures OnlyChanged(key)
    {
      matched := key in rows && rows[key].expiresAt <= now;
      if matched {
        rows := rows[key := Row(1, now + policy.window)];
      }
    }

    /** `report_share_password_attempt_limit_reached`. */
    method AttemptLimitReached(key: Key, now: int) returns (reached: bool)
      ensures reached == LimitReached(Lookup(key), now, policy)
    {
      reached := key in rows && rows[key].expiresAt > now && rows[key].failures >= policy.limit;
    }

    /** `insert_one` under the unique index on (share_id, client_key). */
    method InsertDocument(key: Key, now: int) returns (duplicate: bool)
      modifies this
      ensures var post := InsertUnique(old(Lookup(key)), now, policy);
              duplicate == post.None? && Lookup(key) == (if duplicate then old(Lookup(key)) else post)
      ensures OnlyChanged(key)
    {
      duplicate := key in rows;
      if !duplicate {
        rows := rows[key := Row(1, now + policy.window)];
      }
    }

    /** One turn of the environment, extending the events of `trace` that led here from `start`. */
    method Interfere(id: CallerId, key: Key, others: seq<Other>, ghost start: Option<Row>, ghost trace: seq<Event>)
        returns (ghost longer: seq<Event>)
      requires Explains(start, trace, Lookup(key), policy)
      requires NoAttemptBy(id, others) && NoCallBy(id, trace)
      modifies this
      ensures Explains(start, longer, Lookup(key), policy)
      ensures NoCallBy(id, longer)
      ensures OnlyChanged(key)
    {
      longer := trace;
      for i := 0 to |others|
        invariant Explains(start, longer, Lookup(key), policy)
        invariant NoCallBy(id, longer)
        invariant OnlyChanged(key)
      {
        match others[i] {
          case Attempt(other, now) =>
            ghost var e := Call(other, now, Decide(Lookup(key), now, policy));
            ReplayAppend(start, longer, e, policy);
            assert others[i] in others;
            Store(key, Commit(Lookup(key), now, policy));
            longer := longer + [e];
          case Sweep(clock) =>
            if key in rows && rows[key].expiresAt <= clock {
              ReplayAppend(start, longer, Removed(clock), policy);
              Store(key, None);
              longer := longer + [Removed(clock)];
            }
        }
      }
    }

    /** The environment's next turn, if it has one. */
    method Turn(id: CallerId, key: Key, turns: seq<seq<Other>>, ghost start: Option<Row>, ghost trace: seq<Event>)
        returns (ghost longer: seq<Event>, rest: seq<seq<Other>>)
      requires Explains(start, trace, Lookup(key), policy)
      requires NoTurnOf(id, turns) && NoCallBy(id, trace)
      modifies this
      ensures Explains(start, longer, Lookup(key), policy)
      ensures NoTurnOf(id, rest)
      ensures NoCallBy(id, longer)
      ensures rest == if turns == [] then [] else turns[1..]
      ensures turns == [] ==> longer == trace && Lookup(key) == old(Lookup(key))
      ensures OnlyChanged(key)
    {
      if turns == [] {
        longer, rest := trace, [];
      } else {
        longer := Interfere(id, key, turns[0], start, trace);
        rest := turns[1..];
      }
    }

    /**
     `record_report_share_password_failure` of caller `id`, with `turns[k]` the environment's
     actions before the call's (k+1)-st command.  The call takes effect as one atomic decision,
     the last thing that happens to the document, and reports that decision; the recursion on
     a duplicate key terminates because it uses up turns of the environment.
     */
    method RecordFailure(id: CallerId, key: Key, now: int, turns: seq<seq<Other>>,
                         ghost start: Option<Row>, ghost before: seq<Event>)
        returns (admitted: bool, ghost trace: seq<Event>, ghost verdict: Verdict)
      requires Explains(start, before, Lookup(key), policy)
      requires NoTurnOf(id, turns) && NoCallBy(id, before)
      modifies this
      ensures Explains(start, trace + [Call(id, now, verdict)], Lookup(key), policy)
      ensures admitted == (verdict != Denied)
      ensures NoCallBy(id, trace)
      ensures turns == [] ==> trace == before
      ensures OnlyChanged(key)
      decreases |turns|
    {
      var rest;
      trace, rest := Turn(id, key, turns, start, before);
      var matched := FindAndIncrement(key, now);
      if matched {
        verdict := Incremented;
        ReplayAppend(start, trace, Call(id, now, verdict), policy);
        return true, trace, verdict;
      }

      trace, rest := Turn(id, key, rest, start, trace);
      matched := FindAndReset(key, now);
      if matched {
        verdict := Opened;
        ReplayAppend(start, trace, Call(id, now, verdict), policy);
        return true, trace, verdict;
      }

      trace, rest := Turn(id, key, rest, start, trace);
      var reached := AttemptLimitReached(key, now);
      if reached {
        verdict := Denied;
        ReplayAppend(start, trace, Call(id, now, verdict), policy);
        return false, trace, verdict;
      }

      trace, rest := Turn(id, key, rest, start, trace);
      var duplicate := InsertDocument(key, now);
      if !duplicate {
        verdict := Opened;
        ReplayAppend(start, trace, Call(id, now, verdict), policy);
        return true, trace, verdict;
      }

      admitted, trace, verdict := RecordFailure(id, key, now, rest, start, trace);
    }
  }
}
