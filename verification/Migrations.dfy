/**
 The migration ledger of backend/app/db/database.py: `initialize` over whole deployment
 histories, its backfill for databases older than the ledger, and the crash that loses it.
 */
module Migrations {
  import opened Options
  import opened Sequences

  /** A migration; also the row that records it.  `upgrade` itself is an opaque step. */
  datatype Migration = Migration(version: int, id: string, description: string)

  /** What is stored (`None`: no such table) and, in `upgrades`, the upgrade steps run so far. */
  datatype State = State(versions: Option<seq<int>>, ledger: Option<seq<Migration>>, upgrades: seq<Migration>)

  datatype Error = Conflict | Invalid

  // ---------- Reading ----------

  function Max(rows: seq<int>): int
    requires rows != []
  {
    var last := rows[|rows| - 1];
    if |rows| == 1 || Max(rows[..|rows| - 1]) < last then last else Max(rows[..|rows| - 1])
  }

  function Latest(rows: seq<int>): int {
    if rows == [] then 0 else Max(rows)
  }

  function Rows<T>(table: Option<seq<T>>): seq<T> {
    if table.Some? then table.value else []
  }

  function Current(s: State): int {
    Latest(Rows(s.versions))
  }

  function Above(migrations: seq<Migration>, version: int): seq<Migration> {
    if migrations == [] then []
    else (if migrations[0].version > version then [migrations[0]] else []) + Above(migrations[1..], version)
  }

  function UpTo(migrations: seq<Migration>, version: int): seq<Migration> {
    if migrations == [] then []
    else (if migrations[0].version <= version then [migrations[0]] else []) + UpTo(migrations[1..], version)
  }

  function Versions(migrations: seq<Migration>): seq<int> {
    if migrations == [] then [] else [migrations[0].version] + Versions(migrations[1..])
  }

  /** `migration_preview`. */
  function Preview(s: State, migrations: seq<Migration>): seq<Migration> {
    if s.versions.None? then migrations else Above(migrations, Current(s))
  }

  predicate Holds(ledger: seq<Migration>, migration: Migration) {
    exists row :: row in ledger && row.version == migration.version && row.id == migration.id
  }

  /** The version and ledger part of `validate_schema`. */
  predicate LedgerValid(s: State, migrations: seq<Migration>)
    requires migrations != []
  {
    && Current(s) == migrations[|migrations| - 1].version
    && (forall m :: m in migrations ==> Holds(Rows(s.ledger), m))
  }

  // ---------- The transaction ----------

  datatype Tx = Tx(versions: seq<int>, ledger: seq<Migration>, upgrades: seq<Migration>)

  /** Both the version and the migration id are unique in the ledger. */
  predicate CanRecord(ledger: seq<Migration>, migration: Migration) {
    forall row :: row in ledger ==> row.version != migration.version && row.id != migration.id
  }

  function Backfill(tx: Tx, migrations: seq<Migration>, current: int): Option<Tx>
    decreases |migrations|
  {
    if migrations == [] || migrations[0].version > current then Some(tx)
    else if !CanRecord(tx.ledger, migrations[0]) then None
    else Backfill(tx.(ledger := tx.ledger + [migrations[0]]), migrations[1..], current)
  }

  function Upgrade(tx: Tx, migrations: seq<Migration>, current: int): Option<Tx>
    decreases |migrations|
  {
    if migrations == [] then Some(tx)
    else
      var m := migrations[0];
      if m.version <= current then Upgrade(tx, migrations[1..], current)
      else if m.version in tx.versions || !CanRecord(tx.ledger, m) then None
      else Upgrade(Tx(tx.versions + [m.version], tx.ledger + [m], tx.upgrades + [m]), migrations[1..], m.version)
  }

  function Transaction(tx: Tx, existed: bool, migrations: seq<Migration>): Option<Tx> {
    var current := Latest(tx.versions);
    var backfilled := if existed then Some(tx) else Backfill(tx, migrations, current);
    if backfilled.None? then None else Upgrade(backfilled.value, migrations, current)
  }

  /** After the first `create_all`: both tables exist. */
  function Created(s: State): State {
    s.(versions := Some(Rows(s.versions)), ledger := Some(Rows(s.ledger)))
  }

  function Opened(s: State): Tx {
    Tx(Rows(s.versions), Rows(s.ledger), s.upgrades)
  }

  function Committed(tx: Tx): State {
    State(Some(tx.versions), Some(tx.ledger), tx.upgrades)
  }

  function After(s: State, migrations: seq<Migration>): State {
    var tx := Transaction(Opened(s), s.ledger.Some?, migrations);
    if tx.Some? then Committed(tx.value) else Created(s)
  }

  predicate Commits(s: State, migrations: seq<Migration>) {
    Transaction(Opened(s), s.ledger.Some?, migrations).Some?
  }

  /** The call returns rather than raises; the other schema checks are taken to pass. */
  predicate Completes(s: State, migrations: seq<Migration>)
    requires migrations != []
  {
    Commits(s, migrations) && LedgerValid(After(s, migrations), migrations)
  }

  class Database {
    var versions: Option<seq<int>>
    var ledger: Option<seq<Migration>>
    var upgrades: seq<Migration>

    function Value(): State
      reads this
    {
      State(versions, ledger, upgrades)
    }

    /** `initialize` in the mode `auto_migrate`; `schemaMatches` is the rest of the validation. */
    method Initialize(migrations: seq<Migration>, schemaMatches: bool) returns (result: Result<int, Error>)
      requires migrations != []
      modifies this
      ensures Value() == After(old(Value()), migrations)
      ensures result.Ok? <==> Completes(old(Value()), migrations) && schemaMatches
      ensures result == Err(Conflict) <==> !Commits(old(Value()), migrations)
      ensures result.Ok? ==> result.value == migrations[|migrations| - 1].version
    {
      ghost var start := Value();
      var existed := ledger.Some?;
      versions := Some(Rows(versions));
      ledger := Some(Rows(ledger));
      var tx := RunTransaction(Tx(versions.value, ledger.value, upgrades), existed, migrations);
      if tx.None? {
        return Err(Conflict);
      }
      versions := Some(tx.value.versions);
      ledger := Some(tx.value.ledger);
      upgrades := tx.value.upgrades;
      var valid := Validate(migrations);
      result := if valid && schemaMatches then Ok(migrations[|migrations| - 1].version) else Err(Invalid);
    }

    /** `validate_schema`, version and ledger. */
    method Validate(migrations: seq<Migration>) returns (valid: bool)
      requires migrations != []
      ensures valid == LedgerValid(Value(), migrations)
    {
      var missing: seq<string> := [];
      for i := 0 to |migrations|
        invariant missing == [] <==> forall m :: m in migrations[..i] ==> Holds(Rows(ledger), m)
      {
        assert migrations[..i + 1] == migrations[..i] + [migrations[i]];
        if !Holds(Rows(ledger), migrations[i]) {
          missing := missing + [migrations[i].id];
        }
      }
      assert migrations[..|migrations|] == migrations;
      valid := Latest(Rows(versions)) == migrations[|migrations| - 1].version && missing == [];
    }
  }

  /** The two loops of the transaction, `None` when a key conflict rolls it back. */
  method RunTransaction(start: Tx, existed: bool, migrations: seq<Migration>) returns (done: Option<Tx>)
    ensures done == Transaction(start, existed, migrations)
  {
    var tx := start;
    var current := Latest(tx.versions);
    if !existed {
      var i := 0;
      while i < |migrations| && migrations[i].version <= current
        invariant 0 <= i <= |migrations|
        invariant Backfill(start, migrations, current) == Backfill(tx, migrations[i..], current)
        invariant tx.versions == start.versions
      {
        if !CanRecord(tx.ledger, migrations[i]) {
          return None;
        }
        tx := tx.(ledger := tx.ledger + [migrations[i]]);
        i := i + 1;
      }
    }
    ghost var base, latest := tx, current;
    for i := 0 to |migrations|
      invariant Upgrade(base, migrations, latest) == Upgrade(tx, migrations[i..], current)
    {
      var m := migrations[i];
      if m.version <= current {
        continue;
      }
      if m.version in tx.versions || !CanRecord(tx.ledger, m) {
        return None;
      }
      tx := Tx(tx.versions + [m.version], tx.ledger + [m], tx.upgrades + [m]);
      current := m.version;
    }
    done := Some(tx);
  }

  // ---------- Lists of migrations ----------

  /** Versions increase from 1 on and ids differ. */
  ghost predicate Listed(migrations: seq<Migration>) {
    && (forall i :: 0 <= i < |migrations| ==> 1 <= migrations[i].version)
    && (forall i, j :: 0 <= i < j < |migrations| ==>
          migrations[i].version < migrations[j].version && migrations[i].id != migrations[j].id)
  }

  lemma {:induction false} AllAbove(migrations: seq<Migration>, version: int)
    requires Listed(migrations) && (migrations == [] || migrations[0].version > version)
    ensures Above(migrations, version) == migrations && UpTo(migrations, version) == []
  {
    if migrations != [] {
      AllAbove(migrations[1..], version);
      assert [migrations[0]] + migrations[1..] == migrations;
    }
  }

  /** A version splits a list in two. */
  lemma {:induction false} Split(migrations: seq<Migration>, version: int)
    requires Listed(migrations)
    ensures UpTo(migrations, version) + Above(migrations, version) == migrations
  {
    if migrations != [] {
      if migrations[0].version > version {
        AllAbove(migrations, version);
      } else {
        Split(migrations[1..], version);
        assert migrations == [migrations[0]] + migrations[1..];
      }
    }
  }

  lemma {:induction false} Selects(migrations: seq<Migration>, version: int, m: Migration)
    ensures m in Above(migrations, version) <==> m in migrations && m.version > version
    ensures m in UpTo(migrations, version) <==> m in migrations && m.version <= version
  {
    if migrations != [] {
      Selects(migrations[1..], version, m);
      assert migrations == [migrations[0]] + migrations[1..];
    }
  }

  lemma ListedTail(migrations: seq<Migration>)
    requires Listed(migrations) && migrations != []
    ensures Listed(migrations[1..])
    ensures forall m :: m in migrations[1..] ==> m.version > migrations[0].version && m.id != migrations[0].id
  {
  }

  lemma RecordableFirst(ledger: seq<Migration>, migrations: seq<Migration>)
    requires Listed(ledger + migrations) && migrations != []
    ensures CanRecord(ledger, migrations[0])
    ensures (ledger + [migrations[0]]) + migrations[1..] == ledger + migrations
  {
    var all := ledger + migrations;
    forall row | row in ledger
      ensures row.version != migrations[0].version && row.id != migrations[0].id
    {
      var i :| 0 <= i < |ledger| && ledger[i] == row;
      assert all[i] == row && all[|ledger|] == migrations[0];
    }
  }

  lemma ListedSuffix(before: seq<Migration>, migrations: seq<Migration>)
    requires Listed(before + migrations)
    ensures Listed(migrations)
  {
    var all := before + migrations;
    forall i | 0 <= i < |migrations|
      ensures migrations[i] == all[|before| + i]
    {
    }
    forall i, j | 0 <= i < j < |migrations|
      ensures migrations[i].version < migrations[j].version && migrations[i].id != migrations[j].id
    {
      assert all[|before| + i].version < all[|before| + j].version;
    }
  }

  /** The backfill loop stops at the first newer version, which on a list is all it should skip. */
  lemma {:induction false} BackfillListed(tx: Tx, migrations: seq<Migration>, current: int)
    requires Listed(tx.ledger + migrations)
    ensures Backfill(tx, migrations, current) == Some(tx.(ledger := tx.ledger + UpTo(migrations, current)))
    decreases |migrations|
  {
    ListedSuffix(tx.ledger, migrations);
    if migrations == [] || migrations[0].version > current {
      AllAbove(migrations, current);
      assert tx.ledger + [] == tx.ledger;
    } else {
      RecordableFirst(tx.ledger, migrations);
      BackfillListed(tx.(ledger := tx.ledger + [migrations[0]]), migrations[1..], current);
      assert tx.ledger + [migrations[0]] + UpTo(migrations[1..], current)
          == tx.ledger + ([migrations[0]] + UpTo(migrations[1..], current));
    }
  }

  /** Nothing newer than `current` is recorded yet. */
  ghost predicate Ready(tx: Tx, migrations: seq<Migration>, current: int) {
    && (forall v :: v in tx.versions ==> v <= current)
    && (forall m :: m in migrations && m.version > current ==> CanRecord(tx.ledger, m))
  }

  function Upgraded(tx: Tx, migrations: seq<Migration>): Tx {
    Tx(tx.versions + Versions(migrations), tx.ledger + migrations, tx.upgrades + migrations)
  }

  lemma UpgradedTwice(tx: Tx, migrations: seq<Migration>)
    requires migrations != []
    ensures Upgraded(Upgraded(tx, [migrations[0]]), migrations[1..]) == Upgraded(tx, migrations)
  {
    assert migrations == [migrations[0]] + migrations[1..];
    assert Versions([migrations[0]]) == [migrations[0].version];
    assert tx.versions + Versions([migrations[0]]) + Versions(migrations[1..])
        == tx.versions + Versions(migrations);
    assert tx.ledger + [migrations[0]] + migrations[1..] == tx.ledger + migrations;
    assert tx.upgrades + [migrations[0]] + migrations[1..] == tx.upgrades + migrations;
  }

  lemma ReadyNext(tx: Tx, migrations: seq<Migration>, current: int)
    requires Listed(migrations) && migrations != [] && Ready(tx, migrations, current) && migrations[0].version > current
    ensures Ready(Upgraded(tx, [migrations[0]]), migrations[1..], migrations[0].version)
    ensures migrations[0].version !in tx.versions && CanRecord(tx.ledger, migrations[0])
  {
    ListedTail(migrations);
    assert Versions([migrations[0]]) == [migrations[0].version];
    assert forall m :: m in migrations[1..] ==> m in migrations;
  }

  lemma {:induction false} UpgradeListed(tx: Tx, migrations: seq<Migration>, current: int)
    requires Listed(migrations) && Ready(tx, migrations, current)
    ensures Upgrade(tx, migrations, current) == Some(Upgraded(tx, Above(migrations, current)))
    decreases |migrations|
  {
    if migrations == [] {
      assert Upgraded(tx, []) == tx;
    } else {
      var m, rest := migrations[0], migrations[1..];
      ListedTail(migrations);
      if m.version <= current {
        assert forall other :: other in rest ==> other in migrations;
        UpgradeListed(tx, rest, current);
        assert Above(migrations, current) == Above(rest, current);
      } else {
        ReadyNext(tx, migrations, current);
        AllAbove(migrations, current);
        AllAbove(rest, m.version);
        assert Versions([m]) == [m.version];
        assert Upgraded(tx, [m]) == Tx(tx.versions + [m.version], tx.ledger + [m], tx.upgrades + [m]);
        UpgradeListed(Upgraded(tx, [m]), rest, m.version);
        UpgradedTwice(tx, migrations);
      }
    }
  }

  // ---------- Latest versions ----------

  lemma {:induction false} RowsAtMostMax(rows: seq<int>)
    requires rows != []
    ensures Max(rows) in rows
    ensures forall v :: v in rows ==> v <= Max(rows)
  {
    var front, last := rows[..|rows| - 1], rows[|rows| - 1];
    assert rows == front + [last];
    if front != [] {
      RowsAtMostMax(front);
    }
  }

  lemma LatestIs(rows: seq<int>, version: int)
    requires version in rows && forall v :: v in rows ==> v <= version
    ensures Latest(rows) == version
  {
    RowsAtMostMax(rows);
  }

  lemma {:induction false} VersionsOf(migrations: seq<Migration>)
    ensures |Versions(migrations)| == |migrations|
    ensures forall i :: 0 <= i < |migrations| ==> Versions(migrations)[i] == migrations[i].version
  {
    if migrations != [] {
      VersionsOf(migrations[1..]);
    }
  }

  /** After the listed versions above `current` are added, the newest is the last listed one. */
  lemma LatestAfter(rows: seq<int>, migrations: seq<Migration>, current: int)
    requires Listed(migrations) && migrations != [] && forall v :: v in rows ==> v <= current
    requires current == Latest(rows)
    ensures Latest(rows + Versions(Above(migrations, current)))
         == if migrations[|migrations| - 1].version > current then migrations[|migrations| - 1].version else current
  {
    var newer, last := Above(migrations, current), migrations[|migrations| - 1];
    VersionsOf(newer);
    Selects(migrations, current, last);
    if last.version > current {
      forall v | v in rows + Versions(newer)
        ensures v <= last.version
      {
        if v in Versions(newer) {
          var i :| 0 <= i < |newer| && Versions(newer)[i] == v;
          assert newer[i] in newer;
          Selects(migrations, current, newer[i]);
        }
      }
      var i :| 0 <= i < |newer| && newer[i] == last;
      assert Versions(newer)[i] == last.version;
      LatestIs(rows + Versions(newer), last.version);
    } else {
      if newer != [] {
        Selects(migrations, current, newer[0]);
      }
      assert rows + [] == rows;
    }
  }

  // ---------- One call ----------

  /** A database from before the ledger, or an empty one; no upgrade of its has been counted. */
  ghost predicate Unledgered(s: State) {
    s.ledger.None? && Current(s) >= 0
  }

  /** What a completed call with the list leaves. */
  ghost predicate Recorded(s: State, migrations: seq<Migration>) {
    && s.versions.Some? && s.ledger == Some(migrations) && migrations != []
    && Current(s) == migrations[|migrations| - 1].version
  }

  /** Rows and upgrades grow by the versions above `c`, and the ledger is the list. */
  function Brought(s: State, migrations: seq<Migration>, c: int): State {
    State(Some(Rows(s.versions) + Versions(Above(migrations, c))), Some(migrations),
          s.upgrades + Above(migrations, c))
  }

  lemma RowsAtMostCurrent(s: State)
    ensures forall v :: v in Rows(s.versions) ==> v <= Current(s)
  {
    if Rows(s.versions) != [] {
      RowsAtMostMax(Rows(s.versions));
    }
  }

  lemma HoldsAll(migrations: seq<Migration>)
    ensures forall m :: m in migrations ==> Holds(migrations, m)
  {
  }

  lemma ReadyAfterBackfill(tx: Tx, migrations: seq<Migration>)
    requires Listed(migrations) && tx.ledger == UpTo(migrations, Latest(tx.versions))
    ensures Ready(tx, migrations, Latest(tx.versions))
  {
    var c := Latest(tx.versions);
    if tx.versions != [] {
      RowsAtMostMax(tx.versions);
    }
    forall m, row | m in migrations && m.version > c && row in tx.ledger
      ensures row.version != m.version && row.id != m.id
    {
      Selects(migrations, c, row);
    }
  }

  lemma FirstTransaction(s: State, migrations: seq<Migration>)
    requires Unledgered(s) && Listed(migrations)
    ensures Commits(s, migrations) && After(s, migrations) == Brought(s, migrations, Current(s))
  {
    var c, tx := Current(s), Opened(s);
    assert tx.ledger + migrations == migrations && tx.ledger + UpTo(migrations, c) == UpTo(migrations, c);
    BackfillListed(tx, migrations, c);
    var backfilled := tx.(ledger := UpTo(migrations, c));
    ReadyAfterBackfill(backfilled, migrations);
    UpgradeListed(backfilled, migrations, c);
    Split(migrations, c);
  }

  /**
   The first call on an empty or older database backfills what was done and runs the rest.
   It completes exactly when the database is not newer than the list.
   */
  lemma FirstCall(s: State, migrations: seq<Migration>)
    requires Unledgered(s) && Listed(migrations) && migrations != []
    ensures Commits(s, migrations) && After(s, migrations) == Brought(s, migrations, Current(s))
    ensures Completes(s, migrations) <==> Current(s) <= migrations[|migrations| - 1].version
    ensures Completes(s, migrations) ==> Recorded(After(s, migrations), migrations)
  {
    FirstTransaction(s, migrations);
    RowsAtMostCurrent(s);
    LatestAfter(Rows(s.versions), migrations, Current(s));
    HoldsAll(migrations);
  }

  lemma ReadyLater(tx: Tx, before: seq<Migration>, migrations: seq<Migration>)
    requires Listed(migrations) && before <= migrations && before != [] && tx.ledger == before
    requires Latest(tx.versions) == before[|before| - 1].version
    ensures Ready(tx, migrations, Latest(tx.versions))
  {
    var c := Latest(tx.versions);
    if tx.versions != [] {
      RowsAtMostMax(tx.versions);
    }
    forall m, row | m in migrations && m.version > c && row in before
      ensures row.version != m.version && row.id != m.id
    {
      var i :| 0 <= i < |before| && before[i] == row;
      assert migrations[i] == row && migrations[|before| - 1] == before[|before| - 1];
    }
  }

  lemma LaterTransaction(s: State, before: seq<Migration>, migrations: seq<Migration>)
    requires Recorded(s, before) && Listed(migrations) && before <= migrations
    ensures Commits(s, migrations) && After(s, migrations) == Brought(s, migrations, Current(s))
    ensures Above(migrations, Current(s)) == migrations[|before|..]
  {
    var tx := Opened(s);
    ReadyLater(tx, before, migrations);
    UpgradeListed(tx, migrations, Current(s));
    assert before[|before| - 1] == migrations[|before| - 1];
    AboveIsSuffix(migrations, |before|);
    assert before + migrations[|before|..] == migrations;
  }

  /** A later call with a list that grew at its end runs and records just the new part. */
  lemma LaterCall(s: State, before: seq<Migration>, migrations: seq<Migration>)
    requires Recorded(s, before) && Listed(migrations) && before <= migrations
    ensures Completes(s, migrations)
    ensures After(s, migrations) == Brought(s, migrations, Current(s))
    ensures Above(migrations, Current(s)) == migrations[|before|..]
    ensures Recorded(After(s, migrations), migrations)
  {
    LaterTransaction(s, before, migrations);
    RowsAtMostCurrent(s);
    LatestAfter(Rows(s.versions), migrations, Current(s));
    LastIsNewest(before, migrations);
    HoldsAll(migrations);
  }

  lemma {:induction false} AboveIsSuffix(migrations: seq<Migration>, n: nat)
    requires Listed(migrations) && 0 < n <= |migrations|
    ensures Above(migrations, migrations[n - 1].version) == migrations[n..]
  {
    ListedTail(migrations);
    if n == 1 {
      if |migrations| > 1 {
        AllAbove(migrations[1..], migrations[0].version);
      }
    } else {
      AboveIsSuffix(migrations[1..], n - 1);
      assert migrations[1..][n - 1..] == migrations[n..];
      assert migrations[1..][n - 2] == migrations[n - 1];
    }
  }

  // ---------- Histories ----------

  function Run(s: State, lists: seq<seq<Migration>>): State {
    if lists == [] then s else After(Run(s, lists[..|lists| - 1]), lists[|lists| - 1])
  }

  /** Every call of the history returns. */
  ghost predicate AllComplete(s: State, lists: seq<seq<Migration>>)
    requires forall i :: 0 <= i < |lists| ==> lists[i] != []
  {
    lists == [] || (AllComplete(s, lists[..|lists| - 1]) && Completes(Run(s, lists[..|lists| - 1]), lists[|lists| - 1]))
  }

  /** Releases only add migrations at the end. */
  ghost predicate Growing(lists: seq<seq<Migration>>) {
    && (forall i :: 0 <= i < |lists| ==> lists[i] != [] && Listed(lists[i]))
    && (forall i, j :: 0 <= i < j < |lists| ==> lists[i] <= lists[j])
  }

  lemma AboveExtends(before: seq<Migration>, migrations: seq<Migration>, c: int)
    requires Listed(migrations) && before != [] && before <= migrations && c <= before[|before| - 1].version
    ensures Above(migrations, c) == Above(before, c) + Above(migrations, before[|before| - 1].version)
  {
    var suffix := migrations[|before|..];
    assert migrations == before + suffix && before[|before| - 1] == migrations[|before| - 1];
    AboveIsSuffix(migrations, |before|);
    AboveOfBoth(before, suffix, c);
    ListedSuffix(before, suffix);
    if suffix != [] {
      assert migrations[|before| - 1].version < migrations[|before|].version;
    }
    AllAbove(suffix, c);
  }

  lemma Compose(s: State, before: seq<Migration>, migrations: seq<Migration>, c: int)
    requires Listed(migrations) && before != [] && before <= migrations && c <= before[|before| - 1].version
    ensures var d := before[|before| - 1].version;
      Brought(Brought(s, before, c), migrations, d) == Brought(s, migrations, c)
  {
    var older, newer := Above(before, c), Above(migrations, before[|before| - 1].version);
    AboveExtends(before, migrations, c);
    VersionsOfBoth(older, newer);
    Regroup(Rows(s.versions), Versions(older), Versions(newer));
    Regroup(s.upgrades, older, newer);
  }

  lemma {:induction false} AboveOfBoth(before: seq<Migration>, after: seq<Migration>, c: int)
    ensures Above(before + after, c) == Above(before, c) + Above(after, c)
  {
    if before == [] {
      assert before + after == after;
    } else {
      AboveOfBoth(before[1..], after, c);
      assert (before + after)[1..] == before[1..] + after;
      Regroup(if before[0].version > c then [before[0]] else [], Above(before[1..], c), Above(after, c));
    }
  }

  lemma {:induction false} VersionsOfBoth(before: seq<Migration>, after: seq<Migration>)
    ensures Versions(before + after) == Versions(before) + Versions(after)
  {
    if before == [] {
      assert before + after == after;
    } else {
      VersionsOfBoth(before[1..], after);
      TailOfBoth(before, after);
      Regroup([before[0].version], Versions(before[1..]), Versions(after));
    }
  }

  /**
   Over a whole history of releases, from an empty or pre-ledger database at version `c`: every
   call completes, the ledger ends equal to the newest list, and the upgrades run are those of
   the list above `c`, each once and in order.
   */
  lemma {:induction false} HistoryRunsEachUpgradeOnce(s: State, lists: seq<seq<Migration>>)
    requires Unledgered(s) && Growing(lists) && lists != []
    requires Current(s) <= lists[0][|lists[0]| - 1].version
    ensures var newest := lists[|lists| - 1];
      && AllComplete(s, lists)
      && Run(s, lists) == Brought(s, newest, Current(s))
      && Recorded(Run(s, lists), newest)
  {
    var front, newest := lists[..|lists| - 1], lists[|lists| - 1];
    if front == [] {
      FirstCall(s, newest);
      assert Run(s, front) == s;
    } else {
      GrowingFront(lists);
      HistoryRunsEachUpgradeOnce(s, front);
      HistoryStep(s, Run(s, front), front[|front| - 1], newest);
    }
  }

  lemma GrowingFront(lists: seq<seq<Migration>>)
    requires Growing(lists) && |lists| > 1
    ensures var front, newest := lists[..|lists| - 1], lists[|lists| - 1];
      && Growing(front) && front[0] == lists[0]
      && front[|front| - 1] != [] && front[|front| - 1] <= newest && Listed(newest)
      && lists[0][|lists[0]| - 1].version <= front[|front| - 1][|front[|front| - 1]| - 1].version
  {
    var before := lists[|lists| - 2];
    assert |lists| > 2 ==> lists[0] <= before;
    LastIsNewest(lists[0], before);
  }

  lemma HistoryStep(s: State, middle: State, before: seq<Migration>, newest: seq<Migration>)
    requires Recorded(middle, before) && middle == Brought(s, before, Current(s))
    requires Listed(newest) && before <= newest && Current(s) <= before[|before| - 1].version
    ensures Completes(middle, newest) && Recorded(After(middle, newest), newest)
    ensures After(middle, newest) == Brought(s, newest, Current(s))
  {
    LaterCall(middle, before, newest);
    Compose(s, before, newest, Current(s));
  }

  lemma LastIsNewest(first: seq<Migration>, later: seq<Migration>)
    requires Listed(later) && first != [] && first <= later
    ensures first[|first| - 1].version <= later[|later| - 1].version
  {
    assert first[|first| - 1] == later[|first| - 1];
  }

  /** The versions above `c`: each once, in increasing order, and no other. */
  lemma {:induction false} AboveIncreases(migrations: seq<Migration>, c: int)
    requires Listed(migrations)
    ensures Listed(Above(migrations, c))
    ensures forall m :: m in Above(migrations, c) <==> m in migrations && m.version > c
  {
    Split(migrations, c);
    ListedSuffix(UpTo(migrations, c), Above(migrations, c));
    forall m {
      Selects(migrations, c, m);
    }
  }

  // ---------- Repeating and previewing ----------

  lemma {:induction false} UpgradeCatchesUp(tx: Tx, migrations: seq<Migration>, current: int)
    requires current == Latest(tx.versions) && Upgrade(tx, migrations, current).Some?
    ensures var done := Upgrade(tx, migrations, current).value;
      Latest(done.versions) >= current && forall m :: m in migrations ==> m.version <= Latest(done.versions)
    decreases |migrations|
  {
    if migrations != [] {
      var m, rest := migrations[0], migrations[1..];
      assert migrations == [m] + rest;
      if m.version <= current {
        UpgradeCatchesUp(tx, rest, current);
      } else {
        LatestOfNewer(tx.versions, m.version);
        UpgradeCatchesUp(Tx(tx.versions + [m.version], tx.ledger + [m], tx.upgrades + [m]), rest, m.version);
      }
    }
  }

  lemma LatestOfNewer(rows: seq<int>, version: int)
    requires version > Latest(rows)
    ensures Latest(rows + [version]) == version
  {
    if rows != [] {
      RowsAtMostMax(rows);
    }
    LatestIs(rows + [version], version);
  }

  lemma {:induction false} NothingToUpgrade(tx: Tx, migrations: seq<Migration>, current: int)
    requires forall m :: m in migrations ==> m.version <= current
    ensures Upgrade(tx, migrations, current) == Some(tx)
    decreases |migrations|
  {
    if migrations != [] {
      NothingToUpgrade(tx, migrations[1..], current);
    }
  }

  lemma {:induction false} BackfillKeepsVersions(tx: Tx, migrations: seq<Migration>, current: int)
    requires Backfill(tx, migrations, current).Some?
    ensures var done := Backfill(tx, migrations, current).value;
      done.versions == tx.versions && done.upgrades == tx.upgrades
    decreases |migrations|
  {
    if migrations != [] && migrations[0].version <= current {
      BackfillKeepsVersions(tx.(ledger := tx.ledger + [migrations[0]]), migrations[1..], current);
    }
  }

  /** From any state, for any list: repeating a committed call changes nothing. */
  lemma RepeatChangesNothing(s: State, migrations: seq<Migration>)
    requires migrations != [] && Commits(s, migrations)
    ensures var once := After(s, migrations);
      && After(once, migrations) == once && Commits(once, migrations)
      && (Completes(once, migrations) <==> Completes(s, migrations))
  {
    var tx, current := Opened(s), Current(s);
    var start := if s.ledger.Some? then tx else Backfill(tx, migrations, current).value;
    if s.ledger.None? {
      BackfillKeepsVersions(tx, migrations, current);
    }
    UpgradeCatchesUp(start, migrations, current);
    var once := After(s, migrations);
    NothingToUpgrade(Opened(once), migrations, Current(once));
  }

  lemma {:induction false} UpgradesAreAbove(tx: Tx, migrations: seq<Migration>, current: int)
    requires Listed(migrations) && Upgrade(tx, migrations, current).Some?
    ensures Upgrade(tx, migrations, current).value.upgrades == tx.upgrades + Above(migrations, current)
    decreases |migrations|
  {
    if migrations == [] {
      assert tx.upgrades + [] == tx.upgrades;
    } else {
      var m, rest := migrations[0], migrations[1..];
      ListedTail(migrations);
      if m.version <= current {
        UpgradesAreAbove(tx, rest, current);
        assert Above(migrations, current) == Above(rest, current);
      } else {
        UpgradesAreAbove(Tx(tx.versions + [m.version], tx.ledger + [m], tx.upgrades + [m]), rest, m.version);
        AllAbove(rest, current);
        AllAbove(rest, m.version);
        Regroup(tx.upgrades, [m], rest);
      }
    }
  }

  /** The preview lists exactly the upgrades a committed call then runs, in any state. */
  lemma PreviewIsWhatRuns(s: State, migrations: seq<Migration>)
    requires Listed(migrations) && Commits(s, migrations)
    ensures After(s, migrations).upgrades == s.upgrades + Preview(s, migrations)
  {
    var tx, current := Opened(s), Current(s);
    var start := if s.ledger.Some? then tx else Backfill(tx, migrations, current).value;
    if s.ledger.None? {
      BackfillKeepsVersions(tx, migrations, current);
    }
    UpgradesAreAbove(start, migrations, current);
    if s.versions.None? {
      AllAbove(migrations, 0);
    }
  }

  // ---------- When a call on a ledgered database completes ----------

  lemma {:induction false} UpgradeNeedsRoom(tx: Tx, migrations: seq<Migration>, current: int)
    requires Listed(migrations) && Upgrade(tx, migrations, current).Some?
    ensures forall m :: m in migrations && m.version > current ==> CanRecord(tx.ledger, m)
    decreases |migrations|
  {
    if migrations != [] {
      var m, rest := migrations[0], migrations[1..];
      ListedTail(migrations);
      assert migrations == [m] + rest;
      if m.version <= current {
        UpgradeNeedsRoom(tx, rest, current);
      } else {
        var next := Tx(tx.versions + [m.version], tx.ledger + [m], tx.upgrades + [m]);
        UpgradeNeedsRoom(next, rest, m.version);
        assert forall row :: row in tx.ledger ==> row in next.ledger;
      }
    }
  }

  /** The transaction goes through exactly when the ledger has room for every newer migration. */
  lemma CommitsWithRoom(s: State, migrations: seq<Migration>)
    requires s.ledger.Some? && Listed(migrations)
    ensures Commits(s, migrations) <==> forall m :: m in migrations && m.version > Current(s) ==> CanRecord(s.ledger.value, m)
    ensures Commits(s, migrations) ==> After(s, migrations) == Committed(Upgraded(Opened(s), Above(migrations, Current(s))))
  {
    RowsAtMostCurrent(s);
    if Commits(s, migrations) {
      UpgradeNeedsRoom(Opened(s), migrations, Current(s));
    }
    if Ready(Opened(s), migrations, Current(s)) {
      UpgradeListed(Opened(s), migrations, Current(s));
    }
  }

  /** Some row records the version under the id. */
  ghost predicate RecordedAs(ledger: seq<Migration>, version: int, id: string) {
    exists i :: 0 <= i < |ledger| && ledger[i].version == version && ledger[i].id == id
  }

  /** Every listed migration that counts as done is in the ledger under its own id. */
  ghost predicate DoneAreRecorded(ledger: seq<Migration>, migrations: seq<Migration>, current: int) {
    forall m :: m in migrations && m.version <= current ==> RecordedAs(ledger, m.version, m.id)
  }

  /** No row has the version or the id of a migration still to be run. */
  ghost predicate NewAreFree(ledger: seq<Migration>, migrations: seq<Migration>, current: int) {
    forall m, row :: m in migrations && m.version > current && row in ledger ==>
      row.version != m.version && row.id != m.id
  }

  lemma AfterRecordsIds(ledger: seq<Migration>, migrations: seq<Migration>, current: int)
    ensures (forall m :: m in migrations ==> Holds(ledger + Above(migrations, current), m))
       <==> DoneAreRecorded(ledger, migrations, current)
  {
    var newer := Above(migrations, current);
    forall m | m in migrations
      ensures Holds(ledger + newer, m) <==> m.version > current || RecordedAs(ledger, m.version, m.id)
    {
      Selects(migrations, current, m);
      if RecordedAs(ledger, m.version, m.id) {
        var i :| 0 <= i < |ledger| && ledger[i].version == m.version && ledger[i].id == m.id;
        assert ledger[i] in ledger + newer;
      }
      if m.version <= current && Holds(ledger + newer, m) {
        var row :| row in ledger + newer && row.version == m.version && row.id == m.id;
        Selects(migrations, current, row);
        var i :| 0 <= i < |ledger| && ledger[i] == row;
      }
    }
  }

  /**
   On a database with a ledger a call completes exactly when the database is not newer than the
   list, every migration that counts as done is recorded under its own id, and no row has the
   version or the id of one still to be run.
   */
  lemma CompletesExactly(s: State, migrations: seq<Migration>)
    requires s.ledger.Some? && Listed(migrations) && migrations != []
    ensures Completes(s, migrations)
       <==> && Current(s) <= migrations[|migrations| - 1].version
            && DoneAreRecorded(s.ledger.value, migrations, Current(s))
            && NewAreFree(s.ledger.value, migrations, Current(s))
  {
    CommitsWithRoom(s, migrations);
    RowsAtMostCurrent(s);
    LatestAfter(Rows(s.versions), migrations, Current(s));
    AfterRecordsIds(s.ledger.value, migrations, Current(s));
  }

  /** No two rows share a version or an id. */
  ghost predicate KeysUnique(ledger: seq<Migration>) {
    forall i, j :: 0 <= i < j < |ledger| ==> ledger[i].version != ledger[j].version && ledger[i].id != ledger[j].id
  }

  lemma RecordKeepsUnique(ledger: seq<Migration>, m: Migration)
    requires KeysUnique(ledger) && CanRecord(ledger, m)
    ensures KeysUnique(ledger + [m])
  {
  }

  lemma {:induction false} BackfillKeepsUnique(tx: Tx, migrations: seq<Migration>, current: int)
    requires KeysUnique(tx.ledger) && Backfill(tx, migrations, current).Some?
    ensures KeysUnique(Backfill(tx, migrations, current).value.ledger)
    decreases |migrations|
  {
    if migrations != [] && migrations[0].version <= current {
      RecordKeepsUnique(tx.ledger, migrations[0]);
      BackfillKeepsUnique(tx.(ledger := tx.ledger + [migrations[0]]), migrations[1..], current);
    }
  }

  lemma {:induction false} UpgradeKeepsUnique(tx: Tx, migrations: seq<Migration>, current: int)
    requires KeysUnique(tx.ledger) && Upgrade(tx, migrations, current).Some?
    ensures KeysUnique(Upgrade(tx, migrations, current).value.ledger)
    decreases |migrations|
  {
    if migrations != [] {
      var m, rest := migrations[0], migrations[1..];
      if m.version <= current {
        UpgradeKeepsUnique(tx, rest, current);
      } else {
        RecordKeepsUnique(tx.ledger, m);
        UpgradeKeepsUnique(Tx(tx.versions + [m.version], tx.ledger + [m], tx.upgrades + [m]), rest, m.version);
      }
    }
  }

  /** Versions and ids stay unique in the ledger through every call, whatever the list. */
  lemma LedgerStaysUnique(s: State, migrations: seq<Migration>)
    requires KeysUnique(Rows(s.ledger))
    ensures KeysUnique(Rows(After(s, migrations).ledger))
  {
    if Commits(s, migrations) {
      var tx, current := Opened(s), Current(s);
      var start := if s.ledger.Some? then tx else Backfill(tx, migrations, current).value;
      if s.ledger.None? {
        BackfillKeepsUnique(tx, migrations, current);
      }
      UpgradeKeepsUnique(start, migrations, current);
    }
  }

  /** The ledger has the migration's version, but only under other ids. */
  ghost predicate ForeignRow(ledger: seq<Migration>, m: Migration) {
    && (exists row :: row in ledger && row.version == m.version)
    && (forall row :: row in ledger && row.version == m.version ==> row.id != m.id)
  }

  lemma {:induction false} UpgradeKeepsForeign(tx: Tx, migrations: seq<Migration>, current: int, m: Migration)
    requires ForeignRow(tx.ledger, m) && Upgrade(tx, migrations, current).Some?
    ensures ForeignRow(Upgrade(tx, migrations, current).value.ledger, m)
    decreases |migrations|
  {
    if migrations != [] {
      var next, rest := migrations[0], migrations[1..];
      if next.version <= current {
        UpgradeKeepsForeign(tx, rest, current, m);
      } else {
        UpgradeKeepsForeign(Tx(tx.versions + [next.version], tx.ledger + [next], tx.upgrades + [next]), rest, next.version, m);
      }
    }
  }

  /**
   A version recorded by another branch is never accepted: no call whose list has the migration
   completes, and what the call leaves has the foreign row still, so no later one does.
   */
  lemma ForeignRowForever(s: State, migrations: seq<Migration>, m: Migration)
    requires s.ledger.Some? && ForeignRow(s.ledger.value, m) && migrations != []
    ensures After(s, migrations).ledger.Some? && ForeignRow(After(s, migrations).ledger.value, m)
    ensures m in migrations ==> !Completes(s, migrations)
  {
    if Commits(s, migrations) {
      UpgradeKeepsForeign(Opened(s), migrations, Current(s), m);
    }
  }

  // ---------- The crash between `create_all` and the transaction ----------

  /** A version counts as done but its ledger row is missing, and the ledger exists. */
  ghost predicate Lost(s: State, m: Migration) {
    && s.ledger.Some? && m.version <= Current(s)
    && (forall row :: row in s.ledger.value ==> row.version != m.version)
  }

  lemma {:induction false} UpgradeSkips(tx: Tx, migrations: seq<Migration>, current: int, m: Migration)
    requires m.version <= current && Upgrade(tx, migrations, current).Some?
    requires forall row :: row in tx.ledger ==> row.version != m.version
    ensures forall row :: row in Upgrade(tx, migrations, current).value.ledger ==> row.version != m.version
    decreases |migrations|
  {
    if migrations != [] {
      var next, rest := migrations[0], migrations[1..];
      if next.version <= current {
        UpgradeSkips(tx, rest, current, m);
      } else {
        UpgradeSkips(Tx(tx.versions + [next.version], tx.ledger + [next], tx.upgrades + [next]), rest, next.version, m);
      }
    }
  }

  /** A lost row stays lost: no call whose list has it completes any more. */
  lemma LostForever(s: State, migrations: seq<Migration>, m: Migration)
    requires Lost(s, m) && migrations != []
    ensures Lost(After(s, migrations), m)
    ensures m in migrations ==> !Completes(s, migrations)
  {
    var tx, current := Opened(s), Current(s);
    if Commits(s, migrations) {
      UpgradeSkips(tx, migrations, current, m);
      UpgradeCatchesUp(tx, migrations, current);
    }
  }

  /**
   A crash or rollback after `create_all` leaves an empty ledger.  The next call completes
   exactly when there was nothing to backfill.
   */
  lemma CrashLosesBackfill(s: State, migrations: seq<Migration>)
    requires Unledgered(s) && Listed(migrations) && migrations != []
    ensures Completes(Created(s), migrations) <==> Current(s) < migrations[0].version
    ensures Current(s) >= migrations[0].version ==> Lost(Created(s), migrations[0])
    ensures Current(s) < migrations[0].version ==> After(Created(s), migrations) == After(s, migrations)
  {
    var crashed := Created(s);
    if Current(s) >= migrations[0].version {
      assert migrations[0] in migrations;
      LostForever(crashed, migrations, migrations[0]);
    } else {
      assert Backfill(Opened(s), migrations, Current(s)) == Some(Opened(s));
      assert Transaction(Opened(s), false, migrations) == Transaction(Opened(crashed), true, migrations);
      FirstCall(s, migrations);
    }
  }
}
