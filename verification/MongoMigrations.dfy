/**
 The second ledger implementation, `initialize` of backend/app/db/mongo.py: the same two loops
 without a transaction, so every inserted document is durable at once.
 */
module MongoMigrations {
  import opened Options
  import opened Migrations
  import opened Sequences

  /** A missing `schema_versions` collection reads as an empty one. */
  datatype Store = Store(versions: seq<int>, ledger: Option<seq<Migration>>)

  /** An inserted document. */
  datatype Write = VersionRow(version: int) | LedgerRow(row: Migration)

  /** `_id` is the version in both collections. */
  predicate Accepts(store: Store, write: Write) {
    match write
    case VersionRow(version) => version !in store.versions
    case LedgerRow(row) => forall other :: other in Rows(store.ledger) ==> other.version != row.version
  }

  function Apply(store: Store, write: Write): Store {
    match write
    case VersionRow(version) => store.(versions := store.versions + [version])
    case LedgerRow(row) => store.(ledger := Some(Rows(store.ledger) + [row]))
  }

  /** Inserts until one is refused. */
  function ApplyAll(store: Store, writes: seq<Write>): Store
    decreases |writes|
  {
    if writes == [] || !Accepts(store, writes[0]) then store else ApplyAll(Apply(store, writes[0]), writes[1..])
  }

  predicate AllAccepted(store: Store, writes: seq<Write>)
    decreases |writes|
  {
    writes == [] || (Accepts(store, writes[0]) && AllAccepted(Apply(store, writes[0]), writes[1..]))
  }

  function BackfillWrites(migrations: seq<Migration>, current: int): seq<Write> {
    if migrations == [] || migrations[0].version > current then []
    else [LedgerRow(migrations[0])] + BackfillWrites(migrations[1..], current)
  }

  function UpgradeWrites(migrations: seq<Migration>, current: int): seq<Write>
    decreases |migrations|
  {
    if migrations == [] then []
    else
      var m := migrations[0];
      if m.version <= current then UpgradeWrites(migrations[1..], current)
      else [VersionRow(m.version), LedgerRow(m)] + UpgradeWrites(migrations[1..], m.version)
  }

  /** The documents one call inserts, in order. */
  function Writes(store: Store, migrations: seq<Migration>): seq<Write> {
    var current := Latest(store.versions);
    (if store.ledger.None? then BackfillWrites(migrations, current) else []) + UpgradeWrites(migrations, current)
  }

  function WithLedger(store: Store): Store {
    store.(ledger := Some(Rows(store.ledger)))
  }

  function Called(store: Store, migrations: seq<Migration>): Store {
    ApplyAll(WithLedger(store), Writes(store, migrations))
  }

  /** The store as the relational model sees it. */
  function AsState(store: Store): State {
    State(Some(store.versions), store.ledger, [])
  }

  predicate Returns(store: Store, migrations: seq<Migration>)
    requires migrations != []
  {
    && AllAccepted(WithLedger(store), Writes(store, migrations))
    && LedgerValid(AsState(Called(store, migrations)), migrations)
  }

  class DocumentStore {
    var versions: seq<int>
    var ledger: Option<seq<Migration>>

    function Value(): Store
      reads this
    {
      Store(versions, ledger)
    }

    method Insert(write: Write) returns (accepted: bool)
      modifies this
      ensures accepted == Accepts(old(Value()), write)
      ensures Value() == if accepted then Apply(old(Value()), write) else old(Value())
    {
      match write
      case VersionRow(version) =>
        accepted := version !in versions;
        if accepted {
          versions := versions + [version];
        }
      case LedgerRow(row) =>
        accepted := forall other :: other in Rows(ledger) ==> other.version != row.version;
        if accepted {
          ledger := Some(Rows(ledger) + [row]);
        }
    }

    method BackfillLedger(migrations: seq<Migration>, current: int) returns (accepted: bool)
      modifies this
      ensures Value() == ApplyAll(old(Value()), BackfillWrites(migrations, current))
      ensures accepted == AllAccepted(old(Value()), BackfillWrites(migrations, current))
    {
      ghost var start := Value();
      var i := 0;
      while i < |migrations| && migrations[i].version <= current
        invariant 0 <= i <= |migrations|
        invariant ApplyAll(start, BackfillWrites(migrations, current))
               == ApplyAll(Value(), BackfillWrites(migrations[i..], current))
        invariant AllAccepted(start, BackfillWrites(migrations, current))
               == AllAccepted(Value(), BackfillWrites(migrations[i..], current))
      {
        assert BackfillWrites(migrations[i..], current)[1..] == BackfillWrites(migrations[i..][1..], current);
        accepted := Insert(LedgerRow(migrations[i]));
        if !accepted {
          return;
        }
        i := i + 1;
      }
      accepted := true;
    }

    method RecordUpgrades(migrations: seq<Migration>, start: int) returns (accepted: bool)
      modifies this
      ensures Value() == ApplyAll(old(Value()), UpgradeWrites(migrations, start))
      ensures accepted == AllAccepted(old(Value()), UpgradeWrites(migrations, start))
    {
      ghost var before := Value();
      var current := start;
      for i := 0 to |migrations|
        invariant ApplyAll(before, UpgradeWrites(migrations, start))
               == ApplyAll(Value(), UpgradeWrites(migrations[i..], current))
        invariant AllAccepted(before, UpgradeWrites(migrations, start))
               == AllAccepted(Value(), UpgradeWrites(migrations[i..], current))
      {
        var m := migrations[i];
        if m.version <= current {
          continue;
        }
        TwoWrites(Value(), VersionRow(m.version), LedgerRow(m), UpgradeWrites(migrations[i + 1..], m.version));
        assert migrations[i..][1..] == migrations[i + 1..];
        accepted := Insert(VersionRow(m.version));
        if !accepted {
          return;
        }
        accepted := Insert(LedgerRow(m));
        if !accepted {
          return;
        }
        current := m.version;
      }
      accepted := true;
    }

    /** `initialize` in the mode `auto_migrate`. */
    method Initialize(migrations: seq<Migration>, schemaMatches: bool) returns (result: Result<int, Error>)
      requires migrations != []
      modifies this
      ensures Value() == Called(old(Value()), migrations)
      ensures result.Ok? <==> Returns(old(Value()), migrations) && schemaMatches
      ensures result == Err(Conflict) <==> !AllAccepted(WithLedger(old(Value())), Writes(old(Value()), migrations))
      ensures result.Ok? ==> result.value == migrations[|migrations| - 1].version
    {
      ghost var start := Value();
      var existed := ledger.Some?;
      ledger := Some(Rows(ledger));
      var current := Latest(versions);
      var accepted := true;
      if !existed {
        accepted := BackfillLedger(migrations, current);
      }
      ghost var first := if existed then [] else BackfillWrites(migrations, current);
      ApplyBoth(WithLedger(start), first, UpgradeWrites(migrations, current));
      if !accepted {
        return Err(Conflict);
      }
      accepted := RecordUpgrades(migrations, current);
      if !accepted {
        return Err(Conflict);
      }
      var valid := LedgerValid(State(Some(versions), ledger, []), migrations);
      result := if valid && schemaMatches then Ok(migrations[|migrations| - 1].version) else Err(Invalid);
    }
  }

  lemma TwoWrites(store: Store, first: Write, second: Write, rest: seq<Write>)
    ensures ApplyAll(store, [first, second] + rest)
         == if !Accepts(store, first) then store
            else if !Accepts(Apply(store, first), second) then Apply(store, first)
            else ApplyAll(Apply(Apply(store, first), second), rest)
    ensures AllAccepted(store, [first, second] + rest)
       <==> Accepts(store, first) && Accepts(Apply(store, first), second)
            && AllAccepted(Apply(Apply(store, first), second), rest)
  {
    assert ([first, second] + rest)[1..] == [second] + rest;
    assert ([second] + rest)[1..] == rest;
  }

  lemma {:induction false} ApplyBoth(store: Store, first: seq<Write>, second: seq<Write>)
    ensures AllAccepted(store, first) ==> ApplyAll(store, first + second) == ApplyAll(ApplyAll(store, first), second)
    ensures !AllAccepted(store, first) ==> ApplyAll(store, first + second) == ApplyAll(store, first)
    ensures AllAccepted(store, first + second) <==> AllAccepted(store, first) && AllAccepted(ApplyAll(store, first), second)
    decreases |first|
  {
    if first == [] {
      assert first + second == second;
    } else if Accepts(store, first[0]) {
      ApplyBoth(Apply(store, first[0]), first[1..], second);
      assert (first + second)[1..] == first[1..] + second;
    }
  }

  // ---------- The writes of a list ----------

  function LedgerRows(migrations: seq<Migration>): seq<Write> {
    if migrations == [] then [] else [LedgerRow(migrations[0])] + LedgerRows(migrations[1..])
  }

  function Pairs(migrations: seq<Migration>): (writes: seq<Write>)
    ensures |writes| == 2 * |migrations|
  {
    if migrations == [] then []
    else [VersionRow(migrations[0].version), LedgerRow(migrations[0])] + Pairs(migrations[1..])
  }

  lemma {:induction false} UpgradeWritesArePairs(migrations: seq<Migration>, current: int)
    requires Listed(migrations)
    ensures UpgradeWrites(migrations, current) == Pairs(Above(migrations, current))
    decreases |migrations|
  {
    if migrations != [] {
      ListedTail(migrations);
      if migrations[0].version <= current {
        UpgradeWritesArePairs(migrations[1..], current);
        assert Above(migrations, current) == Above(migrations[1..], current);
      } else {
        UpgradeWritesArePairs(migrations[1..], migrations[0].version);
        AllAbove(migrations, current);
        AllAbove(migrations[1..], migrations[0].version);
      }
    }
  }

  lemma {:induction false} BackfillWritesAreRows(migrations: seq<Migration>, current: int)
    requires Listed(migrations)
    ensures BackfillWrites(migrations, current) == LedgerRows(UpTo(migrations, current))
  {
    if migrations != [] {
      ListedTail(migrations);
      if migrations[0].version > current {
        AllAbove(migrations, current);
      } else {
        BackfillWritesAreRows(migrations[1..], current);
        assert UpTo(migrations, current)[1..] == UpTo(migrations[1..], current);
      }
    }
  }

  /** Nothing of the list is stored yet. */
  ghost predicate Fresh(store: Store, migrations: seq<Migration>) {
    && store.ledger.Some? && Listed(migrations)
    && (forall v, m :: v in store.versions && m in migrations ==> v < m.version)
    && (forall row, m :: row in store.ledger.value && m in migrations ==> row.version < m.version)
  }

  /** With `i` version rows and `j` ledger rows of the list written. */
  function Reached(store: Store, migrations: seq<Migration>, i: nat, j: nat): Store
    requires i <= |migrations| && j <= |migrations|
  {
    Store(store.versions + Versions(migrations[..i]), Some(Rows(store.ledger) + migrations[..j]))
  }

  lemma FreshNext(store: Store, migrations: seq<Migration>)
    requires Fresh(store, migrations) && migrations != []
    ensures var m := migrations[0];
      && Accepts(store, VersionRow(m.version)) && Accepts(Apply(store, VersionRow(m.version)), LedgerRow(m))
      && Fresh(Apply(Apply(store, VersionRow(m.version)), LedgerRow(m)), migrations[1..])
  {
    ListedTail(migrations);
    assert forall m :: m in migrations[1..] ==> m in migrations;
  }

  lemma ReachedNext(store: Store, migrations: seq<Migration>, i: nat, j: nat)
    requires 0 < i <= |migrations| && 0 < j <= |migrations|
    ensures var m := migrations[0];
      Reached(Apply(Apply(store, VersionRow(m.version)), LedgerRow(m)), migrations[1..], i - 1, j - 1)
        == Reached(store, migrations, i, j)
  {
    var m, rest := migrations[0], migrations[1..];
    assert migrations[..i] == [m] + rest[..i - 1];
    assert migrations[..j] == [m] + rest[..j - 1];
    Regroup(store.versions, [m.version], Versions(rest[..i - 1]));
    Regroup(Rows(store.ledger), [m], rest[..j - 1]);
  }

  lemma FirstWrite(store: Store, migrations: seq<Migration>)
    requires Fresh(store, migrations) && migrations != []
    ensures AllAccepted(store, Pairs(migrations)[..1])
    ensures ApplyAll(store, Pairs(migrations)[..1]) == Reached(store, migrations, 1, 0)
  {
    var m := migrations[0];
    FreshNext(store, migrations);
    assert Pairs(migrations)[..1] == [VersionRow(m.version)] && [VersionRow(m.version)][1..] == [];
    assert migrations[..1] == [m] && Versions([m]) == [m.version];
    assert store.ledger.value + [] == store.ledger.value;
  }

  /** The store after `2 * j` writes, or `2 * j + 1`. */
  lemma {:induction false} ApplyPairs(store: Store, migrations: seq<Migration>, j: nat, odd: bool)
    requires Fresh(store, migrations) && if odd then j < |migrations| else j <= |migrations|
    ensures var k := 2 * j + if odd then 1 else 0;
      && AllAccepted(store, Pairs(migrations)[..k])
      && ApplyAll(store, Pairs(migrations)[..k]) == Reached(store, migrations, if odd then j + 1 else j, j)
    decreases |migrations|
  {
    if j == 0 {
      if odd {
        FirstWrite(store, migrations);
      } else {
        assert store.versions + Versions(migrations[..0]) == store.versions;
        assert store.ledger.value + [] == store.ledger.value;
      }
    } else {
      var first, second, rest := VersionRow(migrations[0].version), LedgerRow(migrations[0]), migrations[1..];
      var k := 2 * j + if odd then 1 else 0;
      FreshNext(store, migrations);
      ApplyPairs(Apply(Apply(store, first), second), rest, j - 1, odd);
      assert Pairs(migrations)[..k] == [first, second] + Pairs(rest)[..k - 2];
      TwoWrites(store, first, second, Pairs(rest)[..k - 2]);
      ReachedNext(store, migrations, if odd then j + 1 else j, j);
    }
  }

  // ---------- Consistent stores ----------

  /** The first `n` of the list are done and recorded, the rest is not begun. */
  ghost predicate Consistent(store: Store, migrations: seq<Migration>, n: nat) {
    && Listed(migrations) && n <= |migrations| && migrations != []
    && store.ledger == Some(migrations[..n])
    && Divides(Latest(store.versions), migrations, n)
    && Latest(store.versions) <= migrations[|migrations| - 1].version
  }

  /** `version` is at or above the first `n` and below the rest. */
  ghost predicate Divides(version: int, migrations: seq<Migration>, n: nat) {
    && 0 <= version
    && (forall i :: 0 <= i < n && i < |migrations| ==> migrations[i].version <= version)
    && (forall i :: n <= i < |migrations| ==> migrations[i].version > version)
  }

  lemma {:induction false} NoneAbove(migrations: seq<Migration>, version: int)
    requires forall m :: m in migrations ==> m.version <= version
    ensures Above(migrations, version) == []
  {
    if migrations != [] {
      NoneAbove(migrations[1..], version);
      assert migrations[0] in migrations;
    }
  }

  lemma DividedList(migrations: seq<Migration>, version: int, n: nat)
    requires Listed(migrations) && n <= |migrations| && Divides(version, migrations, n)
    ensures UpTo(migrations, version) == migrations[..n] && Above(migrations, version) == migrations[n..]
  {
    RestIsNewer(migrations, version, n);
    assert migrations[..n] + migrations[n..] == migrations;
    NoneAbove(migrations[..n], version);
    assert migrations[n..] != [] ==> migrations[n..][0] in migrations[n..];
    AllAbove(migrations[n..], version);
    AboveOfBoth(migrations[..n], migrations[n..], version);
    assert [] + migrations[n..] == migrations[n..];
    Split(migrations[..n] + migrations[n..], version);
    SameEnd(UpTo(migrations[..n] + migrations[n..], version), migrations[..n], migrations[n..]);
  }

  lemma RestIsNewer(migrations: seq<Migration>, version: int, n: nat)
    requires Listed(migrations) && n <= |migrations| && Divides(version, migrations, n)
    ensures Listed(migrations[n..])
    ensures forall m :: m in migrations[n..] ==> m.version > version
    ensures forall row :: row in migrations[..n] ==> row.version <= version
  {
    assert migrations == migrations[..n] + migrations[n..];
    ListedSuffix(migrations[..n], migrations[n..]);
  }

  lemma ConsistentIsFresh(store: Store, migrations: seq<Migration>, n: nat)
    requires Consistent(store, migrations, n)
    ensures Fresh(store, migrations[n..])
  {
    if store.versions != [] {
      RowsAtMostMax(store.versions);
    }
    RestIsNewer(migrations, Latest(store.versions), n);
  }

  lemma ConsistentWrites(store: Store, migrations: seq<Migration>, n: nat)
    requires Consistent(store, migrations, n)
    ensures Writes(store, migrations) == Pairs(migrations[n..])
  {
    DividedList(migrations, Latest(store.versions), n);
    UpgradeWritesArePairs(migrations, Latest(store.versions));
  }

  lemma LatestReached(rows: seq<int>, migrations: seq<Migration>, j: nat)
    requires Listed(migrations) && 0 < j <= |migrations|
    requires forall v :: v in rows ==> v < migrations[0].version
    ensures Latest(rows + Versions(migrations[..j])) == migrations[j - 1].version
  {
    var done := migrations[..j];
    VersionsOf(done);
    assert Versions(done)[j - 1] == done[j - 1].version;
    forall v | v in rows + Versions(done)
      ensures v <= migrations[j - 1].version
    {
      if v in Versions(done) {
        var i :| 0 <= i < j && Versions(done)[i] == v;
        assert done[i] == migrations[i];
      } else {
        assert v < migrations[0].version;
      }
    }
    LatestIs(rows + Versions(done), migrations[j - 1].version);
  }

  /** The newest version once `j` more versions are written. */
  lemma ReachedDivides(store: Store, migrations: seq<Migration>, n: nat, j: nat)
    requires Consistent(store, migrations, n) && j <= |migrations| - n
    ensures var latest := Latest(store.versions + Versions(migrations[n..][..j]));
      Divides(latest, migrations, n + j) && latest <= migrations[|migrations| - 1].version
    ensures j > 0 ==> Latest(store.versions + Versions(migrations[n..][..j])) == migrations[n + j - 1].version
  {
    var rest := migrations[n..];
    ConsistentIsFresh(store, migrations, n);
    if j == 0 {
      assert store.versions + Versions(rest[..0]) == store.versions;
    } else {
      assert rest[0] in rest;
      LatestReached(store.versions, rest, j);
      assert rest[j - 1] == migrations[n + j - 1];
    }
  }

  lemma ConsistentCall(store: Store, migrations: seq<Migration>, n: nat)
    requires Consistent(store, migrations, n)
    ensures AllAccepted(store, Writes(store, migrations))
    ensures Called(store, migrations) == Store(store.versions + Versions(migrations[n..]), Some(migrations))
  {
    var rest := migrations[n..];
    ConsistentIsFresh(store, migrations, n);
    ConsistentWrites(store, migrations, n);
    ApplyPairs(store, rest, |rest|, false);
    assert Pairs(rest)[..2 * |rest|] == Pairs(rest) && rest[..|rest|] == rest;
    assert migrations[..n] + rest == migrations;
  }

  /** From a consistent store a call returns, and leaves the whole list recorded. */
  lemma ConsistentReturns(store: Store, migrations: seq<Migration>, n: nat)
    requires Consistent(store, migrations, n)
    ensures Returns(store, migrations)
    ensures Called(store, migrations) == Store(store.versions + Versions(migrations[n..]), Some(migrations))
    ensures Consistent(Called(store, migrations), migrations, |migrations|)
  {
    ConsistentCall(store, migrations, n);
    ReachedDivides(store, migrations, n, |migrations| - n);
    assert migrations[n..][..|migrations| - n] == migrations[n..] && migrations[..|migrations|] == migrations;
    HoldsAll(migrations);
  }

  // ---------- When a call on a ledgered store returns ----------

  /** No ledger row has the version of any of these; ids are not compared. */
  ghost predicate VersionsFree(ledger: seq<Migration>, migrations: seq<Migration>) {
    forall m, row :: m in migrations && row in ledger ==> row.version != m.version
  }

  lemma FirstIsFree(ledger: seq<Migration>, migrations: seq<Migration>)
    requires Listed(migrations) && migrations != []
    ensures VersionsFree(ledger, migrations)
       <==> && (forall row :: row in ledger ==> row.version != migrations[0].version)
            && VersionsFree(ledger + [migrations[0]], migrations[1..])
  {
    ListedTail(migrations);
    assert migrations == [migrations[0]] + migrations[1..];
  }

  function Extended(store: Store, migrations: seq<Migration>): Store {
    Store(store.versions + Versions(migrations), Some(Rows(store.ledger) + migrations))
  }

  /** The writes of the first of the list, then those of the rest. */
  lemma {:induction false} FirstPair(store: Store, migrations: seq<Migration>)
    requires store.ledger.Some? && migrations != [] && migrations[0].version !in store.versions
    ensures AllAccepted(store, Pairs(migrations))
         == (Accepts(store, LedgerRow(migrations[0])) && AllAccepted(Extended(store, [migrations[0]]), Pairs(migrations[1..])))
    ensures Accepts(store, LedgerRow(migrations[0])) ==>
      ApplyAll(store, Pairs(migrations)) == ApplyAll(Extended(store, [migrations[0]]), Pairs(migrations[1..]))
  {
    var m := migrations[0];
    assert Versions([m]) == [m.version];
    TwoWrites(store, VersionRow(m.version), LedgerRow(m), Pairs(migrations[1..]));
  }

  lemma ExtendedTwice(store: Store, migrations: seq<Migration>)
    requires migrations != []
    ensures Extended(Extended(store, [migrations[0]]), migrations[1..]) == Extended(store, migrations)
  {
    var first, rest := [migrations[0]], migrations[1..];
    assert Versions(first) == [migrations[0].version] && first + rest == migrations;
    Regroup(store.versions, Versions(first), Versions(rest));
    Regroup(Rows(store.ledger), first, rest);
  }

  ghost predicate AllNewer(versions: seq<int>, migrations: seq<Migration>) {
    forall v, m :: v in versions && m in migrations ==> v < m.version
  }

  lemma RestIsNewerStill(store: Store, migrations: seq<Migration>)
    requires store.ledger.Some? && Listed(migrations) && migrations != [] && AllNewer(store.versions, migrations)
    ensures var next := Extended(store, [migrations[0]]);
      && migrations[0].version !in store.versions
      && AllNewer(next.versions, migrations[1..]) && next.ledger == Some(store.ledger.value + [migrations[0]])
  {
    ListedTail(migrations);
    assert migrations == [migrations[0]] + migrations[1..];
    assert Versions([migrations[0]]) == [migrations[0].version];
    assert migrations[0] in migrations;
  }

  lemma {:induction false} PairsNeedRoom(store: Store, migrations: seq<Migration>)
    requires store.ledger.Some? && Listed(migrations) && AllNewer(store.versions, migrations)
    ensures AllAccepted(store, Pairs(migrations)) <==> VersionsFree(store.ledger.value, migrations)
    ensures AllAccepted(store, Pairs(migrations)) ==> ApplyAll(store, Pairs(migrations)) == Extended(store, migrations)
    decreases |migrations|
  {
    if migrations == [] {
      assert store.versions + Versions([]) == store.versions && store.ledger.value + [] == store.ledger.value;
    } else {
      ListedTail(migrations);
      FirstIsFree(store.ledger.value, migrations);
      RestIsNewerStill(store, migrations);
      FirstPair(store, migrations);
      PairsNeedRoom(Extended(store, [migrations[0]]), migrations[1..]);
      ExtendedTwice(store, migrations);
    }
  }

  lemma RowsAtMostLatest(rows: seq<int>)
    ensures forall v :: v in rows ==> v <= Latest(rows)
  {
    if rows != [] {
      RowsAtMostMax(rows);
    }
  }

  lemma NewerThanAll(store: Store, migrations: seq<Migration>)
    requires Listed(migrations)
    ensures var newer := Above(migrations, Latest(store.versions));
      Listed(newer) && AllNewer(store.versions, newer)
  {
    AboveIncreases(migrations, Latest(store.versions));
    RowsAtMostLatest(store.versions);
  }

  lemma LedgeredCall(store: Store, migrations: seq<Migration>)
    requires store.ledger.Some? && Listed(migrations)
    ensures var newer := Above(migrations, Latest(store.versions));
      && (AllAccepted(WithLedger(store), Writes(store, migrations)) <==> VersionsFree(store.ledger.value, newer))
      && (VersionsFree(store.ledger.value, newer) ==>
            Called(store, migrations) == Extended(store, newer))
  {
    var current := Latest(store.versions);
    var newer := Above(migrations, current);
    assert Writes(store, migrations) == Pairs(newer) by {
      UpgradeWritesArePairs(migrations, current);
      assert [] + Pairs(newer) == Pairs(newer);
    }
    NewerThanAll(store, migrations);
    PairsNeedRoom(store, newer);
  }

  /**
   On a store with a ledger a call returns exactly when the store is not newer than the list,
   every migration that counts as done is recorded under its own id, and no row has the version
   of one still to be run.
   */
  lemma ReturnsExactly(store: Store, migrations: seq<Migration>)
    requires store.ledger.Some? && Listed(migrations) && migrations != []
    ensures Returns(store, migrations)
       <==> && Latest(store.versions) <= migrations[|migrations| - 1].version
            && DoneAreRecorded(store.ledger.value, migrations, Latest(store.versions))
            && VersionsFree(store.ledger.value, Above(migrations, Latest(store.versions)))
  {
    var current := Latest(store.versions);
    LedgeredCall(store, migrations);
    RowsAtMostLatest(store.versions);
    LatestAfter(store.versions, migrations, current);
    AfterRecordsIds(store.ledger.value, migrations, current);
  }

  /** No version is recorded twice, in either collection. */
  ghost predicate VersionsUnique(store: Store) {
    && (forall i, j :: 0 <= i < j < |store.versions| ==> store.versions[i] != store.versions[j])
    && (forall i, j :: 0 <= i < j < |Rows(store.ledger)| ==>
          Rows(store.ledger)[i].version != Rows(store.ledger)[j].version)
  }

  lemma {:induction false} WritesKeepUnique(store: Store, writes: seq<Write>)
    requires VersionsUnique(store)
    ensures VersionsUnique(ApplyAll(store, writes))
    decreases |writes|
  {
    if writes != [] && Accepts(store, writes[0]) {
      WritesKeepUnique(Apply(store, writes[0]), writes[1..]);
    }
  }

  /** Versions stay unique through every call and after any prefix of its inserts. */
  lemma StoreStaysUnique(store: Store, migrations: seq<Migration>, k: nat)
    requires VersionsUnique(store) && k <= |Writes(store, migrations)|
    ensures VersionsUnique(Called(store, migrations))
    ensures VersionsUnique(ApplyAll(WithLedger(store), Writes(store, migrations)[..k]))
  {
    WritesKeepUnique(WithLedger(store), Writes(store, migrations));
    WritesKeepUnique(WithLedger(store), Writes(store, migrations)[..k]);
  }

  lemma {:induction false} WritesKeepForeign(store: Store, writes: seq<Write>, m: Migration)
    requires store.ledger.Some? && ForeignRow(store.ledger.value, m)
    ensures var after := ApplyAll(store, writes); after.ledger.Some? && ForeignRow(after.ledger.value, m)
    decreases |writes|
  {
    if writes != [] && Accepts(store, writes[0]) {
      WritesKeepForeign(Apply(store, writes[0]), writes[1..], m);
    }
  }

  /**
   A version recorded under another id is never accepted, whatever a call inserts: no call whose
   list has the migration returns, and the foreign row stays for every later call.
   */
  lemma ForeignRowForever(store: Store, migrations: seq<Migration>, m: Migration)
    requires store.ledger.Some? && ForeignRow(store.ledger.value, m) && migrations != []
    ensures var after := Called(store, migrations); after.ledger.Some? && ForeignRow(after.ledger.value, m)
    ensures m in migrations ==> !Returns(store, migrations)
  {
    WritesKeepForeign(store, Writes(store, migrations), m);
  }

  // ---------- Crashes ----------

  ghost predicate LostRow(store: Store, m: Migration) {
    exists rows: seq<Migration> ::
      && store.ledger == Some(rows) && m.version <= Latest(store.versions)
      && forall row :: row in rows ==> row.version != m.version
  }

  lemma {:induction false} UpgradesKeepLost(store: Store, migrations: seq<Migration>, m: Migration)
    requires LostRow(store, m)
    ensures LostRow(ApplyAll(store, UpgradeWrites(migrations, Latest(store.versions))), m)
    decreases |migrations|
  {
    if migrations != [] {
      var next, rest, current := migrations[0], migrations[1..], Latest(store.versions);
      if next.version <= current {
        UpgradesKeepLost(store, rest, m);
      } else {
        TwoWrites(store, VersionRow(next.version), LedgerRow(next), UpgradeWrites(rest, next.version));
        LatestOfNewer(store.versions, next.version);
        if Accepts(Apply(store, VersionRow(next.version)), LedgerRow(next)) {
          UpgradesKeepLost(Apply(Apply(store, VersionRow(next.version)), LedgerRow(next)), rest, m);
        }
      }
    }
  }

  /** Once a row is lost no call whose list has it returns, ever. */
  lemma LostRowForever(store: Store, migrations: seq<Migration>, m: Migration)
    requires LostRow(store, m) && migrations != []
    ensures LostRow(Called(store, migrations), m)
    ensures m in migrations ==> !Returns(store, migrations)
  {
    UpgradesKeepLost(store, migrations, m);
    assert [] + UpgradeWrites(migrations, Latest(store.versions)) == UpgradeWrites(migrations, Latest(store.versions));
  }

  lemma CrashReaches(store: Store, migrations: seq<Migration>, n: nat, j: nat, odd: bool)
    requires Consistent(store, migrations, n) && if odd then n + j < |migrations| else n + j <= |migrations|
    ensures |Writes(store, migrations)| == 2 * (|migrations| - n)
    ensures ApplyAll(store, Writes(store, migrations)[..2 * j + if odd then 1 else 0])
         == Reached(store, migrations[n..], if odd then j + 1 else j, j)
  {
    ConsistentIsFresh(store, migrations, n);
    ConsistentWrites(store, migrations, n);
    ApplyPairs(store, migrations[n..], j, odd);
  }

  lemma OddCrash(store: Store, migrations: seq<Migration>, n: nat, j: nat, crashed: Store)
    requires Consistent(store, migrations, n) && n + j < |migrations|
    requires 2 * j < |Writes(store, migrations)| && crashed == ApplyAll(store, Writes(store, migrations)[..2 * j + 1])
    ensures !Returns(crashed, migrations)
  {
    CrashReaches(store, migrations, n, j, true);
    TakeMore(migrations, n, j);
    ReachedDivides(store, migrations, n, j + 1);
    LostAt(crashed, migrations, n + j);
  }

  /**
   A crash after `k` inserts of an upgrade: the next call recovers exactly when every version
   row written has its ledger row, that is, when `k` is even.
   */
  lemma CrashDuringUpgrade(store: Store, migrations: seq<Migration>, n: nat, k: nat)
    requires Consistent(store, migrations, n) && k <= |Writes(store, migrations)|
    ensures Returns(ApplyAll(store, Writes(store, migrations)[..k]), migrations) <==> k % 2 == 0
  {
    var crashed, j := ApplyAll(store, Writes(store, migrations)[..k]), k / 2;
    CrashReaches(store, migrations, n, 0, false);
    if k == 2 * j {
      CrashReaches(store, migrations, n, j, false);
      TakeMore(migrations, n, j);
      ReachedDivides(store, migrations, n, j);
      ConsistentReturns(crashed, migrations, n + j);
    } else {
      OddCrash(store, migrations, n, j, crashed);
    }
  }

  /** The first `i` are recorded but the version after them counts as done. */
  lemma LostAt(store: Store, migrations: seq<Migration>, i: nat)
    requires Listed(migrations) && i < |migrations| && store.ledger == Some(migrations[..i])
    requires migrations[i].version <= Latest(store.versions)
    ensures !Returns(store, migrations)
  {
    forall row | row in migrations[..i]
      ensures row.version != migrations[i].version
    {
      var h :| 0 <= h < i && migrations[h] == row;
    }
    LostRowForever(store, migrations, migrations[i]);
  }

  lemma {:induction false} ApplyRows(store: Store, migrations: seq<Migration>, k: nat)
    requires store.ledger.Some? && Listed(store.ledger.value + migrations) && k <= |LedgerRows(migrations)|
    ensures |LedgerRows(migrations)| == |migrations|
    ensures AllAccepted(store, LedgerRows(migrations)[..k])
    ensures ApplyAll(store, LedgerRows(migrations)[..k]) == store.(ledger := Some(store.ledger.value + migrations[..k]))
    decreases |migrations|
  {
    if migrations != [] {
      var next := Apply(store, LedgerRow(migrations[0]));
      RecordableFirst(store.ledger.value, migrations);
      if k == 0 {
        ApplyRows(next, migrations[1..], 0);
        assert store.ledger.value + migrations[..0] == store.ledger.value;
      } else {
        ApplyRows(next, migrations[1..], k - 1);
        assert LedgerRows(migrations)[..k][1..] == LedgerRows(migrations[1..])[..k - 1];
        assert store.ledger.value + [migrations[0]] + migrations[1..][..k - 1] == store.ledger.value + migrations[..k];
      }
    } else {
      assert store.ledger.value + [] == store.ledger.value;
    }
  }

  function Backfilled(store: Store, migrations: seq<Migration>, k: nat): Store
    requires k <= |migrations|
  {
    store.(ledger := Some(migrations[..k]))
  }

  /** A store from before the ledger, no newer than the list; `n` of its versions are done. */
  ghost predicate Legacy(store: Store, migrations: seq<Migration>, n: nat)
    requires n <= |migrations|
  {
    store.ledger.None? && Consistent(Backfilled(store, migrations, n), migrations, n)
  }

  lemma LegacyWrites(store: Store, migrations: seq<Migration>, n: nat)
    requires n <= |migrations| && Legacy(store, migrations, n)
    ensures Writes(store, migrations) == LedgerRows(migrations[..n]) + Pairs(migrations[n..])
  {
    DividedList(migrations, Latest(store.versions), n);
    BackfillWritesAreRows(migrations, Latest(store.versions));
    UpgradeWritesArePairs(migrations, Latest(store.versions));
  }

  lemma LegacyRows(store: Store, migrations: seq<Migration>, n: nat, k: nat)
    requires k <= n <= |migrations| && Legacy(store, migrations, n)
    ensures |LedgerRows(migrations[..n])| == n
    ensures AllAccepted(WithLedger(store), LedgerRows(migrations[..n])[..k])
    ensures ApplyAll(WithLedger(store), LedgerRows(migrations[..n])[..k]) == Backfilled(store, migrations, k)
  {
    var first, start := migrations[..n], WithLedger(store);
    var none: seq<Migration> := [];
    assert start.ledger == Some(none) && none + first == first && none + first[..k] == first[..k];
    TakeFewer(migrations, n, k);
    ApplyRows(start, first, 0);
    ApplyRows(start, first, k);
  }

  /** Past the backfill the first call is like any later one. */
  lemma PastBackfill(store: Store, migrations: seq<Migration>, n: nat, k: nat)
    requires n <= |migrations| && Legacy(store, migrations, n) && n <= k <= |Writes(store, migrations)|
    ensures var backfilled := Backfilled(store, migrations, n);
      && k - n <= |Writes(backfilled, migrations)|
      && ApplyAll(WithLedger(store), Writes(store, migrations)[..k])
           == ApplyAll(backfilled, Writes(backfilled, migrations)[..k - n])
      && AllAccepted(WithLedger(store), Writes(store, migrations)[..k])
           == AllAccepted(backfilled, Writes(backfilled, migrations)[..k - n])
  {
    var rows, pairs := LedgerRows(migrations[..n]), Pairs(migrations[n..]);
    LegacyRows(store, migrations, n, n);
    assert rows[..n] == rows;
    assert Writes(store, migrations)[..k] == rows + pairs[..k - n] by {
      LegacyWrites(store, migrations, n);
      assert (rows + pairs)[..k] == rows + pairs[..k - n];
    }
    assert Writes(Backfilled(store, migrations, n), migrations) == pairs by {
      ConsistentWrites(Backfilled(store, migrations, n), migrations, n);
    }
    LegacyWrites(store, migrations, n);
    ApplyBoth(WithLedger(store), rows, pairs[..k - n]);
  }

  /**
   A crash during the first call on a pre-ledger store: the next call recovers exactly when
   the backfill was finished and every version row written has its ledger row.
   */
  lemma CrashDuringFirstCall(store: Store, migrations: seq<Migration>, n: nat, k: nat)
    requires n <= |migrations| && Legacy(store, migrations, n) && k <= |Writes(store, migrations)|
    ensures Returns(ApplyAll(WithLedger(store), Writes(store, migrations)[..k]), migrations)
       <==> k >= n && (k - n) % 2 == 0
  {
    if k < n {
      LegacyWrites(store, migrations, n);
      LegacyRows(store, migrations, n, k);
      assert Writes(store, migrations)[..k] == LedgerRows(migrations[..n])[..k];
      LostAt(Backfilled(store, migrations, k), migrations, k);
    } else {
      PastBackfill(store, migrations, n, k);
      CrashDuringUpgrade(Backfilled(store, migrations, n), migrations, n, k - n);
    }
  }

  // ---------- Agreement with the relational ledger ----------

  /** Uninterrupted, a call leaves the rows the relational `initialize` leaves. */
  lemma LaterCallAgrees(store: Store, before: seq<Migration>, migrations: seq<Migration>)
    requires Recorded(AsState(store), before) && Listed(migrations) && before <= migrations
    ensures Returns(store, migrations)
    ensures AsState(Called(store, migrations)) == After(AsState(store), migrations).(upgrades := [])
  {
    var n := |before|;
    assert before == migrations[..n] && before[n - 1] == migrations[n - 1];
    LastIsNewest(before, migrations);
    ConsistentReturns(store, migrations, n);
    LaterCall(AsState(store), before, migrations);
  }

  lemma FirstCallAgrees(store: Store, migrations: seq<Migration>, n: nat)
    requires n <= |migrations| && Legacy(store, migrations, n)
    ensures Returns(store, migrations)
    ensures AsState(Called(store, migrations)) == After(AsState(store), migrations).(upgrades := [])
  {
    LegacyRows(store, migrations, n, n);
    LegacyWrites(store, migrations, n);
    ConsistentWrites(Backfilled(store, migrations, n), migrations, n);
    var rows := LedgerRows(migrations[..n]);
    assert rows[..n] == rows;
    ApplyBoth(WithLedger(store), rows, Pairs(migrations[n..]));
    ConsistentReturns(Backfilled(store, migrations, n), migrations, n);
    DividedList(migrations, Latest(store.versions), n);
    FirstCall(AsState(store), migrations);
  }
}
