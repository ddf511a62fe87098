/** Applying a plan in one transaction. */
module Apply {
  import opened Results
  import opened Ordered
  import opened Plan
  import opened Text
  import S = Statements
  import Q = SqlText

  // What a statement does to the database is left open: the driver is any function from a state and a text to a new
  // state or a failure.

  /** rowsAffected is None when the driver gives no result or no row count. */
  datatype Execution<+DB> = Failed | Done(db: DB, rowsAffected: Option<int>)

  datatype Driver<!DB> = Driver(
    exec: (DB, string) -> Execution<DB>,
    readLedger: DB -> Option<seq<LedgerEntry>>)

  /** How the transaction starts and ends: a failing commit may leave anything. */
  datatype Session<DB> = Session(begins: bool, commitFailure: Option<DB>)

  datatype ApplyError = Planning(error: PlanError) | BeginFailed | LedgerVerification | Execute | LedgerRowCount | CommitFailed
  type Outcome<+T> = Result<T, ApplyError>

  datatype ApplyResult = ApplyResult(previousVersion: nat, currentVersion: nat, latestVersion: nat, applied: seq<PlanStep>)

  // ---------------------------------------------------------------------------------------------
  // What an apply runs.
  // ---------------------------------------------------------------------------------------------

  /** A statement of a migration, or a ledger write that has to affect exactly one row. */
  datatype Action = Migrate(sql: string) | WriteLedger(sql: string)

  function InsertRow(migration: Migration): string {
    Q.LedgerInsertSql(migration.version, migration.name, migration.upSha256)
  }

  function DeleteRow(migration: Migration): string {
    Q.LedgerDeleteSql(migration.version, migration.name, migration.upSha256)
  }

  function MigrateAll(statements: seq<string>): (actions: seq<Action>)
    ensures |actions| == |statements|
    ensures forall i | 0 <= i < |statements| :: actions[i] == Migrate(statements[i])
  {
    if statements == [] then [] else [Migrate(statements[0])] + MigrateAll(statements[1..])
  }

  function StatementsOf(body: string): seq<string> {
    var split := S.Split(body);
    if split.Ok? then split.value else []
  }

  /** Up: every statement, then the ledger row. Down: the ledger row first, so that the table may go. */
  function ScriptOfStep(catalog: seq<Migration>, step: PlanStep): seq<Action> {
    if !(1 <= step.version <= |catalog|) then []
    else
      var migration := catalog[step.version - 1];
      if step.direction.Up? then MigrateAll(StatementsOf(migration.upSql)) + [WriteLedger(InsertRow(migration))]
      else [WriteLedger(DeleteRow(migration))] + MigrateAll(StatementsOf(migration.downSql))
  }

  function Script(catalog: seq<Migration>, steps: seq<PlanStep>): seq<Action> {
    if steps == [] then [] else ScriptOfStep(catalog, steps[0]) + Script(catalog, steps[1..])
  }

  function PerformOne<DB>(driver: Driver<DB>, db: DB, action: Action): (r: Outcome<DB>)
    ensures r.Err? ==> r.error.Execute? || r.error.LedgerRowCount?
  {
    match driver.exec(db, action.sql)
    case Failed => Err(Execute)
    case Done(db', rows) => if action.WriteLedger? && rows != Some(1) then Err(LedgerRowCount) else Ok(db')
  }

  function Perform<DB>(driver: Driver<DB>, db: DB, actions: seq<Action>): (r: Outcome<DB>)
    ensures r.Err? ==> r.error.Execute? || r.error.LedgerRowCount?
  {
    if actions == [] then Ok(db)
    else
      var next := PerformOne(driver, db, actions[0]);
      if next.Err? then next else Perform(driver, next.value, actions[1..])
  }

  /** The ledger read inside the transaction is this ledger, row order aside. */
  predicate ShowsLedger<DB>(driver: Driver<DB>, db: DB, ledger: seq<LedgerEntry>) {
    driver.readLedger(db).Some? && RowsOf(driver.readLedger(db).value) == RowsOf(ledger)
  }

  /** The state a non-empty plan wants to commit, or why it rolls back. */
  function Attempt<DB>(driver: Driver<DB>, db: DB, catalog: seq<Migration>, ledger: seq<LedgerEntry>, target: nat): Outcome<DB>
    requires |ledger| <= |catalog| && target <= |catalog|
  {
    if |ledger| > 0 && !ShowsLedger(driver, db, ledger) then Err(LedgerVerification)
    else
      var after := Perform(driver, db, Script(catalog, StepsBetween(catalog, |ledger|, target)));
      if after.Err? then after
      else if target > 0 && !ShowsLedger(driver, after.value, LedgerAt(catalog, target)) then Err(LedgerVerification)
      else after
  }

  // ---------------------------------------------------------------------------------------------
  // The loops.
  // ---------------------------------------------------------------------------------------------

  /**
   * Equal as sorted lists. Only the same rows can be equal, and they are when no version repeats; otherwise it is up to
   * the order in which the sort leaves rows of the same version.
   */
  method LedgerEntriesEqual(left: seq<LedgerEntry>, right: seq<LedgerEntry>) returns (equal: bool)
    ensures equal ==> multiset(left) == multiset(right)
    ensures DistinctKeys(left, VersionKey) || DistinctKeys(right, VersionKey) ==> (equal <==> multiset(left) == multiset(right))
  {
    if |left| != |right| {
      assert multiset(left) == multiset(right) ==> |multiset(left)| == |multiset(right)|;
      return false;
    }
    var leftSorted := SortBy(left, VersionKey);
    var rightSorted := SortBy(right, VersionKey);
    SameRowsSortAlike(left, right, leftSorted, rightSorted);
    InMultisetLength(leftSorted, left);
    InMultisetLength(rightSorted, right);
    for i := 0 to |leftSorted|
      invariant leftSorted[..i] == rightSorted[..i]
    {
      if leftSorted[i] != rightSorted[i] {
        return false;
      }
    }
    assert leftSorted == leftSorted[..|leftSorted|] == rightSorted[..|leftSorted|] == rightSorted;
    return true;
  }

  lemma SameRowsSortAlike(left: seq<LedgerEntry>, right: seq<LedgerEntry>, leftSorted: seq<LedgerEntry>, rightSorted: seq<LedgerEntry>)
    requires multiset(leftSorted) == multiset(left) && Ascending(leftSorted, VersionKey)
    requires multiset(rightSorted) == multiset(right) && Ascending(rightSorted, VersionKey)
    ensures multiset(left) == multiset(right) && (DistinctKeys(left, VersionKey) || DistinctKeys(right, VersionKey)) ==>
      leftSorted == rightSorted
  {
    hide Ascending, DistinctKeys, VersionKey;
    if multiset(left) == multiset(right) && (DistinctKeys(left, VersionKey) || DistinctKeys(right, VersionKey)) {
      DistinctKeysPermute(left, right, VersionKey);
      DistinctKeysPermute(right, rightSorted, VersionKey);
      AscendingDistinct(rightSorted, VersionKey);
      SortIsUnique(leftSorted, rightSorted, VersionKey);
    }
  }

  lemma InMultisetLength<R>(a: seq<R>, b: seq<R>)
    requires multiset(a) == multiset(b)
    ensures |a| == |b|
  {
    InMultiset(a, b);
  }

  lemma VersionsDiffer(catalog: seq<Migration>, ledger: seq<LedgerEntry>, version: nat)
    requires Contiguous(catalog) && IsLedgerAt(catalog, ledger, version)
    ensures DistinctKeys(ledger, VersionKey)
  {
    LedgerAtSorted(catalog, version);
    SortedHasDistinctKeys(LedgerAt(catalog, version), VersionKey);
    DistinctKeysPermute(ledger, LedgerAt(catalog, version), VersionKey);
  }

  method VerifyTransactionalLedger<DB>(driver: Driver<DB>, db: DB, catalog: seq<Migration>, want: seq<LedgerEntry>, wantVersion: nat)
    returns (ok: bool)
    requires catalog != [] && Contiguous(catalog) && IsLedgerAt(catalog, want, wantVersion)
    ensures ok <==> ShowsLedger(driver, db, want)
  {
    var read := driver.readLedger(db);
    if read.None? {
      return false;
    }
    var got := read.value;
    if multiset(got) == multiset(want) {
      LedgerVersionIsLength(catalog, got, wantVersion);
    }
    var version := ValidateLedger(catalog, got);
    if version.Err? || version.value != wantVersion {
      return false;
    }
    VersionsDiffer(catalog, want, wantVersion);
    ok := LedgerEntriesEqual(got, want);
  }

  lemma PerformConcat<DB>(driver: Driver<DB>, db: DB, a: seq<Action>, b: seq<Action>)
    ensures Perform(driver, db, a + b) ==
      (var first := Perform(driver, db, a); if first.Err? then first else Perform(driver, first.value, b))
  {
    if a == [] {
      assert a + b == b;
    } else {
      assert (a + b)[1..] == a[1..] + b;
      var next := PerformOne(driver, db, a[0]);
      if next.Ok? {
        PerformConcat(driver, next.value, a[1..], b);
      }
    }
  }

  method ExecuteMigrationStatements<DB>(driver: Driver<DB>, db: DB, body: string) returns (r: Outcome<DB>)
    ensures r == if S.Split(body).Ok? then Perform(driver, db, MigrateAll(StatementsOf(body))) else Err(Execute)
  {
    var split := S.SplitStatements(body);
    if split.Err? {
      return Err(Execute);
    }
    var working := db;
    ghost var actions := MigrateAll(split.value);
    assert actions[0..] == actions;
    for i := 0 to |split.value|
      invariant Perform(driver, db, actions) == Perform(driver, working, actions[i..])
    {
      assert actions[i..][0] == Migrate(split.value[i]) && actions[i..][1..] == actions[i + 1..];
      match driver.exec(working, split.value[i]) {
        case Failed => return Err(Execute);
        case Done(db', _) => working := db';
      }
    }
    return Ok(working);
  }

  method WriteLedgerRow<DB>(driver: Driver<DB>, db: DB, sql: string) returns (r: Outcome<DB>)
    ensures r == Perform(driver, db, [WriteLedger(sql)])
  {
    match driver.exec(db, sql) {
      case Failed => return Err(Execute);
      case Done(db', rows) =>
        if rows != Some(1) {
          return Err(LedgerRowCount);
        }
        return Ok(db');
    }
  }

  method ApplyStep<DB>(driver: Driver<DB>, db: DB, catalog: seq<Migration>, step: PlanStep) returns (r: Outcome<DB>)
    requires 1 <= step.version <= |catalog|
    requires S.Split(catalog[step.version - 1].upSql).Ok? && S.Split(catalog[step.version - 1].downSql).Ok?
    ensures r == Perform(driver, db, ScriptOfStep(catalog, step))
    ensures var migration := catalog[step.version - 1];
      r == match step.direction
        case Up => Perform(driver, db, MigrateAll(S.Split(migration.upSql).value)
          + [WriteLedger(Q.LedgerInsertSql(migration.version, migration.name, migration.upSha256))])
        case Down => Perform(driver, db, [WriteLedger(Q.LedgerDeleteSql(migration.version, migration.name, migration.upSha256))]
          + MigrateAll(S.Split(migration.downSql).value))
  {
    hide S.Split, Q.LedgerInsertSql, Q.LedgerDeleteSql;
    var migration := catalog[step.version - 1];
    var mid: Outcome<DB>;
    match step.direction {
      case Up =>
        PerformConcat(driver, db, MigrateAll(StatementsOf(migration.upSql)), [WriteLedger(InsertRow(migration))]);
        mid := ExecuteMigrationStatements(driver, db, migration.upSql);
        if mid.Err? {
          return mid;
        }
        r := WriteLedgerRow(driver, mid.value, InsertRow(migration));
      case Down =>
        PerformConcat(driver, db, [WriteLedger(DeleteRow(migration))], MigrateAll(StatementsOf(migration.downSql)));
        mid := WriteLedgerRow(driver, db, DeleteRow(migration));
        if mid.Err? {
          return mid;
        }
        r := ExecuteMigrationStatements(driver, mid.value, migration.downSql);
    }
  }

  /** The steps of a plan, and the split that cannot fail any more once the plan is made. */
  lemma StepIsInCatalog(sha256Hex: string -> string, catalog: seq<Migration>, current: nat, target: nat, i: nat)
    requires ValidCatalog(sha256Hex, catalog) && current <= |catalog| && target <= |catalog|
    requires i < |StepsBetween(catalog, current, target)|
    ensures var step := StepsBetween(catalog, current, target)[i];
      && step.version == (if target >= current then current + i + 1 else current - i)
      && step.direction == (if target >= current then Up else Down)
      && 1 <= step.version <= |catalog|
      && S.Split(catalog[step.version - 1].upSql).Ok? && S.Split(catalog[step.version - 1].downSql).Ok?
  {
    hide ValidCatalog, S.Split, StepsBetween;
    CatalogIsContiguous(sha256Hex, catalog);
    var at := if target >= current then current + i else current - 1 - i;
    StepAt(catalog, current, target, i);
    CatalogSplits(sha256Hex, catalog, at);
  }

  lemma CatalogSplits(sha256Hex: string -> string, catalog: seq<Migration>, at: nat)
    requires ValidCatalog(sha256Hex, catalog) && at < |catalog|
    ensures S.Split(catalog[at].upSql).Ok? && S.Split(catalog[at].downSql).Ok?
  {
    hide S.Split, ValidName, MigrationPath, ValidHeader, ValidSha256Hex, TrimSpace;
    assert ValidMigration(sha256Hex, catalog[at], at + 1);
  }

  /** What other connections see. */
  class Database<DB> {
    var committed: DB

    constructor (db: DB)
      ensures committed == db
    {
      committed := db;
    }

    /** Runs a plan on a working copy; the copy is committed after the last check and dropped on any failure. */
    method ApplyCatalogToVersion(driver: Driver<DB>, session: Session<DB>, sha256Hex: string -> string,
                                 catalog: seq<Migration>, ledger: seq<LedgerEntry>, target: int)
      returns (r: Outcome<ApplyResult>)
      modifies this
      ensures r.Err? && !r.error.CommitFailed? ==> committed == old(committed)
      ensures r == Err(CommitFailed) ==> session.commitFailure == Some(committed)
      ensures r.Ok? && r.value.applied != [] && 0 < target <= |catalog| ==>
        ShowsLedger(driver, committed, LedgerAt(catalog, target))
      ensures match PlanFor(sha256Hex, catalog, ledger, target)
        case Err(error) => r == Err(Planning(error))
        case Ok(plan) =>
          if plan.pending == [] then
            r == Ok(ApplyResult(plan.currentVersion, plan.currentVersion, plan.latestVersion, [])) && committed == old(committed)
          else if !session.begins then r == Err(BeginFailed)
          else match Attempt(driver, old(committed), catalog, ledger, target)
            case Err(error) => r == Err(error)
            case Ok(db) =>
              if session.commitFailure.Some? then r == Err(CommitFailed)
              else
                && r == Ok(ApplyResult(plan.currentVersion, target, plan.latestVersion, plan.pending))
                && committed == db
    {
      hide ValidCatalog, S.Split, Script, ScriptOfStep, Perform, LedgerAt, StepsBetween, ShowsLedger, MigrateAll,
        Q.LedgerInsertSql, Q.LedgerDeleteSql, PerformOne, StepOf;
      var planned := PlanCatalogToVersion(sha256Hex, catalog, ledger, target);
      if planned.Err? {
        return Err(Planning(planned.error));
      }
      var plan := planned.value;
      var result := ApplyResult(plan.currentVersion, plan.currentVersion, plan.latestVersion, []);
      if plan.upToDate || |plan.pending| == 0 {
        return Ok(result);
      }
      if !session.begins {
        return Err(BeginFailed);
      }
      CatalogIsContiguous(sha256Hex, catalog);
      NonEmptyCatalog(sha256Hex, catalog);
      var working := committed;
      if plan.currentVersion > 0 {
        var ok := VerifyTransactionalLedger(driver, working, catalog, ledger, plan.currentVersion);
        if !ok {
          return Err(LedgerVerification);
        }
      }
      assert plan.pending[0..] == plan.pending;
      for i := 0 to |plan.pending|
        invariant Perform(driver, working, Script(catalog, plan.pending[i..]))
          == Perform(driver, committed, Script(catalog, plan.pending))
        invariant result.(currentVersion := plan.currentVersion, applied := []) ==
          ApplyResult(plan.currentVersion, plan.currentVersion, plan.latestVersion, [])
        invariant result.applied == plan.pending[..i]
        invariant result.currentVersion == if target >= plan.currentVersion then plan.currentVersion + i else plan.currentVersion - i
        invariant committed == old(committed)
      {
        var step := plan.pending[i];
        StepIsInCatalog(sha256Hex, catalog, plan.currentVersion, target, i);
        FirstStep(driver, working, catalog, plan.pending, i);
        var next := ApplyStep(driver, working, catalog, step);
        if next.Err? {
          return Err(next.error);
        }
        working := next.value;
        result := result.(
          currentVersion := if step.direction.Up? then step.version else step.version - 1,
          applied := result.applied + [step]);
      }
      assert result.applied == plan.pending;
      NothingLeft(driver, working, catalog, plan.pending);
      if target > 0 {
        var want := ExpectedLedger(catalog, target);
        var ok := VerifyTransactionalLedger(driver, working, catalog, want, target);
        if !ok {
          return Err(LedgerVerification);
        }
      }
      if session.commitFailure.Some? {
        committed := session.commitFailure.value;
        return Err(CommitFailed);
      }
      committed := working;
      return Ok(result);
    }
  }

  method ExpectedLedger(catalog: seq<Migration>, version: nat) returns (entries: seq<LedgerEntry>)
    requires version <= |catalog|
    ensures entries == LedgerAt(catalog, version)
  {
    entries := [];
    for i := 0 to version
      invariant entries == LedgerAt(catalog, version)[..i]
    {
      entries := entries + [EntryOf(catalog[i])];
    }
  }

  lemma FirstStep<DB>(driver: Driver<DB>, db: DB, catalog: seq<Migration>, steps: seq<PlanStep>, i: nat)
    requires i < |steps|
    ensures Perform(driver, db, Script(catalog, steps[i..])) ==
      (var first := Perform(driver, db, ScriptOfStep(catalog, steps[i]));
       if first.Err? then first else Perform(driver, first.value, Script(catalog, steps[i + 1..])))
  {
    hide ScriptOfStep, Perform;
    assert steps[i..][1..] == steps[i + 1..];
    PerformConcat(driver, db, ScriptOfStep(catalog, steps[i]), Script(catalog, steps[i + 1..]));
  }

  lemma NothingLeft<DB>(driver: Driver<DB>, db: DB, catalog: seq<Migration>, steps: seq<PlanStep>)
    ensures Perform(driver, db, Script(catalog, steps[|steps|..])) == Ok(db)
  {
  }
}
