/** What a committed apply guarantees. */
module ApplyTheorems {
  import opened Results
  import opened Ordered
  import opened Plan
  import opened Apply
  import S = Statements
  import Q = SqlText

  // ---------------------------------------------------------------------------------------------
  // Every driver.
  // ---------------------------------------------------------------------------------------------

  /** A driver that reports success and does nothing. */
  function IdleDriver(): Driver<seq<LedgerEntry>> {
    Driver((db, sql) => Done(db, Some(1)), db => Some(db))
  }

  lemma {:induction false} IdlePerforms(db: seq<LedgerEntry>, actions: seq<Action>)
    ensures Perform(IdleDriver(), db, actions) == Ok(db)
  {
    if actions != [] {
      IdlePerforms(db, actions[1..]);
    }
  }

  /**
   * Whatever the statements do, what is committed shows the target's ledger: this holds for every driver
   * exactly when the target is above zero. A rollback to zero is committed unread. For targets above zero the check at
   * the end of an attempt says so itself; that the loops of ApplyCatalogToVersion commit exactly what an attempt comes to
   * is proved at that method.
   */
  lemma CommitGuarantee(catalog: seq<Migration>, ledger: seq<LedgerEntry>, target: nat)
    requires Contiguous(catalog) && IsLedgerAt(catalog, ledger, |ledger|)
    requires target <= |catalog| && target != |ledger|
    ensures target > 0 <==>
      forall driver: Driver<seq<LedgerEntry>>, db: seq<LedgerEntry> ::
        Attempt(driver, db, catalog, ledger, target).Ok? ==>
        ShowsLedger(driver, Attempt(driver, db, catalog, ledger, target).value, LedgerAt(catalog, target))
  {
    hide Script;
    if target == 0 {
      IdlePerforms(ledger, Script(catalog, StepsBetween(catalog, |ledger|, target)));
      assert Attempt(IdleDriver(), ledger, catalog, ledger, target) == Ok(ledger);
      assert |multiset(ledger)| > 0 == |multiset(LedgerAt(catalog, target))|;
      assert !ShowsLedger(IdleDriver(), ledger, LedgerAt(catalog, target));
    }
  }

  /**
   * The two reads of the ledger: an attempt that gets to the commit has found the given ledger before the first step,
   * unless it is empty, and the target's behind the last one, unless that is zero; and nothing else stops it but a step.
   */
  lemma AttemptChecks<DB>(driver: Driver<DB>, db: DB, catalog: seq<Migration>, ledger: seq<LedgerEntry>, target: nat)
    requires |ledger| <= |catalog| && target <= |catalog|
    ensures var r, ran, before := Attempt(driver, db, catalog, ledger, target),
        Perform(driver, db, Script(catalog, StepsBetween(catalog, |ledger|, target))), driver.readLedger(db);
      && (r.Ok? <==>
            && (ledger == [] || (before.Some? && multiset(before.value) == multiset(ledger))) && ran.Ok?
            && (target == 0 || (driver.readLedger(ran.value).Some?
                  && multiset(driver.readLedger(ran.value).value) == multiset(LedgerAt(catalog, target)))))
      && (r.Ok? ==> r == ran)
      && (r == Err(LedgerVerification) <==> !r.Ok? && (ran.Ok? || (ledger != [] && !(before.Some? && multiset(before.value) == multiset(ledger)))))
  {
    hide Perform, Script, LedgerAt;
  }

  /** The driver takes the action from one state to the next; a ledger write reports one row. */
  ghost predicate Runs<DB>(driver: Driver<DB>, before: DB, action: Action, after: DB) {
    var run := driver.exec(before, action.sql);
    run.Done? && run.db == after && (action.WriteLedger? ==> run.rowsAffected == Some(1))
  }

  /**
   * Actions run one after the other, each in the state that the one before left, and the first that fails ends it: a
   * statement that the driver rejects, or a ledger write that does not report exactly one row.
   */
  lemma {:induction false} PerformRunsActions<DB>(driver: Driver<DB>, db: DB, actions: seq<Action>) returns (states: seq<DB>)
    ensures 1 <= |states| <= |actions| + 1 && states[0] == db
    ensures forall i | 0 <= i < |states| - 1 :: Runs(driver, states[i], actions[i], states[i + 1])
    ensures var r, last := Perform(driver, db, actions), |states| - 1;
      if last == |actions| then r == Ok(states[last])
      else
        var run := driver.exec(states[last], actions[last].sql);
        if run.Failed? then r == Err(Execute)
        else r == Err(LedgerRowCount) && actions[last].WriteLedger? && run.rowsAffected != Some(1)
    decreases |actions|
  {
    states := [db];
    if actions != [] && PerformOne(driver, db, actions[0]).Ok? {
      var rest := PerformRunsActions(driver, PerformOne(driver, db, actions[0]).value, actions[1..]);
      states := [db] + rest;
      forall i | 0 <= i < |states| - 1 ensures Runs(driver, states[i], actions[i], states[i + 1]) {
        if i > 0 {
          assert Runs(driver, rest[i - 1], actions[1..][i - 1], rest[i]);
        }
      }
    }
  }

  // ---------------------------------------------------------------------------------------------
  // Which texts run, and in which order.
  // ---------------------------------------------------------------------------------------------

  /** A driver that keeps a log of the texts it is given and always reports one row. */
  function LogDriver(read: seq<string> -> Option<seq<LedgerEntry>>): Driver<seq<string>> {
    Driver((log, sql) => Done(log + [sql], Some(1)), read)
  }

  function TextsOf(actions: seq<Action>): (texts: seq<string>)
    ensures |texts| == |actions| && forall i | 0 <= i < |actions| :: texts[i] == actions[i].sql
  {
    if actions == [] then [] else [actions[0].sql] + TextsOf(actions[1..])
  }

  lemma {:induction false} PerformLogs(read: seq<string> -> Option<seq<LedgerEntry>>, log: seq<string>, actions: seq<Action>)
    ensures Perform(LogDriver(read), log, actions) == Ok(log + TextsOf(actions))
    decreases |actions|
  {
    if actions == [] {
      assert log + [] == log;
    } else {
      PerformLogs(read, log + [actions[0].sql], actions[1..]);
      assert log + [actions[0].sql] + TextsOf(actions[1..]) == log + TextsOf(actions);
    }
  }

  /** Up: the statements of the migration, then the ledger insert; down: the ledger delete, then those of its rollback. */
  method LoggedStep(read: seq<string> -> Option<seq<LedgerEntry>>, log: seq<string>, catalog: seq<Migration>, step: PlanStep)
    returns (r: Outcome<seq<string>>)
    requires 1 <= step.version <= |catalog|
    requires S.Split(catalog[step.version - 1].upSql).Ok? && S.Split(catalog[step.version - 1].downSql).Ok?
    ensures var migration := catalog[step.version - 1];
      r == match step.direction
        case Up => Ok(log + S.Split(migration.upSql).value + [Q.LedgerInsertSql(migration.version, migration.name, migration.upSha256)])
        case Down => Ok(log + [Q.LedgerDeleteSql(migration.version, migration.name, migration.upSha256)] + S.Split(migration.downSql).value)
  {
    hide S.Split, Q.LedgerInsertSql, Q.LedgerDeleteSql, ScriptOfStep, Perform;
    var migration := catalog[step.version - 1];
    LoggedUp(read, log, S.Split(migration.upSql).value, Q.LedgerInsertSql(migration.version, migration.name, migration.upSha256));
    LoggedDown(read, log, S.Split(migration.downSql).value, Q.LedgerDeleteSql(migration.version, migration.name, migration.upSha256));
    r := ApplyStep(LogDriver(read), log, catalog, step);
  }

  lemma LoggedUp(read: seq<string> -> Option<seq<LedgerEntry>>, log: seq<string>, statements: seq<string>, sql: string)
    ensures Perform(LogDriver(read), log, MigrateAll(statements) + [WriteLedger(sql)]) == Ok(log + statements + [sql])
  {
    var actions := MigrateAll(statements) + [WriteLedger(sql)];
    PerformLogs(read, log, actions);
    hide TextsOf, MigrateAll, Perform;
    assert TextsOf(actions) == statements + [sql];
    assert log + (statements + [sql]) == log + statements + [sql];
  }

  lemma LoggedDown(read: seq<string> -> Option<seq<LedgerEntry>>, log: seq<string>, statements: seq<string>, sql: string)
    ensures Perform(LogDriver(read), log, [WriteLedger(sql)] + MigrateAll(statements)) == Ok(log + [sql] + statements)
  {
    var actions := [WriteLedger(sql)] + MigrateAll(statements);
    PerformLogs(read, log, actions);
    hide TextsOf, MigrateAll, Perform;
    assert TextsOf(actions) == [sql] + statements;
    assert log + ([sql] + statements) == log + [sql] + statements;
  }

  lemma {:induction false} RunsSteps<DB>(driver: Driver<DB>, db: DB, catalog: seq<Migration>, steps: seq<PlanStep>, after: DB)
    returns (states: seq<DB>)
    requires Perform(driver, db, Script(catalog, steps)) == Ok(after)
    ensures |states| == 1 + |steps| && states[0] == db && states[|steps|] == after
    ensures forall i | 0 <= i < |steps| :: Perform(driver, states[i], ScriptOfStep(catalog, steps[i])) == Ok(states[i + 1])
    decreases |steps|
  {
    states := [db];
    if steps != [] {
      FirstStep(driver, db, catalog, steps, 0);
      assert steps[0..] == steps;
      hide ScriptOfStep, Perform, Script;
      var first := Perform(driver, db, ScriptOfStep(catalog, steps[0]));
      var rest := RunsSteps(driver, first.value, catalog, steps[1..], after);
      states := [db] + rest;
    }
  }

  /**
   * A successful attempt is a chain of states, one step after the other: upwards every step runs the statements of the
   * next migration and its insert, downwards the delete of the last one and the statements of its rollback.
   */
  lemma AttemptRunsSteps<DB>(driver: Driver<DB>, db: DB, catalog: seq<Migration>, current: nat, target: nat, after: DB)
    returns (states: seq<DB>)
    requires Contiguous(catalog) && current <= |catalog| && target <= |catalog|
    requires forall i | 0 <= i < |catalog| :: S.Split(catalog[i].upSql).Ok? && S.Split(catalog[i].downSql).Ok?
    requires Perform(driver, db, Script(catalog, StepsBetween(catalog, current, target))) == Ok(after)
    ensures |states| == 1 + (if target >= current then target - current else current - target)
    ensures states[0] == db && states[|states| - 1] == after
    ensures forall i | 0 <= i < target - current ::
      var m := catalog[current + i];
      Perform(driver, states[i], MigrateAll(S.Split(m.upSql).value) + [WriteLedger(Q.LedgerInsertSql(m.version, m.name, m.upSha256))])
        == Ok(states[i + 1])
    ensures forall i | 0 <= i < current - target ::
      var m := catalog[current - 1 - i];
      Perform(driver, states[i], [WriteLedger(Q.LedgerDeleteSql(m.version, m.name, m.upSha256))] + MigrateAll(S.Split(m.downSql).value))
        == Ok(states[i + 1])
  {
    hide S.Split, Q.LedgerInsertSql, Q.LedgerDeleteSql, Perform, Script, ScriptOfStep, StepsBetween, Contiguous, MigrateAll;
    var steps := StepsBetween(catalog, current, target);
    states := RunsSteps(driver, db, catalog, steps, after);
    forall i | 0 <= i < |steps|
      ensures target > current ==> var m := catalog[current + i];
        ScriptOfStep(catalog, steps[i]) == MigrateAll(S.Split(m.upSql).value) + [WriteLedger(Q.LedgerInsertSql(m.version, m.name, m.upSha256))]
      ensures target < current ==> var m := catalog[current - 1 - i];
        ScriptOfStep(catalog, steps[i]) == [WriteLedger(Q.LedgerDeleteSql(m.version, m.name, m.upSha256))] + MigrateAll(S.Split(m.downSql).value)
    {
      StepScript(catalog, current, target, i);
    }
  }

  lemma StepScript(catalog: seq<Migration>, current: nat, target: nat, i: nat)
    requires Contiguous(catalog) && current <= |catalog| && target <= |catalog| && i < |StepsBetween(catalog, current, target)|
    requires forall i | 0 <= i < |catalog| :: S.Split(catalog[i].upSql).Ok? && S.Split(catalog[i].downSql).Ok?
    ensures target > current ==> var m := catalog[current + i];
      ScriptOfStep(catalog, StepsBetween(catalog, current, target)[i])
        == MigrateAll(S.Split(m.upSql).value) + [WriteLedger(Q.LedgerInsertSql(m.version, m.name, m.upSha256))]
    ensures target < current ==> var m := catalog[current - 1 - i];
      ScriptOfStep(catalog, StepsBetween(catalog, current, target)[i])
        == [WriteLedger(Q.LedgerDeleteSql(m.version, m.name, m.upSha256))] + MigrateAll(S.Split(m.downSql).value)
  {
    hide S.Split, Q.LedgerInsertSql, Q.LedgerDeleteSql, StepsBetween;
    StepAt(catalog, current, target, i);
  }

  /** The texts that a whole apply runs: those of its steps, in version order. */
  method LoggedApply(database: Database<seq<string>>, read: seq<string> -> Option<seq<LedgerEntry>>, session: Session<seq<string>>,
                     sha256Hex: string -> string, catalog: seq<Migration>, ledger: seq<LedgerEntry>, target: int)
    returns (r: Outcome<ApplyResult>, ghost logs: seq<seq<string>>)
    modifies database
    ensures r.Ok? ==> |ledger| <= |catalog| && 0 <= target <= |catalog|
    ensures r.Ok? ==> forall i | 0 <= i < |catalog| :: S.Split(catalog[i].upSql).Ok? && S.Split(catalog[i].downSql).Ok?
    ensures r.Ok? ==>
      && |logs| == 1 + (if target >= |ledger| then target - |ledger| else |ledger| - target)
      && logs[0] == old(database.committed) && logs[|logs| - 1] == database.committed
    ensures r.Ok? ==> forall i | 0 <= i < target - |ledger| ::
      var m := catalog[|ledger| + i];
      logs[i + 1] == logs[i] + S.Split(m.upSql).value + [Q.LedgerInsertSql(m.version, m.name, m.upSha256)]
    ensures r.Ok? ==> forall i | 0 <= i < |ledger| - target ::
      var m := catalog[|ledger| - 1 - i];
      logs[i + 1] == logs[i] + [Q.LedgerDeleteSql(m.version, m.name, m.upSha256)] + S.Split(m.downSql).value
  {
    hide S.Split, Q.LedgerInsertSql, Q.LedgerDeleteSql, Perform, Script, ScriptOfStep, StepsBetween, ValidCatalog, ShowsLedger, LedgerAt, MigrateAll;
    ghost var before := database.committed;
    r := database.ApplyCatalogToVersion(LogDriver(read), session, sha256Hex, catalog, ledger, target);
    logs := [];
    if r.Ok? {
      CatalogIsContiguous(sha256Hex, catalog);
      forall i | 0 <= i < |catalog| ensures S.Split(catalog[i].upSql).Ok? && S.Split(catalog[i].downSql).Ok? {
        CatalogSplits(sha256Hex, catalog, i);
      }
      if |ledger| == target {
        NoSteps(catalog, target);
        logs := [before];
      } else {
        logs := AttemptRunsSteps(LogDriver(read), before, catalog, |ledger|, target, database.committed);
        forall i | 0 <= i < target - |ledger| ensures var m := catalog[|ledger| + i];
          logs[i + 1] == logs[i] + S.Split(m.upSql).value + [Q.LedgerInsertSql(m.version, m.name, m.upSha256)]
        {
          var m := catalog[|ledger| + i];
          LoggedUp(read, logs[i], S.Split(m.upSql).value, Q.LedgerInsertSql(m.version, m.name, m.upSha256));
        }
        forall i | 0 <= i < |ledger| - target ensures var m := catalog[|ledger| - 1 - i];
          logs[i + 1] == logs[i] + [Q.LedgerDeleteSql(m.version, m.name, m.upSha256)] + S.Split(m.downSql).value
        {
          var m := catalog[|ledger| - 1 - i];
          LoggedDown(read, logs[i], S.Split(m.downSql).value, Q.LedgerDeleteSql(m.version, m.name, m.upSha256));
        }
      }
    }
  }

  lemma NoSteps(catalog: seq<Migration>, version: nat)
    requires version <= |catalog|
    ensures StepsBetween(catalog, version, version) == []
  {
  }

  // ---------------------------------------------------------------------------------------------
  // Drivers that execute the ledger statements as written.
  // ---------------------------------------------------------------------------------------------

  /** The ledger of a state as a multiset of rows. */
  function Rows<DB>(driver: Driver<DB>, db: DB): multiset<LedgerEntry>
    requires driver.readLedger(db).Some?
  {
    RowsOf(driver.readLedger(db).value)
  }

  /** One more row on the way up, one row less on the way down. */
  predicate Moves(direction: Direction, row: LedgerEntry, before: multiset<LedgerEntry>, after: multiset<LedgerEntry>) {
    if direction.Up? then after == before + multiset{row} else before == after + multiset{row}
  }

  /** A ledger write that reports one row affected has moved exactly its row. */
  predicate WritesRow<DB>(driver: Driver<DB>, db: DB, sql: string, direction: Direction, row: LedgerEntry)
    requires driver.readLedger(db).Some?
  {
    var result := driver.exec(db, sql);
    result.Done? && result.rowsAffected == Some(1) ==>
      driver.readLedger(result.db).Some? && Moves(direction, row, Rows(driver, db), Rows(driver, result.db))
  }

  /** These statements do not touch the ledger, as long as it is this one. */
  ghost predicate LeaveLedger<DB(!new)>(driver: Driver<DB>, statements: seq<string>, ledger: seq<LedgerEntry>) {
    forall k, db | 0 <= k < |statements| && ShowsLedger(driver, db, ledger) && driver.exec(db, statements[k]).Done? ::
      ShowsLedger(driver, driver.exec(db, statements[k]).db, ledger)
  }

  /**
   * What is asked of the catalog and the engine, and only at the ledgers where the applier runs a statement: going up,
   * a migration's statements find the ledger of the version below and its insert comes after them; going down, its
   * delete finds the ledger of its version and its statements the one below. A table that is not there reads as
   * empty, so that the first rollback may drop the ledger table once its last row is gone.
   */
  ghost predicate KeepsLedger<DB(!new)>(driver: Driver<DB>, catalog: seq<Migration>) {
    forall i | 0 <= i < |catalog| :: KeepsLedgerAt(driver, catalog, i)
  }

  ghost predicate KeepsLedgerAt<DB(!new)>(driver: Driver<DB>, catalog: seq<Migration>, i: nat)
    requires i < |catalog|
  {
    && LeaveLedger(driver, StatementsOf(catalog[i].upSql), LedgerAt(catalog, i))
    && LeaveLedger(driver, StatementsOf(catalog[i].downSql), LedgerAt(catalog, i))
    && (forall db | ShowsLedger(driver, db, LedgerAt(catalog, i)) ::
          WritesRow(driver, db, InsertRow(catalog[i]), Up, EntryOf(catalog[i])))
    && (forall db | ShowsLedger(driver, db, LedgerAt(catalog, i + 1)) ::
          WritesRow(driver, db, DeleteRow(catalog[i]), Down, EntryOf(catalog[i])))
  }

  lemma {:induction false} StatementsLeaveLedger<DB(!new)>(driver: Driver<DB>, db: DB, statements: seq<string>, ledger: seq<LedgerEntry>)
    requires ShowsLedger(driver, db, ledger) && LeaveLedger(driver, statements, ledger)
    ensures var after := Perform(driver, db, MigrateAll(statements)); after.Ok? ==> ShowsLedger(driver, after.value, ledger)
    decreases |statements|
  {
    hide ShowsLedger;
    if statements != [] {
      var actions := MigrateAll(statements);
      assert actions[0] == Migrate(statements[0]) && actions[1..] == MigrateAll(statements[1..]);
      var next := PerformOne(driver, db, actions[0]);
      if next.Ok? {
        assert LeaveLedger(driver, statements[1..], ledger) by {
          assert forall k | 0 <= k < |statements[1..]| :: statements[1..][k] == statements[k + 1];
        }
        StatementsLeaveLedger(driver, next.value, statements[1..], ledger);
      }
    }
  }

  /** The ledger that a step starts from: of the version below going up, of its own version going down. */
  function StartVersion(at: nat, direction: Direction): nat {
    if direction.Up? then at else at + 1
  }

  lemma {:induction false} UpMovesRow<DB(!new)>(driver: Driver<DB>, db: DB, catalog: seq<Migration>, at: nat)
    requires at < |catalog| && KeepsLedgerAt(driver, catalog, at) && ShowsLedger(driver, db, LedgerAt(catalog, at))
    ensures var after := Perform(driver, db, MigrateAll(StatementsOf(catalog[at].upSql)) + [WriteLedger(InsertRow(catalog[at]))]);
      after.Ok? ==>
        driver.readLedger(after.value).Some? && Moves(Up, EntryOf(catalog[at]), Rows(driver, db), Rows(driver, after.value))
  {
    hide StatementsOf, InsertRow, LedgerAt;
    var statements, write := StatementsOf(catalog[at].upSql), WriteLedger(InsertRow(catalog[at]));
    StatementsLeaveLedger(driver, db, statements, LedgerAt(catalog, at));
    PerformConcat(driver, db, MigrateAll(statements), [write]);
  }

  lemma {:induction false} DownMovesRow<DB(!new)>(driver: Driver<DB>, db: DB, catalog: seq<Migration>, at: nat)
    requires at < |catalog| && KeepsLedgerAt(driver, catalog, at) && ShowsLedger(driver, db, LedgerAt(catalog, at + 1))
    ensures var after := Perform(driver, db, [WriteLedger(DeleteRow(catalog[at]))] + MigrateAll(StatementsOf(catalog[at].downSql)));
      after.Ok? ==>
        driver.readLedger(after.value).Some? && Moves(Down, EntryOf(catalog[at]), Rows(driver, db), Rows(driver, after.value))
  {
    hide StatementsOf, DeleteRow, LedgerAt;
    var statements, write := StatementsOf(catalog[at].downSql), WriteLedger(DeleteRow(catalog[at]));
    PerformConcat(driver, db, [write], MigrateAll(statements));
    var first := PerformOne(driver, db, write);
    if first.Ok? {
      assert WritesRow(driver, db, write.sql, Down, EntryOf(catalog[at])) && Perform(driver, db, [write]) == first;
      MovesAlongCatalog(catalog, at, Rows(driver, first.value));
      StatementsLeaveLedger(driver, first.value, statements, LedgerAt(catalog, at));
    }
  }

  /** A step that runs through moves exactly its row. */
  lemma {:induction false} StepMovesRow<DB(!new)>(driver: Driver<DB>, db: DB, catalog: seq<Migration>, at: nat, direction: Direction)
    requires KeepsLedger(driver, catalog) && Contiguous(catalog) && at < |catalog|
    requires ShowsLedger(driver, db, LedgerAt(catalog, StartVersion(at, direction)))
    ensures var after := Perform(driver, db, ScriptOfStep(catalog, StepOf(catalog[at], direction)));
      after.Ok? ==>
        && driver.readLedger(after.value).Some?
        && Moves(direction, EntryOf(catalog[at]), Rows(driver, db), Rows(driver, after.value))
  {
    hide StatementsOf, InsertRow, DeleteRow, LedgerAt, Moves, KeepsLedgerAt;
    assert KeepsLedgerAt(driver, catalog, at);
    if direction.Up? {
      UpMovesRow(driver, db, catalog, at);
    } else {
      DownMovesRow(driver, db, catalog, at);
    }
  }

  /** The version one step from current towards target. */
  function Next(current: nat, target: nat): nat
    requires current != target
  {
    if target > current then current + 1 else current - 1
  }

  /** Moving the next row from the ledger of a version gives the ledger of the next version. */
  lemma MovesAlongCatalog(catalog: seq<Migration>, below: nat, after: multiset<LedgerEntry>)
    requires below < |catalog|
    ensures Moves(Up, EntryOf(catalog[below]), RowsOf(LedgerAt(catalog, below)), after) ==> after == RowsOf(LedgerAt(catalog, below + 1))
    ensures Moves(Down, EntryOf(catalog[below]), RowsOf(LedgerAt(catalog, below + 1)), after) ==> after == RowsOf(LedgerAt(catalog, below))
  {
    assert LedgerAt(catalog, below + 1) == LedgerAt(catalog, below) + [EntryOf(catalog[below])];
    if Moves(Down, EntryOf(catalog[below]), RowsOf(LedgerAt(catalog, below + 1)), after) {
      Cancel(after, RowsOf(LedgerAt(catalog, below)), EntryOf(catalog[below]));
    }
  }

  /** The version at which a step ends. */
  function EndVersion(at: nat, direction: Direction): nat {
    if direction.Up? then at + 1 else at
  }

  lemma {:induction false} StepShowsLedger<DB(!new)>(driver: Driver<DB>, db: DB, catalog: seq<Migration>, at: nat, direction: Direction)
    requires KeepsLedger(driver, catalog) && Contiguous(catalog) && at < |catalog|
    requires ShowsLedger(driver, db, LedgerAt(catalog, StartVersion(at, direction)))
    ensures var after := Perform(driver, db, ScriptOfStep(catalog, StepOf(catalog[at], direction)));
      after.Ok? ==> ShowsLedger(driver, after.value, LedgerAt(catalog, EndVersion(at, direction)))
  {
    hide LedgerAt, Moves, KeepsLedger, ScriptOfStep, Perform, Contiguous, RowsOf, StepOf;
    StepMovesRow(driver, db, catalog, at, direction);
    var after := Perform(driver, db, ScriptOfStep(catalog, StepOf(catalog[at], direction)));
    if after.Ok? {
      MovesAlongCatalog(catalog, at, Rows(driver, after.value));
    }
  }

  /** One step of a plan: it takes the ledger of a version to the ledger of the next. */
  lemma {:induction false} StepShowsNextLedger<DB(!new)>(driver: Driver<DB>, db: DB, catalog: seq<Migration>, current: nat, target: nat)
    requires KeepsLedger(driver, catalog) && Contiguous(catalog)
    requires current <= |catalog| && target <= |catalog| && current != target
    requires ShowsLedger(driver, db, LedgerAt(catalog, current))
    ensures var after := Perform(driver, db, ScriptOfStep(catalog, StepsBetween(catalog, current, target)[0]));
      after.Ok? ==> ShowsLedger(driver, after.value, LedgerAt(catalog, Next(current, target)))
  {
    var at, direction := if target > current then current else current - 1, if target > current then Up else Down;
    StepAt(catalog, current, target, 0);
    hide StepsBetween, LedgerAt, KeepsLedger, ScriptOfStep, Perform, Contiguous, ShowsLedger, StepOf;
    StepShowsLedger(driver, db, catalog, at, direction);
  }

  lemma FirstThenRest<DB>(driver: Driver<DB>, db: DB, catalog: seq<Migration>, current: nat, target: nat)
    requires current <= |catalog| && target <= |catalog| && current != target
    ensures Perform(driver, db, Script(catalog, StepsBetween(catalog, current, target))) ==
      (var first := Perform(driver, db, ScriptOfStep(catalog, StepsBetween(catalog, current, target)[0]));
       if first.Err? then first
       else Perform(driver, first.value, Script(catalog, StepsBetween(catalog, Next(current, target), target))))
  {
    FirstStep(driver, db, catalog, StepsBetween(catalog, current, target), 0);
    assert StepsBetween(catalog, current, target)[0..] == StepsBetween(catalog, current, target);
    assert StepsBetween(catalog, current, target)[1..] == StepsBetween(catalog, Next(current, target), target);
  }

  /**
   * With a driver that keeps the ledger, a plan that runs through always ends in the target's ledger: the
   * check before the commit only catches statements that touch the ledger behind the planner's back.
   */
  lemma {:induction false} PlanReachesTargetLedger<DB(!new)>(driver: Driver<DB>, db: DB, catalog: seq<Migration>, current: nat, target: nat)
    requires KeepsLedger(driver, catalog) && Contiguous(catalog)
    requires current <= |catalog| && target <= |catalog|
    requires ShowsLedger(driver, db, LedgerAt(catalog, current))
    ensures var after := Perform(driver, db, Script(catalog, StepsBetween(catalog, current, target)));
      after.Ok? ==> ShowsLedger(driver, after.value, LedgerAt(catalog, target))
    decreases if target > current then target - current else current - target
  {
    if target == current {
      assert StepsBetween(catalog, current, target) == [];
    } else {
      hide StepsBetween, LedgerAt, KeepsLedger, Script, ScriptOfStep, Perform, Contiguous, ShowsLedger;
      FirstThenRest(driver, db, catalog, current, target);
      StepShowsNextLedger(driver, db, catalog, current, target);
      var first := Perform(driver, db, ScriptOfStep(catalog, StepsBetween(catalog, current, target)[0]));
      if first.Ok? {
        PlanReachesTargetLedger(driver, first.value, catalog, Next(current, target), target);
      }
    }
  }

  /** So an attempt from an honest ledger never fails the ledger check. */
  lemma HonestLedgerVerifies<DB(!new)>(driver: Driver<DB>, db: DB, catalog: seq<Migration>, ledger: seq<LedgerEntry>, target: nat)
    requires KeepsLedger(driver, catalog) && Contiguous(catalog)
    requires IsLedgerAt(catalog, ledger, |ledger|) && target <= |catalog|
    requires ShowsLedger(driver, db, ledger)
    ensures Attempt(driver, db, catalog, ledger, target) ==
      Perform(driver, db, Script(catalog, StepsBetween(catalog, |ledger|, target)))
  {
    PlanReachesTargetLedger(driver, db, catalog, |ledger|, target);
  }

  // ---------------------------------------------------------------------------------------------
  // An engine whose first rollback drops the ledger table.
  // ---------------------------------------------------------------------------------------------

  /** The ledger table: not there, or with the rows of the first versions. */
  datatype LedgerTable = NoTable | Holds(rows: nat)

  function RunOn(catalog: seq<Migration>, create: string, drop: string, db: LedgerTable, sql: string): Execution<LedgerTable> {
    if sql == create then if db.NoTable? then Done(Holds(0), Some(0)) else Failed
    else if sql == drop then if db.NoTable? then Failed else Done(NoTable, Some(0))
    else if db.NoTable? then Done(db, Some(0))
    else if db.rows < |catalog| && sql == InsertRow(catalog[db.rows]) then Done(Holds(db.rows + 1), Some(1))
    else if 0 < db.rows <= |catalog| && sql == DeleteRow(catalog[db.rows - 1]) then Done(Holds(db.rows - 1), Some(1))
    else Done(db, Some(0))
  }

  function ReadOn(catalog: seq<Migration>, db: LedgerTable): Option<seq<LedgerEntry>> {
    if db.NoTable? || db.rows > |catalog| then Some([]) else Some(LedgerAt(catalog, db.rows))
  }

  /** Drops the table whatever it holds; a table that is not there reads as empty. */
  function TableDriver(catalog: seq<Migration>, create: string, drop: string): Driver<LedgerTable> {
    Driver((db, sql) => RunOn(catalog, create, drop, db, sql), db => ReadOn(catalog, db))
  }

  /** Migrations whose statements are no ledger writes, and of which only the first rollback drops the table. */
  predicate DropsTableFirst(catalog: seq<Migration>, create: string, drop: string) {
    && catalog != [] && StatementsOf(catalog[0].upSql) == [create] && StatementsOf(catalog[0].downSql) == [drop] && create != drop
    && (forall i | 0 < i < |catalog| :: drop !in StatementsOf(catalog[i].upSql) && drop !in StatementsOf(catalog[i].downSql))
    && forall i, j | 0 <= i < |catalog| && 0 <= j < |catalog| ::
      && InsertRow(catalog[j]) !in StatementsOf(catalog[i].upSql) && InsertRow(catalog[j]) !in StatementsOf(catalog[i].downSql)
      && DeleteRow(catalog[j]) !in StatementsOf(catalog[i].upSql) && DeleteRow(catalog[j]) !in StatementsOf(catalog[i].downSql)
  }

  lemma WritesDiffer(a: Migration, b: Migration)
    ensures InsertRow(a) != DeleteRow(b)
  {
    assert InsertRow(a)[0] == 'I' && DeleteRow(b)[0] == 'D';
  }

  /** Which states show the ledger of a version. */
  predicate StandsAt(catalog: seq<Migration>, db: LedgerTable, version: nat) {
    db == Holds(version) || (version == 0 && (db.NoTable? || db.rows > |catalog|))
  }

  lemma ShownVersion(catalog: seq<Migration>, create: string, drop: string, db: LedgerTable, version: nat)
    requires version <= |catalog|
    ensures ShowsLedger(TableDriver(catalog, create, drop), db, LedgerAt(catalog, version)) <==> StandsAt(catalog, db, version)
  {
    var read := ReadOn(catalog, db).value;
    if RowsOf(read) == RowsOf(LedgerAt(catalog, version)) {
      InMultiset(read, LedgerAt(catalog, version));
    }
  }

  lemma StatementKeepsTable(catalog: seq<Migration>, create: string, drop: string, sql: string, at: nat, db: LedgerTable)
    requires at < |catalog| && StandsAt(catalog, db, at) && (at > 0 ==> sql != drop)
    requires forall j | 0 <= j < |catalog| :: InsertRow(catalog[j]) != sql && DeleteRow(catalog[j]) != sql
    ensures RunOn(catalog, create, drop, db, sql).Done? ==> StandsAt(catalog, RunOn(catalog, create, drop, db, sql).db, at)
  {
    hide InsertRow, DeleteRow;
  }

  lemma StatementsKeepTable(catalog: seq<Migration>, create: string, drop: string, statements: seq<string>, at: nat)
    requires at < |catalog| && (at > 0 ==> drop !in statements)
    requires forall j | 0 <= j < |catalog| :: InsertRow(catalog[j]) !in statements && DeleteRow(catalog[j]) !in statements
    ensures LeaveLedger(TableDriver(catalog, create, drop), statements, LedgerAt(catalog, at))
  {
    hide InsertRow, DeleteRow, LedgerAt, ShowsLedger, RunOn, ReadOn, StandsAt;
    var driver := TableDriver(catalog, create, drop);
    forall k, db | 0 <= k < |statements| && ShowsLedger(driver, db, LedgerAt(catalog, at)) && driver.exec(db, statements[k]).Done?
      ensures ShowsLedger(driver, driver.exec(db, statements[k]).db, LedgerAt(catalog, at))
    {
      assert statements[k] in statements;
      ShownVersion(catalog, create, drop, db, at);
      StatementKeepsTable(catalog, create, drop, statements[k], at, db);
      ShownVersion(catalog, create, drop, RunOn(catalog, create, drop, db, statements[k]).db, at);
    }
  }

  lemma WriteMovesTable(catalog: seq<Migration>, create: string, drop: string, at: nat, db: LedgerTable)
    requires at < |catalog|
    ensures StandsAt(catalog, db, at) ==>
      var result := RunOn(catalog, create, drop, db, InsertRow(catalog[at]));
      result.Done? && result.rowsAffected == Some(1) ==> db == Holds(at) && result.db == Holds(at + 1)
    ensures StandsAt(catalog, db, at + 1) ==>
      var result := RunOn(catalog, create, drop, db, DeleteRow(catalog[at]));
      result.Done? && result.rowsAffected == Some(1) ==> db == Holds(at + 1) && result.db == Holds(at)
  {
    hide InsertRow, DeleteRow;
    if db.Holds? && 0 < db.rows <= |catalog| {
      WritesDiffer(catalog[at], catalog[db.rows - 1]);
      if db.rows < |catalog| {
        WritesDiffer(catalog[db.rows], catalog[at]);
      }
    }
  }

  lemma TableMoves(catalog: seq<Migration>, at: nat)
    requires at < |catalog|
    ensures ReadOn(catalog, Holds(at)).Some? && ReadOn(catalog, Holds(at + 1)).Some?
    ensures var row, below, above := EntryOf(catalog[at]), RowsOf(ReadOn(catalog, Holds(at)).value), RowsOf(ReadOn(catalog, Holds(at + 1)).value);
      Moves(Up, row, below, above) && Moves(Down, row, above, below)
  {
    assert LedgerAt(catalog, at + 1) == LedgerAt(catalog, at) + [EntryOf(catalog[at])];
  }

  lemma WritesMoveTable(catalog: seq<Migration>, create: string, drop: string, at: nat, db: LedgerTable)
    requires at < |catalog|
    ensures ReadOn(catalog, db).Some?
    ensures StandsAt(catalog, db, at) ==> WritesRow(TableDriver(catalog, create, drop), db, InsertRow(catalog[at]), Up, EntryOf(catalog[at]))
    ensures StandsAt(catalog, db, at + 1) ==> WritesRow(TableDriver(catalog, create, drop), db, DeleteRow(catalog[at]), Down, EntryOf(catalog[at]))
  {
    assert ReadOn(catalog, db).Some?;
    hide InsertRow, DeleteRow, LedgerAt, RunOn, ReadOn, Moves, StandsAt;
    WriteMovesTable(catalog, create, drop, at, db);
    TableMoves(catalog, at);
  }

  /** A first rollback that drops the ledger table is one that the theorems above are about. */
  lemma {:induction false} DropTableKeepsLedger(catalog: seq<Migration>, create: string, drop: string)
    requires Contiguous(catalog) && DropsTableFirst(catalog, create, drop)
    ensures KeepsLedger(TableDriver(catalog, create, drop), catalog)
    ensures forall rows: nat :: RunOn(catalog, create, drop, Holds(rows), drop) == Done(NoTable, Some(0))
  {
    hide StatementsOf, InsertRow, DeleteRow, LedgerAt, LeaveLedger, WritesRow, ShowsLedger, StandsAt;
    var driver := TableDriver(catalog, create, drop);
    forall i: nat | i < |catalog| ensures KeepsLedgerAt(driver, catalog, i) {
      StatementsKeepTable(catalog, create, drop, StatementsOf(catalog[i].upSql), i);
      StatementsKeepTable(catalog, create, drop, StatementsOf(catalog[i].downSql), i);
      forall db | ShowsLedger(driver, db, LedgerAt(catalog, i)) ensures WritesRow(driver, db, InsertRow(catalog[i]), Up, EntryOf(catalog[i])) {
        ShownVersion(catalog, create, drop, db, i);
        WritesMoveTable(catalog, create, drop, i, db);
      }
      forall db | ShowsLedger(driver, db, LedgerAt(catalog, i + 1)) ensures WritesRow(driver, db, DeleteRow(catalog[i]), Down, EntryOf(catalog[i])) {
        ShownVersion(catalog, create, drop, db, i + 1);
        WritesMoveTable(catalog, create, drop, i, db);
      }
    }
  }
}
