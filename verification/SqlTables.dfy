/** Deletes and inserts that all SQL stores share. */
module SqlTables {
  import opened Results
  import opened Ordered

  /** A table by primary key; the first column of every key is the owner whose rows belong together. */
  type Table<R> = map<Key, R>

  datatype Applied = Applied(version: int, name: string)

  // ---------------------------------------------------------------------------------------------
  // Statements, any of which the driver may fail.
  // ---------------------------------------------------------------------------------------------

  datatype CubeTable = Npcs | Recipes | Materials | Options
  datatype TableName = Cube(table: CubeTable) | AccountRoster | CharacterPoints
  datatype Statement =
    | Begin
    | ReadLedger
    | Delete(table: TableName, owner: Option<int>)
    | Insert(table: TableName, key: Key)
    | Query(table: TableName)
    | Commit

  type Faults = Statement -> bool

  ghost predicate Healthy(faults: Faults) {
    forall s :: !faults(s)
  }

  datatype SqlError = SchemaRequired | Driver | Constraint | InvalidExport | InvalidStored

  /** The check that a migration is in the ledger. */
  method RequireSchema(ledger: seq<Applied>, schema: Applied, faults: Faults) returns (ok: bool)
    ensures ok <==> !faults(ReadLedger) && schema in ledger
  {
    if faults(ReadLedger) {
      return false;
    }
    for i := 0 to |ledger|
      invariant forall k | 0 <= k < i :: ledger[k] != schema
    {
      if ledger[i].version == schema.version && ledger[i].name == schema.name {
        return true;
      }
    }
    return false;
  }

  // ---------------------------------------------------------------------------------------------
  // Deletes.
  // ---------------------------------------------------------------------------------------------

  /** Without an owner, every row; with one, the rows of that owner. */
  predicate Doomed(owner: Option<int>, k: Key) {
    owner.None? || k.a == owner.value
  }

  function Kept<R>(table: Table<R>, owner: Option<int>): Table<R> {
    map k | k in table && !Doomed(owner, k) :: table[k]
  }

  function Outside<R>(table: Table<R>, scope: seq<int>): Table<R> {
    map k | k in table && k.a !in scope :: table[k]
  }

  lemma OutsideStep<R>(table: Table<R>, scope: seq<int>, owner: int)
    ensures Kept(Outside(table, scope), Some(owner)) == Outside(table, scope + [owner])
  {
  }

  lemma NothingOutsideTable<R>(table: Table<R>)
    ensures Outside(table, []) == table
  {
  }

  // ---------------------------------------------------------------------------------------------
  // Inserts.
  // ---------------------------------------------------------------------------------------------

  /** No primary key is taken, in the table or twice among the rows. */
  ghost predicate Insertable<R>(table: Table<R>, rows: seq<R>, key: R -> Key) {
    DistinctKeys(rows, key) && forall i | 0 <= i < |rows| :: key(rows[i]) !in table
  }

  ghost predicate KeyIn<R>(rows: seq<R>, key: R -> Key, k: Key) {
    exists i :: 0 <= i < |rows| && key(rows[i]) == k
  }

  function Added<R>(table: Table<R>, rows: seq<R>, key: R -> Key): Table<R> {
    if rows == [] then table
    else
      var last := |rows| - 1;
      Added(table, rows[..last], key)[key(rows[last]) := rows[last]]
  }

  lemma {:induction false} AddedKeys<R>(table: Table<R>, rows: seq<R>, key: R -> Key, k: Key)
    ensures k in Added(table, rows, key) <==> k in table || KeyIn(rows, key, k)
  {
    if rows != [] {
      var last := |rows| - 1;
      AddedKeys(table, rows[..last], key, k);
      if KeyIn(rows, key, k) && key(rows[last]) != k {
        var i :| 0 <= i < |rows| && key(rows[i]) == k;
        assert rows[..last][i] == rows[i];
      }
      if KeyIn(rows[..last], key, k) {
        var i :| 0 <= i < last && key(rows[..last][i]) == k;
        assert rows[..last][i] == rows[i];
      }
      assert key(rows[last]) == k ==> KeyIn(rows, key, k);
    }
  }

  /** Where an entry of the grown table comes from. */
  lemma {:induction false} AddedOrigin<R>(table: Table<R>, rows: seq<R>, key: R -> Key, k: Key)
    requires k in Added(table, rows, key)
    ensures var row := Added(table, rows, key)[k]; (k in table && row == table[k]) || (row in rows && key(row) == k)
  {
    if rows != [] && key(rows[|rows| - 1]) != k {
      AddedOrigin(table, rows[..|rows| - 1], key, k);
    }
  }

  /** Every inserted row is found under its key, every row that was there is still there. */
  lemma {:induction false} AddedValue<R>(table: Table<R>, rows: seq<R>, key: R -> Key, k: Key)
    requires Insertable(table, rows, key)
    ensures k in table ==> k in Added(table, rows, key) && Added(table, rows, key)[k] == table[k]
    ensures forall i | 0 <= i < |rows| && key(rows[i]) == k :: k in Added(table, rows, key) && Added(table, rows, key)[k] == rows[i]
  {
    if rows != [] {
      var last := |rows| - 1;
      assert forall i | 0 <= i < last :: rows[..last][i] == rows[i];
      AddedValue(table, rows[..last], key, k);
    }
  }

  lemma InsertOneMore<R>(table: Table<R>, rows: seq<R>, key: R -> Key, i: nat)
    requires i < |rows|
    ensures Insertable(table, rows[..i + 1], key) <==>
      Insertable(table, rows[..i], key) && key(rows[i]) !in Added(table, rows[..i], key)
    ensures Added(table, rows[..i + 1], key) == Added(table, rows[..i], key)[key(rows[i]) := rows[i]]
  {
    assert rows[..i + 1][..i] == rows[..i];
    AddedKeys(table, rows[..i], key, key(rows[i]));
    InsertableStep(table, rows[..i], rows[i], key);
    assert rows[..i + 1] == rows[..i] + [rows[i]];
  }

  lemma InsertableStep<R>(table: Table<R>, rows: seq<R>, row: R, key: R -> Key)
    ensures Insertable(table, rows + [row], key) <==>
      Insertable(table, rows, key) && key(row) !in table && !KeyIn(rows, key, key(row))
  {
    if Insertable(table, rows + [row], key) {
      assert forall i | 0 <= i < |rows| :: (rows + [row])[i] == rows[i];
      assert (rows + [row])[|rows|] == row;
    }
  }

  lemma InsertablePrefix<R>(table: Table<R>, rows: seq<R>, key: R -> Key, i: nat)
    requires Insertable(table, rows, key) && i <= |rows|
    ensures Insertable(table, rows[..i], key)
  {
  }

  /** One INSERT per row. */
  method InsertRows<R>(table: Table<R>, rows: seq<R>, key: R -> Key, legal: R -> bool, name: TableName, faults: Faults)
    returns (r: Result<Table<R>, SqlError>)
    ensures r.Ok? ==> Insertable(table, rows, key) && (forall i | 0 <= i < |rows| :: legal(rows[i])) && r.value == Added(table, rows, key)
    ensures Healthy(faults) && Insertable(table, rows, key) && (forall i | 0 <= i < |rows| :: legal(rows[i])) ==> r.Ok?
    ensures Healthy(faults) && r.Err? ==> r.error == Constraint
  {
    hide Insertable, Added;
    var grown := table;
    NothingInserted(table, rows, key);
    for i := 0 to |rows|
      invariant Insertable(table, rows[..i], key) && grown == Added(table, rows[..i], key)
      invariant forall k | 0 <= k < i :: legal(rows[k])
    {
      var row := rows[i];
      InsertOneMore(table, rows, key, i);
      if faults(Insert(name, key(row))) {
        return Err(Driver);
      }
      if key(row) in grown || !legal(row) {
        if Insertable(table, rows, key) {
          InsertablePrefix(table, rows, key, i + 1);
        }
        return Err(Constraint);
      }
      grown := grown[key(row) := row];
    }
    assert rows[..|rows|] == rows;
    return Ok(grown);
  }

  lemma NothingInserted<R>(table: Table<R>, rows: seq<R>, key: R -> Key)
    ensures Insertable(table, rows[..0], key) && Added(table, rows[..0], key) == table
  {
  }

  ghost predicate SameOrigin<R(!new)>(grown: Table<R>, table: Table<R>, rows: seq<R>, key: R -> Key) {
    && (forall k | k in grown :: (k in table && grown[k] == table[k]) || (grown[k] in rows && key(grown[k]) == k))
    && (forall k | k in table :: k in grown && grown[k] == table[k])
    && (forall i | 0 <= i < |rows| :: key(rows[i]) in grown && grown[key(rows[i])] == rows[i])
  }

  lemma AddedContents<R(!new)>(table: Table<R>, rows: seq<R>, key: R -> Key)
    requires Insertable(table, rows, key)
    ensures SameOrigin(Added(table, rows, key), table, rows, key)
  {
    var grown := Added(table, rows, key);
    forall k | k in grown ensures (k in table && grown[k] == table[k]) || (grown[k] in rows && key(grown[k]) == k) {
      AddedOrigin(table, rows, key, k);
    }
    forall k | k in table ensures k in grown && grown[k] == table[k] {
      AddedValue(table, rows, key, k);
    }
    forall i | 0 <= i < |rows| ensures key(rows[i]) in grown && grown[key(rows[i])] == rows[i] {
      AddedValue(table, rows, key, key(rows[i]));
    }
  }

  // ---------------------------------------------------------------------------------------------
  // What a table holds, before and after.
  // ---------------------------------------------------------------------------------------------

  /** Exactly these rows, each under its key. */
  ghost predicate HoldsRows<R(!new)>(table: Table<R>, rows: seq<R>, key: R -> Key) {
    && (forall i | 0 <= i < |rows| :: key(rows[i]) in table && table[key(rows[i])] == rows[i])
    && (forall k | k in table :: table[k] in rows)
  }

  lemma HeldInOneOrder<R(!new)>(table: Table<R>, a: seq<R>, b: seq<R>, key: R -> Key)
    requires HoldsRows(table, a, key) && HoldsRows(table, b, key) && Sorted(a, key) && Sorted(b, key)
    ensures a == b
  {
    forall x ensures x in a <==> x in b {
      if x in a {
        var i :| 0 <= i < |a| && a[i] == x;
        assert table[key(a[i])] in b;
      }
      if x in b {
        var i :| 0 <= i < |b| && b[i] == x;
        assert table[key(b[i])] in a;
      }
    }
    SortedHasDistinctKeys(a, key);
    SortedHasDistinctKeys(b, key);
    SameRows(a, b, key);
    SortIsUnique(a, b, key);
  }

  /** Inside the scope exactly these rows, outside of it exactly what was there. */
  ghost predicate ReplacedRows<R(!new)>(before: Table<R>, after: Table<R>, rows: seq<R>, scope: seq<int>, key: R -> Key) {
    && (forall k: Key | k.a !in scope :: (k in after <==> k in before) && (k in before ==> after[k] == before[k]))
    && (forall k | k in after && k.a in scope :: after[k] in rows)
    && (forall i | 0 <= i < |rows| :: key(rows[i]) in after && after[key(rows[i])] == rows[i])
  }

  lemma ReplacedTable<R(!new)>(before: Table<R>, rows: seq<R>, scope: seq<int>, key: R -> Key)
    requires Insertable(Outside(before, scope), rows, key) && forall i | 0 <= i < |rows| :: key(rows[i]).a in scope
    ensures ReplacedRows(before, Added(Outside(before, scope), rows, key), rows, scope, key)
  {
    hide Insertable, Added;
    var after := Added(Outside(before, scope), rows, key);
    AddedContents(Outside(before, scope), rows, key);
    forall k: Key | k.a !in scope ensures (k in after <==> k in before) && (k in before ==> after[k] == before[k]) {
      assert k in before ==> k in Outside(before, scope);
    }
  }

  /** The rows were added, none of them under a key that was there. */
  ghost predicate ExtendedRows<R(!new)>(before: Table<R>, after: Table<R>, rows: seq<R>, key: R -> Key) {
    (forall i | 0 <= i < |rows| :: key(rows[i]) !in before) && SameOrigin(after, before, rows, key)
  }

  /** SELECT … ORDER BY the primary key. */
  method QueryRows<R(!new)>(table: Table<R>, key: R -> Key) returns (rows: seq<R>)
    requires forall k | k in table :: key(table[k]) == k
    ensures Sorted(rows, key) && HoldsRows(table, rows, key)
  {
    hide Less;
    var keys := AnyOrder(table.Keys);
    rows := [];
    for i := 0 to |keys|
      invariant |rows| == i && forall j | 0 <= j < i :: keys[j] in table && rows[j] == table[keys[j]]
    {
      assert keys[i] in keys;
      rows := rows + [table[keys[i]]];
    }
    forall k | k in table ensures table[k] in rows {
      assert k in keys;
      var j :| 0 <= j < |keys| && keys[j] == k;
      assert rows[j] == table[k];
    }
    var sorted := SortBy(rows, key);
    DistinctKeysPermute(rows, sorted, key);
    AscendingDistinct(sorted, key);
    InMultiset(rows, sorted);
    forall i | 0 <= i < |sorted| ensures key(sorted[i]) in table && table[key(sorted[i])] == sorted[i] {
      assert sorted[i] in rows;
    }
    rows := sorted;
  }

  /** The range checks on scanned columns. */
  method ScanRows<R>(rows: seq<R>, valid: R -> bool) returns (ok: bool)
    ensures ok <==> forall i | 0 <= i < |rows| :: valid(rows[i])
  {
    for i := 0 to |rows|
      invariant forall k | 0 <= k < i :: valid(rows[k])
    {
      if !valid(rows[i]) {
        return false;
      }
    }
    return true;
  }
}
