/** The SQL store of the cube catalogue. */
module CubeSqlStore {
  import opened Results
  import opened Ordered
  import opened Integers
  import opened Ids
  import opened CubeModel
  import opened CubeFlatten
  import opened CubeQuarantine
  import opened CubeCanonical
  import opened CubeRebuild
  import opened CubeNormal
  import opened CubeRoundTrip
  import opened CubeSql
  import opened SqlTables

  // ---------------------------------------------------------------------------------------------
  // What the tables hold.
  // ---------------------------------------------------------------------------------------------

  ghost predicate Holds(db: Db, t: Tables) {
    && HoldsRows(db.npcs, t.npcs, IdKey) && HoldsRows(db.recipes, t.recipes, RecipeKey)
    && HoldsRows(db.materials, t.materials, MaterialKey) && HoldsRows(db.options, t.options, OptionKey)
  }

  lemma HeldTablesUnique(db: Db, a: Tables, b: Tables)
    requires Holds(db, a) && Holds(db, b) && SortedTables(a) && SortedTables(b)
    ensures a == b
  {
    HeldInOneOrder(db.npcs, a.npcs, b.npcs, IdKey);
    HeldInOneOrder(db.recipes, a.recipes, b.recipes, RecipeKey);
    HeldInOneOrder(db.materials, a.materials, b.materials, MaterialKey);
    HeldInOneOrder(db.options, a.options, b.options, OptionKey);
  }

  /** A database holds the tables of at most one snapshot in normal form. */
  lemma StoredOnce(db: Db, a: Snapshot, b: Snapshot)
    requires Normal(a) && Normal(b) && Holds(db, Flatten(a.npcs)) && Holds(db, Flatten(b.npcs))
    ensures a == b
  {
    hide Holds, AllRecipeRows, AllMaterialRows, AllOptionRows, Vnums, WellGrouped, Sorted, ValidSnapshot, GoldFits, AcceptsTables;
    NormalIsAccepted(a);
    NormalIsAccepted(b);
    HeldTablesUnique(db, Flatten(a.npcs), Flatten(b.npcs));
    NormalGrouped(a);
    NormalGrouped(b);
    FlattenInjective(a.npcs, b.npcs);
  }

  // ---------------------------------------------------------------------------------------------
  // Reading.
  // ---------------------------------------------------------------------------------------------

  /** Reads the four tables; their constraints make every range check pass. */
  method QueryCubeRecipeState(db: Db, faults: Faults) returns (r: Result<Tables, SqlError>)
    requires Integrity(db)
    ensures r.Ok? ==> HasSchema(db) && SortedTables(r.value) && Holds(db, r.value)
    ensures Healthy(faults) && HasSchema(db) ==> r.Ok?
    ensures Healthy(faults) && r.Err? ==> r.error == SchemaRequired
  {
    hide Sorted, ValidRecipeRow, ValidMaterialRow, ValidOptionRow;
    var schema := RequireSchema(db.ledger, CUBE_SCHEMA, faults);
    if !schema {
      return Err(SchemaRequired);
    }
    if faults(Query(Cube(Npcs))) || faults(Query(Cube(Recipes))) || faults(Query(Cube(Materials))) || faults(Query(Cube(Options))) {
      return Err(Driver);
    }
    var npcs := QueryRows(db.npcs, IdKey);
    var ok := ScanRows(npcs, (v: Uint32) => v != 0);
    if !ok {
      return Err(InvalidStored);
    }
    var recipes := QueryRows(db.recipes, RecipeKey);
    ok := ScanRows(recipes, (row: RecipeRow) => row.npc != 0 && ValidRecipeRow(row));
    if !ok {
      return Err(InvalidStored);
    }
    var materials := QueryRows(db.materials, MaterialKey);
    ok := ScanRows(materials, (row: MaterialRow) => row.npc != 0 && row.recipe >= 0 && ValidMaterialRow(row));
    if !ok {
      return Err(InvalidStored);
    }
    var options := QueryRows(db.options, OptionKey);
    ok := ScanRows(options, (row: OptionRow) => row.npc != 0 && row.recipe >= 0 && ValidOptionRow(row));
    if !ok {
      return Err(InvalidStored);
    }
    return Ok(Tables(npcs, recipes, materials, options));
  }

  // ---------------------------------------------------------------------------------------------
  // Writing.
  // ---------------------------------------------------------------------------------------------

  lemma ParentsOf(db: Db, t: Tables)
    requires AcceptsTables(t)
    ensures forall i | 0 <= i < |t.recipes| :: LegalRecipe(WithNpcs(db, t), t.recipes[i])
  {
    hide ValidRecipeRow;
    forall i | 0 <= i < |t.recipes| ensures LegalRecipe(WithNpcs(db, t), t.recipes[i]) {
      var row := t.recipes[i];
      assert row in t.recipes;
      var j :| 0 <= j < |t.npcs| && t.npcs[j] == row.npc;
      AddedKeys(db.npcs, t.npcs, IdKey, IdKey(row.npc));
      assert KeyIn(t.npcs, IdKey, IdKey(row.npc));
    }
  }

  lemma RecipesOf(db: Db, t: Tables, npc: Uint32, recipe: int)
    requires AcceptsTables(t) && HasRecipe(t.recipes, npc, recipe)
    ensures npc in t.npcs && npc != 0 && recipe >= 0
    ensures ParentRecipe(npc, recipe) in WithRecipes(WithNpcs(db, t), t).recipes
  {
    var row :| row in t.recipes && row.npc == npc && row.position == recipe;
    var j :| 0 <= j < |t.recipes| && t.recipes[j] == row;
    AddedKeys(db.recipes, t.recipes, RecipeKey, RecipeKey(row));
    assert KeyIn(t.recipes, RecipeKey, RecipeKey(row));
    assert ValidRecipeRow(row);
  }

  /** A database without a given NPC has no rows of it at all. */
  lemma NoOrphans(db: Db, npc: Uint32)
    requires Integrity(db) && IdKey(npc) !in db.npcs
    ensures forall k | k in db.recipes || k in db.materials || k in db.options :: k.a != npc
  {
    hide ValidRecipeRow, ValidMaterialRow, ValidOptionRow;
    forall k | k in db.recipes ensures k.a != npc {
      assert LegalRecipe(db, db.recipes[k]);
    }
    forall k | k in db.materials ensures k.a != npc {
      assert LegalMaterial(db, db.materials[k]);
    }
    forall k | k in db.options ensures k.a != npc {
      assert LegalOption(db, db.options[k]);
    }
  }

  lemma FreeRecipes(db: Db, t: Tables)
    requires Integrity(db) && AcceptsTables(t) && forall v | v in t.npcs :: IdKey(v) !in db.npcs
    ensures Insertable(db.recipes, t.recipes, RecipeKey)
  {
    hide ValidRecipeRow, ValidMaterialRow, ValidOptionRow, Integrity;
    forall i | 0 <= i < |t.recipes| ensures RecipeKey(t.recipes[i]) !in db.recipes {
      assert t.recipes[i] in t.recipes;
      NoOrphans(db, t.recipes[i].npc);
    }
  }

  lemma FreeMaterials(db: Db, t: Tables)
    requires Integrity(db) && AcceptsTables(t) && forall v | v in t.npcs :: IdKey(v) !in db.npcs
    ensures Insertable(db.materials, t.materials, MaterialKey)
    ensures forall i | 0 <= i < |t.materials| :: LegalMaterial(WithRecipes(WithNpcs(db, t), t), t.materials[i])
  {
    hide ValidRecipeRow, ValidMaterialRow, ValidOptionRow, Integrity, HasRecipe, Added;
    forall i | 0 <= i < |t.materials|
      ensures MaterialKey(t.materials[i]) !in db.materials && LegalMaterial(WithRecipes(WithNpcs(db, t), t), t.materials[i])
    {
      assert t.materials[i] in t.materials;
      RecipesOf(db, t, t.materials[i].npc, t.materials[i].recipe);
      NoOrphans(db, t.materials[i].npc);
    }
  }

  lemma FreeOptions(db: Db, t: Tables)
    requires Integrity(db) && AcceptsTables(t) && forall v | v in t.npcs :: IdKey(v) !in db.npcs
    ensures Insertable(db.options, t.options, OptionKey)
    ensures forall i | 0 <= i < |t.options| :: LegalOption(WithRecipes(WithNpcs(db, t), t), t.options[i])
  {
    hide ValidRecipeRow, ValidMaterialRow, ValidOptionRow, Integrity, HasRecipe, Added;
    forall i | 0 <= i < |t.options|
      ensures OptionKey(t.options[i]) !in db.options && LegalOption(WithRecipes(WithNpcs(db, t), t), t.options[i])
    {
      assert t.options[i] in t.options;
      RecipesOf(db, t, t.options[i].npc, t.options[i].recipe);
      NoOrphans(db, t.options[i].npc);
    }
  }

  /** Accepted rows of NPCs the database does not have violate no constraint. */
  lemma FreeRowsFit(db: Db, t: Tables)
    requires Integrity(db) && AcceptsTables(t) && forall v | v in t.npcs :: IdKey(v) !in db.npcs
    ensures Fits(db, t)
  {
    hide Integrity, AcceptsRecipes, AcceptsMaterials, AcceptsOptions, AcceptsGroups, Added, LegalRecipe, LegalMaterial, LegalOption;
    forall i | 0 <= i < |t.npcs| ensures t.npcs[i] != 0 && IdKey(t.npcs[i]) !in db.npcs {
      assert t.npcs[i] in t.npcs;
    }
    ParentsOf(db, t);
    FreeRecipes(db, t);
    FreeMaterials(db, t);
    FreeOptions(db, t);
  }

  // The tables once an NPC scope is replaced.

  function OutsideScope(db: Db, scope: seq<Uint32>): Db {
    Db(db.ledger, Outside(db.npcs, scope), Outside(db.recipes, scope), Outside(db.materials, scope), Outside(db.options, scope))
  }

  lemma OneMoreOutside(db: Db, scope: seq<Uint32>, npc: Uint32)
    ensures Cleared(OutsideScope(db, scope), Some(npc)) == OutsideScope(db, scope + [npc])
  {
    OutsideStep(db.npcs, scope, npc);
    OutsideStep(db.recipes, scope, npc);
    OutsideStep(db.materials, scope, npc);
    OutsideStep(db.options, scope, npc);
  }

  lemma NothingOutside(db: Db)
    ensures OutsideScope(db, []) == db
  {
    NothingOutsideTable(db.npcs);
    NothingOutsideTable(db.recipes);
    NothingOutsideTable(db.materials);
    NothingOutsideTable(db.options);
  }

  lemma OutsideKeepsIntegrity(db: Db, scope: seq<Uint32>)
    requires Integrity(db)
    ensures Integrity(OutsideScope(db, scope))
  {
    hide ValidRecipeRow, ValidMaterialRow, ValidOptionRow;
  }

  ghost predicate Replaced(before: Db, after: Db, c: Canonical) {
    && ReplacedRows(before.npcs, after.npcs, c.tables.npcs, c.npcVnums, IdKey)
    && ReplacedRows(before.recipes, after.recipes, c.tables.recipes, c.npcVnums, RecipeKey)
    && ReplacedRows(before.materials, after.materials, c.tables.materials, c.npcVnums, MaterialKey)
    && ReplacedRows(before.options, after.options, c.tables.options, c.npcVnums, OptionKey)
  }

  lemma ReplacedTables(before: Db, c: Canonical)
    requires Fits(OutsideScope(before, c.npcVnums), c.tables) && AcceptsTables(c.tables)
    requires forall v | v in c.tables.npcs :: v in c.npcVnums
    ensures Replaced(before, AddedTables(OutsideScope(before, c.npcVnums), c.tables), c)
  {
    hide Insertable, Added, Outside, AcceptsGroups, ReplacedRows;
    var t := c.tables;
    ParentsKnown(t);
    forall i | 0 <= i < |t.npcs| ensures IdKey(t.npcs[i]).a in c.npcVnums {
      assert t.npcs[i] in t.npcs;
    }
    forall i | 0 <= i < |t.recipes| ensures RecipeKey(t.recipes[i]).a in c.npcVnums {
      assert t.recipes[i] in t.recipes;
    }
    forall i | 0 <= i < |t.materials| ensures MaterialKey(t.materials[i]).a in c.npcVnums {
      assert t.materials[i] in t.materials;
    }
    forall i | 0 <= i < |t.options| ensures OptionKey(t.options[i]).a in c.npcVnums {
      assert t.options[i] in t.options;
    }
    ReplacedTable(before.npcs, t.npcs, c.npcVnums, IdKey);
    ReplacedTable(before.recipes, t.recipes, c.npcVnums, RecipeKey);
    ReplacedTable(before.materials, t.materials, c.npcVnums, MaterialKey);
    ReplacedTable(before.options, t.options, c.npcVnums, OptionKey);
  }

  // The tables once rows are added to them.

  ghost predicate Extended(before: Db, after: Db, t: Tables) {
    && ExtendedRows(before.npcs, after.npcs, t.npcs, IdKey) && ExtendedRows(before.recipes, after.recipes, t.recipes, RecipeKey)
    && ExtendedRows(before.materials, after.materials, t.materials, MaterialKey)
    && ExtendedRows(before.options, after.options, t.options, OptionKey)
  }

  lemma ExtendedTables(before: Db, t: Tables)
    requires Fits(before, t)
    ensures Extended(before, AddedTables(before, t), t)
  {
    hide Added, SameOrigin, LegalRecipe, LegalMaterial, LegalOption;
    AddedContents(before.npcs, t.npcs, IdKey);
    AddedContents(before.recipes, t.recipes, RecipeKey);
    AddedContents(before.materials, t.materials, MaterialKey);
    AddedContents(before.options, t.options, OptionKey);
  }

  lemma OnlyTheseRows(ledger: seq<Applied>, t: Tables)
    requires Fits(Db(ledger, map[], map[], map[], map[]), t)
    ensures Holds(AddedTables(Db(ledger, map[], map[], map[], map[]), t), t)
  {
    hide Added, Insertable, LegalRecipe, LegalMaterial, LegalOption;
    AddedContents(map[], t.npcs, IdKey);
    AddedContents(map[], t.recipes, RecipeKey);
    AddedContents(map[], t.materials, MaterialKey);
    AddedContents(map[], t.options, OptionKey);
  }

  /** The DELETEs of a scoped replace. */
  method DeleteScope(db: Db, scope: seq<Uint32>, faults: Faults) returns (r: Result<Db, SqlError>)
    ensures r.Ok? ==> r.value == OutsideScope(db, scope)
    ensures Healthy(faults) ==> r.Ok?
  {
    hide Outside, Kept;
    var tx := db;
    NothingOutside(db);
    for i := 0 to |scope|
      invariant tx == OutsideScope(db, scope[..i])
    {
      var next := DeleteRows(tx, Some(scope[i]), faults);
      if next.Err? {
        return next;
      }
      OneMoreOutside(db, scope[..i], scope[i]);
      assert scope[..i + 1] == scope[..i] + [scope[i]];
      tx := next.value;
    }
    assert scope[..|scope|] == scope;
    return Ok(tx);
  }

  /** Everything cleared is an empty database under the same ledger. */
  lemma AllCleared(db: Db)
    ensures Cleared(db, None) == Db(db.ledger, map[], map[], map[], map[])
  {
  }

  datatype ImportResult = ImportResult(npcCount: nat, recipeCount: nat, materialCount: nat, optionCount: nat, npcVnums: seq<Uint32>, replaced: bool)

  class SqlStore {
    var db: Db

    constructor (db: Db)
      ensures this.db == db
    {
      this.db := db;
    }

    /** Replaces the whole catalogue by the normalised snapshot, or changes nothing. */
    method Save(snapshot: Snapshot, faults: Faults) returns (r: Result<(), SqlError>, ghost normal: Snapshot)
      requires Integrity(db)
      modifies this
      ensures Integrity(db) && db.ledger == old(db.ledger)
      ensures Normalizes(snapshot, normal)
      ensures r.Err? ==> db == old(db)
      ensures r.Ok? ==> HasSchema(old(db)) && Normal(normal) && Holds(db, Flatten(normal.npcs))
      ensures Healthy(faults) ==>
        r == if !(ValidSnapshot(normal) && GoldFits(normal)) then Err(InvalidExport)
             else if !HasSchema(old(db)) then Err(SchemaRequired)
             else Ok(())
    {
      hide Integrity, Normalizes, ValidSnapshot, GoldFits, Normal, Holds, Fits, AcceptsTables, AllRecipeRows, AllMaterialRows, AllOptionRows, Vnums, AddedTables, Kept;
      var exported;
      exported, normal := ExportCubeRecipeState(snapshot);
      if exported.Err? {
        return Err(InvalidExport), normal;
      }
      NormalizedIsNormal(snapshot, normal);
      NormalIsAccepted(normal);
      if faults(Begin) {
        return Err(Driver), normal;
      }
      var schema := RequireSchema(db.ledger, CUBE_SCHEMA, faults);
      if !schema {
        return Err(SchemaRequired), normal;
      }
      var tx := DeleteRows(db, None, faults);
      if tx.Err? {
        return Err(tx.error), normal;
      }
      ClearedKeepsIntegrity(db, None);
      AllCleared(db);
      FreeRowsFit(tx.value, exported.value);
      tx := InsertTables(tx.value, exported.value, faults);
      if tx.Err? {
        return Err(tx.error), normal;
      }
      if faults(Commit) {
        return Err(Driver), normal;
      }
      AddedKeepsIntegrity(Cleared(db, None), exported.value);
      OnlyTheseRows(db.ledger, exported.value);
      SameLedger(Cleared(db, None), exported.value);
      db := tx.value;
      return Ok(()), normal;
    }

    /** Reads the catalogue back: it succeeds exactly when the tables are those of a snapshot, and returns that one. */
    method Load(faults: Faults) returns (r: Result<Snapshot, SqlError>)
      requires Integrity(db)
      ensures r.Ok? ==> HasSchema(db) && Normal(r.value) && Holds(db, Flatten(r.value.npcs))
      ensures Healthy(faults) ==>
        (r.Ok? <==> HasSchema(db) && exists s :: Normal(s) && Holds(db, Flatten(s.npcs)))
      ensures Healthy(faults) && r.Err? ==> r.error == if HasSchema(db) then InvalidStored else SchemaRequired
    {
      hide Integrity, Normal, Holds, Accepts, Dense, AllRecipeRows, AllMaterialRows, AllOptionRows, Vnums, Sorted;
      if faults(Begin) {
        return Err(Driver);
      }
      var t := QueryCubeRecipeState(db, faults);
      if t.Err? {
        return Err(t.error);
      }
      var e := CubeExport(MIGRATION_VERSION, MIGRATION_NAME, [], Some(t.value.npcs), Some(t.value.recipes),
        Some(t.value.materials), Some(t.value.options));
      var snapshot, c := SnapshotFromCubeRecipeState(e);
      if Accepts(e) {
        CanonicalOfSorted(e, c);
      }
      if exists s :: Normal(s) && Holds(db, Flatten(s.npcs)) {
        ghost var s :| Normal(s) && Holds(db, Flatten(s.npcs));
        StoredIsReadable(db, s, e);
      }
      if snapshot.Err? {
        return Err(InvalidStored);
      }
      if faults(Commit) {
        return Err(Driver);
      }
      return Ok(snapshot.value);
    }

    /**
     * Imports a retained export. With replace, its declared NPCs end up with exactly its canonical rows, an NPC
     * without rows empty, and every other NPC is left alone; without, it only adds, and refuses to touch an NPC
     * that is already there.
     */
    method Import(e: CubeExport, replace: bool, faults: Faults) returns (r: Result<ImportResult, SqlError>, ghost c: Canonical)
      requires Integrity(db)
      modifies this
      ensures Integrity(db) && db.ledger == old(db.ledger)
      ensures r.Err? ==> db == old(db)
      ensures r.Ok? ==> HasSchema(old(db)) && Accepts(e) && CanonicalOf(e, c)
      ensures r.Ok? && replace ==> Replaced(old(db), db, c)
      ensures r.Ok? && !replace ==> Extended(old(db), db, c.tables)
      ensures Healthy(faults) ==>
        (r.Ok? <==> HasSchema(old(db)) && Accepts(e) && (replace || forall v | v in e.npcs.value :: IdKey(v) !in old(db).npcs))
      ensures Healthy(faults) && r.Err? ==>
        r.error == if !Accepts(e) then InvalidExport else if !HasSchema(old(db)) then SchemaRequired else Constraint
      ensures r.Ok? ==> r.value == ImportResult(|e.npcs.value|, |e.recipes.value|, |e.materials.value|, |e.options.value|, c.npcVnums, replace)
    {
      hide Integrity, Fits, AcceptsTables, AddedTables, OutsideScope, Replaced, Extended, CanonicalOf;
      var canonical := Canonicalize(e);
      if canonical.Err? {
        c := Canonical([], Tables([], [], [], []));
        return Err(InvalidExport), c;
      }
      c := canonical.value;
      CanonicalRows(e, c);
      if faults(Begin) {
        return Err(Driver), c;
      }
      var schema := RequireSchema(db.ledger, CUBE_SCHEMA, faults);
      if !schema {
        return Err(SchemaRequired), c;
      }
      var tx := db;
      if replace {
        var cleared := DeleteScope(db, canonical.value.npcVnums, faults);
        if cleared.Err? {
          return Err(cleared.error), c;
        }
        tx := cleared.value;
        ScopeIsFree(db, c);
      }
      ghost var base := tx;
      if forall v | v in c.tables.npcs :: IdKey(v) !in base.npcs {
        FreeRowsFit(base, c.tables);
      }
      var inserted := InsertTables(tx, canonical.value.tables, faults);
      if inserted.Err? {
        return Err(inserted.error), c;
      }
      if faults(Commit) {
        return Err(Driver), c;
      }
      AddedKeepsIntegrity(base, c.tables);
      SameLedger(base, c.tables);
      OutsideLedger(db, c.npcVnums);
      FitsMeansFree(base, c.tables);
      if replace {
        ReplacedTables(db, c);
      } else {
        ExtendedTables(db, c.tables);
      }
      db := inserted.value;
      var t := canonical.value.tables;
      return Ok(ImportResult(|t.npcs|, |t.recipes|, |t.materials|, |t.options|, canonical.value.npcVnums, replace)), c;
    }

    /** Whatever was stored before, a snapshot that was saved is loaded back in normal form. */
    method SaveThenLoad(snapshot: Snapshot, faults: Faults) returns (r: Result<Snapshot, SqlError>, ghost normal: Snapshot)
      requires Integrity(db) && Healthy(faults) && HasSchema(db)
      modifies this
      ensures Normalizes(snapshot, normal)
      ensures ValidSnapshot(normal) && GoldFits(normal) ==> r == Ok(normal)
      ensures !(ValidSnapshot(normal) && GoldFits(normal)) ==> r.Err? && db == old(db)
    {
      hide Integrity, Normalizes, ValidSnapshot, GoldFits, Normal, Holds, AllRecipeRows, AllMaterialRows, AllOptionRows, Vnums;
      var saved;
      saved, normal := Save(snapshot, faults);
      if saved.Err? {
        return Err(saved.error), normal;
      }
      r := Load(faults);
      StoredOnce(db, normal, r.value);
    }
  }

  lemma SameLedger(db: Db, t: Tables)
    ensures AddedTables(db, t).ledger == db.ledger
  {
  }

  lemma OutsideLedger(db: Db, scope: seq<Uint32>)
    ensures OutsideScope(db, scope).ledger == db.ledger
  {
  }

  lemma CanonicalOfSorted(e: CubeExport, c: Canonical)
    requires Complete(e) && CanonicalOf(e, c) && SortedTables(TablesOf(e))
    ensures c.tables == TablesOf(e)
  {
    SortedTablesUnique(c.tables, TablesOf(e));
  }

  /** The rows read from a database that holds a snapshot are accepted and without gaps. */
  lemma StoredIsReadable(db: Db, s: Snapshot, e: CubeExport)
    requires Normal(s) && Holds(db, Flatten(s.npcs))
    requires Complete(e) && e.migrationVersion == MIGRATION_VERSION && e.migrationName == MIGRATION_NAME && e.npcVnums == []
    requires SortedTables(TablesOf(e)) && Holds(db, TablesOf(e))
    ensures Accepts(e) && Dense(TablesOf(e))
  {
    hide Holds, Normal, Dense, AcceptsTables, AllRecipeRows, AllMaterialRows, AllOptionRows, Vnums, WellGrouped, SortedTables;
    NormalIsAccepted(s);
    HeldTablesUnique(db, Flatten(s.npcs), TablesOf(e));
    NormalGrouped(s);
    FlattenIsDense(s.npcs);
  }

  lemma CanonicalRows(e: CubeExport, c: Canonical)
    requires Accepts(e) && CanonicalOf(e, c)
    ensures AcceptsTables(c.tables) && (forall v | v in c.tables.npcs :: v in c.npcVnums)
    ensures forall v :: v in c.tables.npcs <==> v in e.npcs.value
    ensures |c.tables.npcs| == |e.npcs.value| && |c.tables.recipes| == |e.recipes.value|
    ensures |c.tables.materials| == |e.materials.value| && |c.tables.options| == |e.options.value|
  {
    hide AcceptsTables;
    AcceptsTablesPermute(TablesOf(e), c.tables);
    InMultiset(c.tables.npcs, e.npcs.value);
    InMultiset(c.tables.recipes, e.recipes.value);
    InMultiset(c.tables.materials, e.materials.value);
    InMultiset(c.tables.options, e.options.value);
  }

  lemma ScopeIsFree(db: Db, c: Canonical)
    requires Integrity(db) && forall v | v in c.tables.npcs :: v in c.npcVnums
    ensures Integrity(OutsideScope(db, c.npcVnums))
    ensures forall v | v in c.tables.npcs :: IdKey(v) !in OutsideScope(db, c.npcVnums).npcs
  {
    hide Integrity;
    OutsideKeepsIntegrity(db, c.npcVnums);
  }

  lemma FitsMeansFree(db: Db, t: Tables)
    requires Fits(db, t)
    ensures forall v | v in t.npcs :: IdKey(v) !in db.npcs
  {
    hide Added, LegalRecipe, LegalMaterial, LegalOption;
  }
}
