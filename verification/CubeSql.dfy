/** The cube tables and their constraints. */
module CubeSql {
  import opened Results
  import opened Ordered
  import opened Integers
  import opened Ids
  import opened CubeModel
  import opened CubeFlatten
  import opened CubeQuarantine
  import opened CubeCanonical
  import opened CubeRebuild
  import opened CubeNormal
  import opened CubeRoundTrip
  import opened SqlTables

  // ---------------------------------------------------------------------------------------------
  // The database.
  // ---------------------------------------------------------------------------------------------

  const CUBE_SCHEMA := Applied(MIGRATION_VERSION, MIGRATION_NAME)

  datatype Db = Db(ledger: seq<Applied>, npcs: Table<Uint32>, recipes: Table<RecipeRow>,
                   materials: Table<MaterialRow>, options: Table<OptionRow>)

  function ParentRecipe(npc: Uint32, recipe: int): Key {
    Key(npc, recipe, 0, 0)
  }

  // What an INSERT must satisfy: the CHECK constraints and the foreign key of its table.

  predicate LegalRecipe(db: Db, r: RecipeRow) {
    r.npc != 0 && ValidRecipeRow(r) && IdKey(r.npc) in db.npcs
  }

  predicate LegalMaterial(db: Db, r: MaterialRow) {
    r.npc != 0 && r.recipe >= 0 && ValidMaterialRow(r) && ParentRecipe(r.npc, r.recipe) in db.recipes
  }

  predicate LegalOption(db: Db, r: OptionRow) {
    r.npc != 0 && r.recipe >= 0 && ValidOptionRow(r) && ParentRecipe(r.npc, r.recipe) in db.recipes
  }

  /** Every row under its own key and within its constraints. */
  ghost predicate Integrity(db: Db) {
    && (forall k | k in db.npcs :: IdKey(db.npcs[k]) == k && db.npcs[k] != 0)
    && (forall k | k in db.recipes :: RecipeKey(db.recipes[k]) == k && LegalRecipe(db, db.recipes[k]))
    && (forall k | k in db.materials :: MaterialKey(db.materials[k]) == k && LegalMaterial(db, db.materials[k]))
    && (forall k | k in db.options :: OptionKey(db.options[k]) == k && LegalOption(db, db.options[k]))
  }

  function Cleared(db: Db, scope: Option<int>): Db {
    Db(db.ledger, Kept(db.npcs, scope), Kept(db.recipes, scope), Kept(db.materials, scope), Kept(db.options, scope))
  }

  predicate HasSchema(db: Db) {
    CUBE_SCHEMA in db.ledger
  }

  /** One DELETE, which the foreign keys of the child tables may refuse. */
  method DeleteFrom(db: Db, table: CubeTable, scope: Option<int>, faults: Faults) returns (r: Result<Db, SqlError>)
    ensures r.Ok? ==> r.value == match table
      case Npcs => db.(npcs := Kept(db.npcs, scope))
      case Recipes => db.(recipes := Kept(db.recipes, scope))
      case Materials => db.(materials := Kept(db.materials, scope))
      case Options => db.(options := Kept(db.options, scope))
    ensures r.Ok? ==> match table
      case Npcs => forall k | k in db.recipes :: !Doomed(scope, k)
      case Recipes => (forall k | k in db.materials :: !Doomed(scope, k)) && (forall k | k in db.options :: !Doomed(scope, k))
      case Materials => true
      case Options => true
    ensures r.Err? && Healthy(faults) ==> match table
      case Npcs => exists k | k in db.recipes :: Doomed(scope, k)
      case Recipes => (exists k | k in db.materials :: Doomed(scope, k)) || (exists k | k in db.options :: Doomed(scope, k))
      case Materials => false
      case Options => false
  {
    if faults(Delete(Cube(table), scope)) {
      return Err(Driver);
    }
    match table {
      case Options =>
        return Ok(db.(options := Kept(db.options, scope)));
      case Materials =>
        return Ok(db.(materials := Kept(db.materials, scope)));
      case Recipes =>
        if (exists k | k in db.materials :: Doomed(scope, k)) || (exists k | k in db.options :: Doomed(scope, k)) {
          return Err(Constraint);
        }
        return Ok(db.(recipes := Kept(db.recipes, scope)));
      case Npcs =>
        if exists k | k in db.recipes :: Doomed(scope, k) {
          return Err(Constraint);
        }
        return Ok(db.(npcs := Kept(db.npcs, scope)));
    }
  }

  /** The four DELETEs, children first: no foreign key ever refuses one. */
  method DeleteRows(db: Db, scope: Option<int>, faults: Faults) returns (r: Result<Db, SqlError>)
    ensures r.Ok? ==> r.value == Cleared(db, scope)
    ensures Healthy(faults) ==> r.Ok?
  {
    r := DeleteFrom(db, Options, scope, faults);
    if r.Err? {
      return;
    }
    r := DeleteFrom(r.value, Materials, scope, faults);
    if r.Err? {
      return;
    }
    r := DeleteFrom(r.value, Recipes, scope, faults);
    if r.Err? {
      return;
    }
    r := DeleteFrom(r.value, Npcs, scope, faults);
  }

  lemma ClearedKeepsIntegrity(db: Db, scope: Option<int>)
    requires Integrity(db)
    ensures Integrity(Cleared(db, scope))
  {
  }

  // ---------------------------------------------------------------------------------------------
  // Inserts.
  // ---------------------------------------------------------------------------------------------

  function AddedTables(db: Db, t: Tables): Db {
    Db(db.ledger, Added(db.npcs, t.npcs, IdKey), Added(db.recipes, t.recipes, RecipeKey),
      Added(db.materials, t.materials, MaterialKey), Added(db.options, t.options, OptionKey))
  }

  ghost predicate NpcsFit(db: Db, rows: seq<Uint32>) {
    Insertable(db.npcs, rows, IdKey) && forall i | 0 <= i < |rows| :: rows[i] != 0
  }

  ghost predicate RecipesFit(db: Db, rows: seq<RecipeRow>) {
    Insertable(db.recipes, rows, RecipeKey) && forall i | 0 <= i < |rows| :: LegalRecipe(db, rows[i])
  }

  ghost predicate MaterialsFit(db: Db, rows: seq<MaterialRow>) {
    Insertable(db.materials, rows, MaterialKey) && forall i | 0 <= i < |rows| :: LegalMaterial(db, rows[i])
  }

  ghost predicate OptionsFit(db: Db, rows: seq<OptionRow>) {
    Insertable(db.options, rows, OptionKey) && forall i | 0 <= i < |rows| :: LegalOption(db, rows[i])
  }

  function WithNpcs(db: Db, t: Tables): Db {
    db.(npcs := Added(db.npcs, t.npcs, IdKey))
  }

  function WithRecipes(db: Db, t: Tables): Db {
    db.(recipes := Added(db.recipes, t.recipes, RecipeKey))
  }

  function WithMaterials(db: Db, t: Tables): Db {
    db.(materials := Added(db.materials, t.materials, MaterialKey))
  }

  function WithOptions(db: Db, t: Tables): Db {
    db.(options := Added(db.options, t.options, OptionKey))
  }

  /** The rows can be inserted in this order: each table's rows under the parents inserted before them. */
  ghost predicate Fits(db: Db, t: Tables) {
    var parents := WithRecipes(WithNpcs(db, t), t);
    NpcsFit(db, t.npcs) && RecipesFit(WithNpcs(db, t), t.recipes) && MaterialsFit(parents, t.materials) && OptionsFit(parents, t.options)
  }

  method InsertNpcs(db: Db, t: Tables, faults: Faults) returns (r: Result<Db, SqlError>)
    ensures r.Ok? ==> NpcsFit(db, t.npcs) && r.value == WithNpcs(db, t)
    ensures Healthy(faults) && NpcsFit(db, t.npcs) ==> r.Ok?
    ensures Healthy(faults) && r.Err? ==> r.error == Constraint
  {
    hide Insertable, Added;
    var rows := InsertRows(db.npcs, t.npcs, IdKey, (v: Uint32) => v != 0, Cube(Npcs), faults);
    return if rows.Ok? then Ok(db.(npcs := rows.value)) else Err(rows.error);
  }

  method InsertRecipes(db: Db, t: Tables, faults: Faults) returns (r: Result<Db, SqlError>)
    ensures r.Ok? ==> RecipesFit(db, t.recipes) && r.value == WithRecipes(db, t)
    ensures Healthy(faults) && RecipesFit(db, t.recipes) ==> r.Ok?
    ensures Healthy(faults) && r.Err? ==> r.error == Constraint
  {
    hide Insertable, Added, LegalRecipe;
    var rows := InsertRows(db.recipes, t.recipes, RecipeKey, (row: RecipeRow) => LegalRecipe(db, row), Cube(Recipes), faults);
    return if rows.Ok? then Ok(db.(recipes := rows.value)) else Err(rows.error);
  }

  method InsertMaterials(db: Db, t: Tables, faults: Faults) returns (r: Result<Db, SqlError>)
    ensures r.Ok? ==> MaterialsFit(db, t.materials) && r.value == WithMaterials(db, t)
    ensures Healthy(faults) && MaterialsFit(db, t.materials) ==> r.Ok?
    ensures Healthy(faults) && r.Err? ==> r.error == Constraint
  {
    hide Insertable, Added, LegalMaterial;
    var rows := InsertRows(db.materials, t.materials, MaterialKey, (row: MaterialRow) => LegalMaterial(db, row), Cube(Materials), faults);
    return if rows.Ok? then Ok(db.(materials := rows.value)) else Err(rows.error);
  }

  method InsertOptions(db: Db, t: Tables, faults: Faults) returns (r: Result<Db, SqlError>)
    ensures r.Ok? ==> OptionsFit(db, t.options) && r.value == WithOptions(db, t)
    ensures Healthy(faults) && OptionsFit(db, t.options) ==> r.Ok?
    ensures Healthy(faults) && r.Err? ==> r.error == Constraint
  {
    hide Insertable, Added, LegalOption;
    var rows := InsertRows(db.options, t.options, OptionKey, (row: OptionRow) => LegalOption(db, row), Cube(Options), faults);
    return if rows.Ok? then Ok(db.(options := rows.value)) else Err(rows.error);
  }

  /** Materials change nothing an option's constraints look at. */
  lemma OptionsIgnoreMaterials(db: Db, t: Tables)
    ensures OptionsFit(WithMaterials(db, t), t.options) <==> OptionsFit(db, t.options)
  {
  }

  /** All INSERTs, parents first. */
  method InsertTables(db: Db, t: Tables, faults: Faults) returns (r: Result<Db, SqlError>)
    ensures r.Ok? ==> Fits(db, t) && r.value == AddedTables(db, t)
    ensures Healthy(faults) && Fits(db, t) ==> r.Ok?
    ensures Healthy(faults) && r.Err? ==> r.error == Constraint
  {
    hide Added, Insertable, NpcsFit, RecipesFit, MaterialsFit, OptionsFit;
    r := InsertNpcs(db, t, faults);
    if r.Err? {
      return;
    }
    r := InsertRecipes(r.value, t, faults);
    if r.Err? {
      return;
    }
    OptionsIgnoreMaterials(r.value, t);
    r := InsertMaterials(r.value, t, faults);
    if r.Err? {
      return;
    }
    r := InsertOptions(r.value, t, faults);
  }

  lemma AddedKeepsIntegrity(db: Db, t: Tables)
    requires Integrity(db) && Fits(db, t)
    ensures Integrity(AddedTables(db, t))
  {
    hide Added, Insertable, ValidRecipeRow, ValidMaterialRow, ValidOptionRow, KeyIn;
    AddedContents(db.npcs, t.npcs, IdKey);
    AddedContents(db.recipes, t.recipes, RecipeKey);
    AddedContents(db.materials, t.materials, MaterialKey);
    AddedContents(db.options, t.options, OptionKey);
  }
}
