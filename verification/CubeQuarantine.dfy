/** The canonical form of a cube export. */
module CubeQuarantine {
  import opened Results
  import opened Ordered
  import opened Integers
  import opened Ids
  import opened CubeModel
  import opened CubeFlatten

  const MIGRATION_VERSION := 31
  const MIGRATION_NAME := "cube_recipe_state"

  /** A retained export; a table that the JSON leaves out is None. */
  datatype CubeExport = CubeExport(
    migrationVersion: int, migrationName: string, npcVnums: seq<Uint32>,
    npcs: Option<seq<Uint32>>, recipes: Option<seq<RecipeRow>>,
    materials: Option<seq<MaterialRow>>, options: Option<seq<OptionRow>>)

  /** A canonical export: the NPC scope and the four tables. */
  datatype Canonical = Canonical(npcVnums: seq<Uint32>, tables: Tables)

  function AsExport(c: Canonical): CubeExport {
    CubeExport(MIGRATION_VERSION, MIGRATION_NAME, c.npcVnums,
      Some(c.tables.npcs), Some(c.tables.recipes), Some(c.tables.materials), Some(c.tables.options))
  }

  // ---------------------------------------------------------------------------------------------
  // What is accepted, in terms of which rows there are and not of their order.
  // ---------------------------------------------------------------------------------------------

  predicate ValidRecipeRow(r: RecipeRow) {
    r.position >= 0 && r.rewardVnum != 0 && r.rewardCount != 0 && r.percent <= 100 && r.gold <= MAX_INT64
  }

  predicate ValidMaterialRow(r: MaterialRow) {
    r.position >= 0 && r.item != 0 && r.count != 0
  }

  predicate ValidOptionRow(r: OptionRow) {
    r.option >= 0 && r.position >= 0 && r.item != 0 && r.count != 0
  }

  predicate HasRecipe(recipes: seq<RecipeRow>, npc: Uint32, position: int) {
    exists r | r in recipes :: r.npc == npc && r.position == position
  }

  predicate AcceptsRecipes(t: Tables) {
    DistinctKeys(t.recipes, RecipeKey) && forall r | r in t.recipes :: r.npc in t.npcs && ValidRecipeRow(r)
  }

  predicate AcceptsMaterials(t: Tables) {
    DistinctKeys(t.materials, MaterialKey)
    && forall r | r in t.materials :: HasRecipe(t.recipes, r.npc, r.recipe) && ValidMaterialRow(r)
  }

  predicate AcceptsOptions(t: Tables) {
    DistinctKeys(t.options, OptionKey)
    && forall r | r in t.options :: HasRecipe(t.recipes, r.npc, r.recipe) && ValidOptionRow(r)
  }

  predicate HasOption(options: seq<OptionRow>, npc: Uint32, recipe: int, option: int) {
    exists r | r in options :: r.npc == npc && r.recipe == recipe && r.option == option
  }

  function AsMaterial(r: OptionRow): MaterialRow {
    MaterialRow(r.npc, r.recipe, r.position, r.item, r.count)
  }

  function AsFirstOption(r: MaterialRow): OptionRow {
    OptionRow(r.npc, r.recipe, 0, r.position, r.item, r.count)
  }

  /** The options of a recipe: at least two, numbered without gaps, the first one equal to the materials. */
  predicate AcceptsGroup(t: Tables, npc: Uint32, recipe: int) {
    && HasOption(t.options, npc, recipe, 1)
    && (forall r, j | r in t.options && r.npc == npc && r.recipe == recipe && 0 <= j < r.option :: HasOption(t.options, npc, recipe, j))
    && (forall r | r in t.options && r.npc == npc && r.recipe == recipe && r.option == 0 :: AsMaterial(r) in t.materials)
    && (forall r | r in t.materials && r.npc == npc && r.recipe == recipe :: AsFirstOption(r) in t.options)
  }

  predicate AcceptsGroups(t: Tables) {
    forall r | r in t.options :: AcceptsGroup(t, r.npc, r.recipe)
  }

  predicate AcceptsTables(t: Tables) {
    ValidIds(t.npcs) && AcceptsRecipes(t) && AcceptsMaterials(t) && AcceptsOptions(t) && AcceptsGroups(t)
  }

  predicate Complete(e: CubeExport) {
    e.npcs.Some? && e.recipes.Some? && e.materials.Some? && e.options.Some?
  }

  function TablesOf(e: CubeExport): Tables
    requires Complete(e)
  {
    Tables(e.npcs.value, e.recipes.value, e.materials.value, e.options.value)
  }

  predicate Accepts(e: CubeExport) {
    && e.migrationVersion == MIGRATION_VERSION && e.migrationName == MIGRATION_NAME
    && Complete(e) && ValidIds(e.npcVnums) && AcceptsTables(TablesOf(e))
  }

  /** The same rows in any order. */
  predicate Permutes(a: Tables, b: Tables) {
    && multiset(a.npcs) == multiset(b.npcs) && multiset(a.recipes) == multiset(b.recipes)
    && multiset(a.materials) == multiset(b.materials) && multiset(a.options) == multiset(b.options)
  }

  /** The canonical form of an export: its rows sorted by primary key, its scope sorted and merged with its NPCs. */
  predicate CanonicalOf(e: CubeExport, c: Canonical)
    requires Complete(e)
  {
    && Sorted(c.npcVnums, IdKey)
    && (forall v | v in c.npcVnums :: v in e.npcVnums || v in e.npcs.value)
    && (forall v | v in e.npcVnums :: v in c.npcVnums) && (forall v | v in e.npcs.value :: v in c.npcVnums)
    && SortedTables(c.tables) && Permutes(c.tables, TablesOf(e))
  }

  // ---------------------------------------------------------------------------------------------
  // The canonical form is unique, and a fixed point.
  // ---------------------------------------------------------------------------------------------

  lemma AcceptsTablesPermute(a: Tables, b: Tables)
    requires Permutes(a, b) && AcceptsTables(a)
    ensures AcceptsTables(b)
  {
    hide ValidRecipeRow, ValidMaterialRow, ValidOptionRow;
    InMultiset(a.npcs, b.npcs);
    InMultiset(a.recipes, b.recipes);
    InMultiset(a.materials, b.materials);
    InMultiset(a.options, b.options);
    DistinctKeysPermute(a.npcs, b.npcs, IdKey);
    DistinctKeysPermute(a.recipes, b.recipes, RecipeKey);
    DistinctKeysPermute(a.materials, b.materials, MaterialKey);
    DistinctKeysPermute(a.options, b.options, OptionKey);
    forall npc, position | HasRecipe(a.recipes, npc, position) ensures HasRecipe(b.recipes, npc, position) {
    }
    forall r | r in b.options ensures AcceptsGroup(b, r.npc, r.recipe) {
      GroupPermutes(a, b, r.npc, r.recipe);
    }
  }

  lemma GroupPermutes(a: Tables, b: Tables, npc: Uint32, recipe: int)
    requires Permutes(a, b) && AcceptsGroup(a, npc, recipe)
    ensures AcceptsGroup(b, npc, recipe)
  {
    InMultiset(a.materials, b.materials);
    InMultiset(a.options, b.options);
    forall j | HasOption(a.options, npc, recipe, j) ensures HasOption(b.options, npc, recipe, j) {
    }
  }

  /** Success does not depend on the order of any input row list. */
  lemma AcceptanceIgnoresOrder(e: CubeExport, f: CubeExport)
    requires Complete(e) && Complete(f)
    requires e.migrationVersion == f.migrationVersion && e.migrationName == f.migrationName
    requires multiset(e.npcVnums) == multiset(f.npcVnums) && Permutes(TablesOf(e), TablesOf(f))
    ensures Accepts(e) <==> Accepts(f)
  {
    InMultiset(e.npcVnums, f.npcVnums);
    DistinctKeysPermute(e.npcVnums, f.npcVnums, IdKey);
    if Accepts(e) {
      AcceptsTablesPermute(TablesOf(e), TablesOf(f));
    }
    if Accepts(f) {
      AcceptsTablesPermute(TablesOf(f), TablesOf(e));
    }
  }

  /** Neither does the result. */
  lemma CanonicalIgnoresOrder(e: CubeExport, f: CubeExport, c: Canonical, d: Canonical)
    requires Complete(e) && Complete(f) && CanonicalOf(e, c) && CanonicalOf(f, d)
    requires multiset(e.npcVnums) == multiset(f.npcVnums) && Permutes(TablesOf(e), TablesOf(f))
    ensures c == d
  {
    InMultiset(e.npcVnums, f.npcVnums);
    InMultiset(e.npcs.value, f.npcs.value);
    SameRows(c.npcVnums, d.npcVnums, IdKey);
    SortIsUnique(c.npcVnums, d.npcVnums, IdKey);
    SortIsUnique(c.tables.npcs, d.tables.npcs, IdKey);
    SortIsUnique(c.tables.recipes, d.tables.recipes, RecipeKey);
    SortIsUnique(c.tables.materials, d.tables.materials, MaterialKey);
    SortIsUnique(c.tables.options, d.tables.options, OptionKey);
  }

  /** A canonical export is accepted and is its own canonical form. */
  lemma CanonicalIsFixed(e: CubeExport, c: Canonical)
    requires Accepts(e) && CanonicalOf(e, c)
    ensures Accepts(AsExport(c)) && CanonicalOf(AsExport(c), c)
  {
    AcceptsTablesPermute(TablesOf(e), c.tables);
    InMultiset(c.tables.npcs, e.npcs.value);
    assert TablesOf(AsExport(c)) == c.tables;
  }
}
