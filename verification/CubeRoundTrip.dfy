/** Export and rebuild undo each other. */
module CubeRoundTrip {
  import opened Results
  import opened Ordered
  import opened Integers
  import opened Ids
  import opened CubeModel
  import opened CubeFlatten
  import opened CubeQuarantine
  import opened CubeCanonical
  import opened CubeRebuild
  import opened CubeNormal

  // ---------------------------------------------------------------------------------------------
  // The rebuild.
  // ---------------------------------------------------------------------------------------------

  /** The middle of the rebuild: NPCs, recipes, materials, options, in this order. */
  method BuildTables(t: Tables) returns (r: Result<seq<NpcRecipes>, RebuildError>)
    requires SortedTables(t) && AcceptsTables(t)
    ensures r.Ok? <==> Dense(t)
    ensures r.Ok? ==> Flatten(r.value) == t && WellGrouped(r.value)
  {
    hide DenseRecipeAt, DenseMaterialAt, DenseOptionAt, SortedTables, AcceptsGroups, HasRecipe, AllRecipeRows, AllMaterialRows, AllOptionRows;
    var npcs := BuildNpcs(t.npcs);
    r := BuildRecipes(t, npcs);
    if r.Err? {
      return;
    }
    r := BuildMaterials(t, r.value);
    if r.Err? {
      return;
    }
    r := BuildOptions(t, r.value);
  }

  /**
   * Rebuilds a snapshot from a retained export, whose canonical form the ghost result names. It succeeds exactly
   * on accepted rows without gaps: the validation and the export behind the rebuild never fail.
   */
  method SnapshotFromCubeRecipeState(e: CubeExport) returns (r: Result<Snapshot, RebuildError>, ghost c: Canonical)
    ensures Accepts(e) ==> CanonicalOf(e, c)
    ensures r.Ok? <==> Accepts(e) && Dense(c.tables)
    ensures r.Ok? ==> Flatten(r.value.npcs) == c.tables && Normal(r.value)
    ensures r.Ok? ==> Accepts(e) && Permutes(Flatten(r.value.npcs), TablesOf(e))
  {
    hide AcceptsTables, Dense, Normal, ValidSnapshot, GoldFits, Normalizes, AllRecipeRows, AllMaterialRows, AllOptionRows, WellGrouped;
    var canonical := Canonicalize(e);
    if canonical.Err? {
      c := Canonical([], Tables([], [], [], []));
      return Err(Rejected), c;
    }
    c := canonical.value;
    AcceptsTablesPermute(TablesOf(e), c.tables);
    var built := BuildTables(canonical.value.tables);
    if built.Err? {
      return Err(built.error), c;
    }
    var snapshot := Snapshot(built.value);
    BuiltIsNormal(c.tables, built.value);
    var normalized := NormalizeSnapshot(snapshot);
    NormalIsFixed(snapshot, normalized);
    NormalIsValid(snapshot);
    var valid := ValidateSnapshot(normalized);
    if !valid {
      return Err(InvalidResult), c;
    }
    var again, renormalized := ExportCubeRecipeState(normalized);
    NormalIsFixed(snapshot, renormalized);
    if again.Err? {
      return Err(InvalidResult), c;
    }
    return Ok(normalized), c;
  }

  lemma NormalIsValid(s: Snapshot)
    requires Normal(s)
    ensures ValidSnapshot(s) && GoldFits(s)
  {
  }

  lemma BuiltIsNormal(t: Tables, npcs: seq<NpcRecipes>)
    requires AcceptsTables(t) && SortedTables(t) && Flatten(npcs) == t && WellGrouped(npcs)
    ensures Normal(Snapshot(npcs))
  {
    hide AcceptsTables, Normal, AllRecipeRows, AllMaterialRows, AllOptionRows, WellGrouped, Vnums;
    SortedByVnums(npcs);
    AcceptedIsNormal(npcs);
  }

  // ---------------------------------------------------------------------------------------------
  // The round trips.
  // ---------------------------------------------------------------------------------------------

  /** A retained export that holds the rows of the tables, in any order, under any valid scope. */
  predicate Retains(e: CubeExport, t: Tables) {
    && e.migrationVersion == MIGRATION_VERSION && e.migrationName == MIGRATION_NAME
    && Complete(e) && ValidIds(e.npcVnums) && Permutes(TablesOf(e), t)
  }

  /**
   * The rows exported from a snapshot, in whatever order they were kept, are accepted and without gaps, and only the
   * normalised snapshot has them: rebuilding gives it back, empty NPCs and OR-recipes included.
   */
  lemma ExportThenRebuild(s: Snapshot, normal: Snapshot, e: CubeExport, c: Canonical)
    requires Normalizes(s, normal) && ValidSnapshot(normal) && GoldFits(normal)
    requires Retains(e, Flatten(normal.npcs))
    ensures Accepts(e)
    ensures CanonicalOf(e, c) ==> Dense(c.tables) && c.tables == Flatten(normal.npcs)
    ensures forall rebuilt: Snapshot | Normal(rebuilt) && Flatten(rebuilt.npcs) == Flatten(normal.npcs) :: rebuilt == normal
  {
    hide Normal, ValidSnapshot, GoldFits, Normalizes, AcceptsTables, Dense, AllRecipeRows, AllMaterialRows, AllOptionRows, Vnums, WellGrouped, Sorted;
    NormalizedIsNormal(s, normal);
    NormalIsAccepted(normal);
    AcceptsTablesPermute(Flatten(normal.npcs), TablesOf(e));
    NormalGrouped(normal);
    FlattenIsDense(normal.npcs);
    if CanonicalOf(e, c) {
      SortedTablesUnique(c.tables, Flatten(normal.npcs));
    }
    forall rebuilt: Snapshot | Normal(rebuilt) && Flatten(rebuilt.npcs) == Flatten(normal.npcs) ensures rebuilt == normal {
      NormalGrouped(rebuilt);
      FlattenInjective(rebuilt.npcs, normal.npcs);
    }
  }

  lemma NormalGrouped(s: Snapshot)
    requires Normal(s)
    ensures WellGrouped(s.npcs) && Sorted(s.npcs, VnumOf)
  {
    NormalIsWellGrouped(s);
  }

  lemma SortedTablesUnique(a: Tables, b: Tables)
    requires SortedTables(a) && SortedTables(b) && Permutes(a, b)
    ensures a == b
  {
    SortIsUnique(a.npcs, b.npcs, IdKey);
    SortIsUnique(a.recipes, b.recipes, RecipeKey);
    SortIsUnique(a.materials, b.materials, MaterialKey);
    SortIsUnique(a.options, b.options, OptionKey);
  }

  /**
   * Exporting what was rebuilt gives the canonical rows back, and their scope too exactly when every declared NPC
   * has a row of its own.
   */
  lemma RebuildThenExport(e: CubeExport, c: Canonical, rebuilt: Snapshot, normal: Snapshot)
    requires Accepts(e) && CanonicalOf(e, c)
    requires Normal(rebuilt) && Flatten(rebuilt.npcs) == c.tables
    requires Normalizes(rebuilt, normal)
    ensures ValidSnapshot(normal) && GoldFits(normal) && Flatten(normal.npcs) == c.tables
    ensures Flatten(normal.npcs).npcs == c.npcVnums <==> forall v | v in e.npcVnums :: v in e.npcs.value
  {
    hide ValidSnapshot, GoldFits, Normalizes, AcceptsTables, AllRecipeRows, AllMaterialRows, AllOptionRows, Vnums, WellGrouped;
    NormalIsFixed(rebuilt, normal);
    InMultiset(c.tables.npcs, e.npcs.value);
    if forall v | v in e.npcVnums :: v in e.npcs.value {
      SortedHasDistinctKeys(c.npcVnums, IdKey);
      SortedHasDistinctKeys(c.tables.npcs, IdKey);
      SameRows(c.npcVnums, c.tables.npcs, IdKey);
      SortIsUnique(c.npcVnums, c.tables.npcs, IdKey);
    }
  }
}
