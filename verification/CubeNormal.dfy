/** Valid snapshots in normal form: their tables are accepted and without gaps, and accepted rows rebuild into one. */
module CubeNormal {
  import opened Results
  import opened Ordered
  import opened Integers
  import opened Ids
  import opened CubeModel
  import opened CubeFlatten
  import opened CubeQuarantine
  import opened CubeCanonical
  import opened CubeRebuild

  // ---------------------------------------------------------------------------------------------
  // Accepted rows rebuild into a valid snapshot in normal form.
  // ---------------------------------------------------------------------------------------------

  /** Valid, in ascending order, materials filled in, gold within the SQL column. */
  predicate Normal(s: Snapshot) {
    ValidSnapshot(s) && GoldFits(s) && Sorted(s.npcs, VnumOf) && Filled(s.npcs)
  }

  lemma FirstOptionIsMaterial(npcs: seq<NpcRecipes>, i: nat, j: nat, m: nat)
    requires Sorted(npcs, VnumOf) && i < |npcs| && j < |npcs[i].recipes| && AcceptsGroup(Flatten(npcs), npcs[i].npcVnum, j)
    requires npcs[i].recipes[j].options != [] && m < |npcs[i].recipes[j].options[0]|
    ensures m < |npcs[i].recipes[j].materials| && npcs[i].recipes[j].options[0][m] == npcs[i].recipes[j].materials[m]
  {
    hide AllRecipeRows, AllMaterialRows, AllOptionRows;
    OptionInTables(npcs, i, j, 0, m);
    var material := npcs[i].recipes[j].options[0][m];
    var row := OptionRow(npcs[i].npcVnum, j, 0, m, material.vnum, material.count);
    assert AsMaterial(row) in AllMaterialRows(npcs);
    MaterialOfRow(npcs, i, AsMaterial(row));
  }

  lemma MaterialIsFirstOption(npcs: seq<NpcRecipes>, i: nat, j: nat, m: nat)
    requires Sorted(npcs, VnumOf) && i < |npcs| && j < |npcs[i].recipes| && AcceptsGroup(Flatten(npcs), npcs[i].npcVnum, j)
    requires npcs[i].recipes[j].options != [] && m < |npcs[i].recipes[j].materials|
    ensures m < |npcs[i].recipes[j].options[0]|
  {
    hide AllRecipeRows, AllMaterialRows, AllOptionRows;
    MaterialInTables(npcs, i, j, m);
    var material := npcs[i].recipes[j].materials[m];
    var row := MaterialRow(npcs[i].npcVnum, j, m, material.vnum, material.count);
    assert AsFirstOption(row) in AllOptionRows(npcs);
    OptionOfRow(npcs, i, AsFirstOption(row));
  }

  lemma OptionsOfAcceptedRecipe(npcs: seq<NpcRecipes>, i: nat, j: nat)
    requires Sorted(npcs, VnumOf) && WellGrouped(npcs) && AcceptsGroups(Flatten(npcs))
    requires i < |npcs| && j < |npcs[i].recipes| && npcs[i].recipes[j].options != []
    ensures var recipe := npcs[i].recipes[j]; |recipe.options| >= 2 && recipe.materials == recipe.options[0]
  {
    hide AllRecipeRows, AllMaterialRows, AllOptionRows, WellGrouped;
    FirstGroupNonEmpty(npcs, i, j);
    OptionInTables(npcs, i, j, 0, 0);
    assert AcceptsGroup(Flatten(npcs), npcs[i].npcVnum, j);
    SecondOption(npcs, i, j);
    var materials, first := npcs[i].recipes[j].materials, npcs[i].recipes[j].options[0];
    if |materials| > |first| {
      MaterialIsFirstOption(npcs, i, j, |first|);
    } else if |first| > |materials| {
      FirstOptionIsMaterial(npcs, i, j, |materials|);
    }
    forall m | 0 <= m < |first| ensures materials[m] == first[m] {
      FirstOptionIsMaterial(npcs, i, j, m);
    }
  }

  lemma FirstGroupNonEmpty(npcs: seq<NpcRecipes>, i: nat, j: nat)
    requires WellGrouped(npcs) && i < |npcs| && j < |npcs[i].recipes| && npcs[i].recipes[j].options != []
    ensures npcs[i].recipes[j].options[0] != []
  {
    assert NonEmptyGroups(npcs[i].recipes[j].options);
  }

  lemma SecondOption(npcs: seq<NpcRecipes>, i: nat, j: nat)
    requires Sorted(npcs, VnumOf) && i < |npcs| && j < |npcs[i].recipes|
    requires HasOption(AllOptionRows(npcs), npcs[i].npcVnum, j, 1)
    ensures |npcs[i].recipes[j].options| >= 2
  {
    var row :| row in AllOptionRows(npcs) && row.npc == npcs[i].npcVnum && row.recipe == j && row.option == 1;
    OptionOfRow(npcs, i, row);
  }

  lemma GroupOfAcceptedRecipe(npcs: seq<NpcRecipes>, i: nat, j: nat, o: nat)
    requires AcceptsOptions(Flatten(npcs))
    requires i < |npcs| && j < |npcs[i].recipes| && o < |npcs[i].recipes[j].options|
    ensures ValidMaterials(npcs[i].recipes[j].options[o])
  {
    hide AllRecipeRows, AllMaterialRows, AllOptionRows;
    forall m | 0 <= m < |npcs[i].recipes[j].options[o]|
      ensures npcs[i].recipes[j].options[o][m].vnum != 0 && npcs[i].recipes[j].options[o][m].count != 0
    {
      OptionInTables(npcs, i, j, o, m);
      var material := npcs[i].recipes[j].options[o][m];
      assert ValidOptionRow(OptionRow(npcs[i].npcVnum, j, o, m, material.vnum, material.count));
    }
  }

  lemma AcceptedMaterials(npcs: seq<NpcRecipes>, i: nat, j: nat)
    requires AcceptsMaterials(Flatten(npcs)) && i < |npcs| && j < |npcs[i].recipes|
    ensures ValidMaterials(npcs[i].recipes[j].materials)
  {
    hide AllRecipeRows, AllMaterialRows, AllOptionRows;
    forall m | 0 <= m < |npcs[i].recipes[j].materials|
      ensures npcs[i].recipes[j].materials[m].vnum != 0 && npcs[i].recipes[j].materials[m].count != 0
    {
      MaterialInTables(npcs, i, j, m);
      var material := npcs[i].recipes[j].materials[m];
      assert ValidMaterialRow(MaterialRow(npcs[i].npcVnum, j, m, material.vnum, material.count));
    }
  }

  lemma AcceptedRecipe(npcs: seq<NpcRecipes>, i: nat, j: nat)
    requires Sorted(npcs, VnumOf) && WellGrouped(npcs) && AcceptsTables(Flatten(npcs))
    requires i < |npcs| && j < |npcs[i].recipes|
    ensures ValidRecipe(npcs[i].recipes[j]) && npcs[i].recipes[j].gold <= MAX_INT64
    ensures npcs[i].recipes[j].options != [] ==> npcs[i].recipes[j].materials == npcs[i].recipes[j].options[0]
  {
    hide AllRecipeRows, AllMaterialRows, AllOptionRows, AcceptsGroups, ValidMaterials;
    RecipeInTables(npcs, i, j);
    assert ValidRecipeRow(RecipeRowOf(npcs[i].npcVnum, j, npcs[i].recipes[j]));
    AcceptedMaterials(npcs, i, j);
    var options := npcs[i].recipes[j].options;
    if options != [] {
      OptionsOfAcceptedRecipe(npcs, i, j);
      assert NonEmptyGroups(options);
      forall o | 0 <= o < |options| ensures options[o] != [] && ValidMaterials(options[o]) {
        GroupOfAcceptedRecipe(npcs, i, j, o);
      }
    }
  }

  /** What quarantine accepts is valid once rebuilt: the checks behind the rebuild never fail. */
  lemma AcceptedIsNormal(npcs: seq<NpcRecipes>)
    requires Sorted(npcs, VnumOf) && WellGrouped(npcs) && AcceptsTables(Flatten(npcs))
    ensures Normal(Snapshot(npcs))
  {
    hide ValidRecipe, AcceptsRecipes, AcceptsMaterials, AcceptsOptions, AcceptsGroups, AllRecipeRows, AllMaterialRows, AllOptionRows, WellGrouped;
    SortedHasDistinctKeys(npcs, VnumOf);
    forall i, j | 0 <= i < |npcs| && 0 <= j < |npcs[i].recipes|
      ensures ValidRecipe(npcs[i].recipes[j]) && npcs[i].recipes[j].gold <= MAX_INT64
      ensures npcs[i].recipes[j].options != [] ==> npcs[i].recipes[j].materials == npcs[i].recipes[j].options[0]
    {
      AcceptedRecipe(npcs, i, j);
    }
    forall i | 0 <= i < |npcs| ensures npcs[i].npcVnum != 0 {
      assert Vnums(npcs)[i] in Vnums(npcs);
    }
  }

  // ---------------------------------------------------------------------------------------------
  // Normalisation.
  // ---------------------------------------------------------------------------------------------

  lemma FilledIsFixed(npcs: seq<NpcRecipes>)
    requires Filled(npcs)
    ensures FillNpcs(npcs) == npcs
  {
    hide FillNpcs, FillRecipes;
    forall i | 0 <= i < |npcs| ensures FillNpc(npcs[i]) == npcs[i] {
      assert FillRecipes(npcs[i].recipes) == npcs[i].recipes;
    }
  }

  /** A snapshot in normal form is its own and only normal form. */
  lemma NormalIsFixed(s: Snapshot, normal: Snapshot)
    requires Normal(s)
    ensures Normalizes(s, normal) <==> normal == s
  {
    FilledIsFixed(s.npcs);
    if Normalizes(s, normal) {
      SortIsUnique(normal.npcs, s.npcs, VnumOf);
    }
  }

  /** A valid normalisation is in normal form. */
  lemma NormalizedIsNormal(s: Snapshot, normal: Snapshot)
    requires Normalizes(s, normal) && ValidSnapshot(normal) && GoldFits(normal)
    ensures Normal(normal)
  {
    hide FillNpcs;
    AscendingDistinct(normal.npcs, VnumOf);
    InMultiset(normal.npcs, FillNpcs(s.npcs));
    forall i, j | 0 <= i < |normal.npcs| && 0 <= j < |normal.npcs[i].recipes| && normal.npcs[i].recipes[j].options != []
      ensures normal.npcs[i].recipes[j].materials == normal.npcs[i].recipes[j].options[0]
    {
      assert normal.npcs[i] in normal.npcs;
      FilledOrGiven(s.npcs, normal.npcs[i], j);
      assert ValidRecipe(normal.npcs[i].recipes[j]);
    }
  }

  lemma FilledOrGiven(npcs: seq<NpcRecipes>, npc: NpcRecipes, j: nat)
    requires npc in FillNpcs(npcs) && j < |npc.recipes| && npc.recipes[j].options != []
    ensures npc.recipes[j].materials == npc.recipes[j].options[0] || npc.recipes[j].materials != []
  {
    hide FillNpcs, FillRecipes;
    var i :| 0 <= i < |npcs| && FillNpcs(npcs)[i] == npc;
    assert npc.recipes[j] == FillMaterials(npcs[i].recipes[j]);
  }

  /** However the sort breaks ties, a valid normal form is the only one. */
  lemma NormalizationIsUnique(s: Snapshot, a: Snapshot, b: Snapshot)
    requires Normalizes(s, a) && Normalizes(s, b) && ValidSnapshot(a)
    ensures a == b
  {
    AscendingDistinct(a.npcs, VnumOf);
    SortIsUnique(b.npcs, a.npcs, VnumOf);
  }

  lemma NormalIsWellGrouped(s: Snapshot)
    requires Normal(s)
    ensures WellGrouped(s.npcs)
  {
    forall i, j | 0 <= i < |s.npcs| && 0 <= j < |s.npcs[i].recipes| ensures NonEmptyGroups(s.npcs[i].recipes[j].options) {
      assert ValidRecipe(s.npcs[i].recipes[j]);
    }
  }

  // ---------------------------------------------------------------------------------------------
  // The tables of a normal snapshot are accepted.
  // ---------------------------------------------------------------------------------------------

  lemma RecipeOfRow(npcs: seq<NpcRecipes>, row: RecipeRow) returns (i: nat)
    requires row in AllRecipeRows(npcs)
    ensures i < |npcs| && 0 <= row.position < |npcs[i].recipes|
    ensures row == RecipeRowOf(npcs[i].npcVnum, row.position, npcs[i].recipes[row.position])
  {
    InAllRecipeRows(npcs, row);
    i :| 0 <= i < |npcs| && row in RecipeRows(npcs[i].npcVnum, npcs[i].recipes);
    InRecipeRows(npcs[i].npcVnum, npcs[i].recipes, row);
  }

  lemma VnumIn(npcs: seq<NpcRecipes>, vnum: Uint32) returns (i: nat)
    requires vnum in Vnums(npcs)
    ensures i < |npcs| && npcs[i].npcVnum == vnum
  {
    i :| 0 <= i < |npcs| && Vnums(npcs)[i] == vnum;
  }

  lemma HasRecipeOf(npcs: seq<NpcRecipes>, i: nat, j: nat)
    requires i < |npcs| && j < |npcs[i].recipes|
    ensures HasRecipe(AllRecipeRows(npcs), npcs[i].npcVnum, j)
  {
    RecipeInTables(npcs, i, j);
  }

  lemma NormalRecipesAccepted(s: Snapshot)
    requires Normal(s)
    ensures AcceptsRecipes(Flatten(s.npcs))
  {
    FlattenSorted(s.npcs);
    hide AllMaterialRows, AllOptionRows, AllRecipeRows, Vnums;
    SortedHasDistinctKeys(AllRecipeRows(s.npcs), RecipeKey);
    forall row | row in AllRecipeRows(s.npcs) ensures ValidRecipeRow(row) {
      var i := RecipeOfRow(s.npcs, row);
      assert ValidRecipe(s.npcs[i].recipes[row.position]);
    }
  }

  lemma NormalMaterialsAccepted(s: Snapshot)
    requires Normal(s)
    ensures AcceptsMaterials(Flatten(s.npcs))
  {
    FlattenSorted(s.npcs);
    hide AllMaterialRows, AllOptionRows, AllRecipeRows, Vnums;
    SortedHasDistinctKeys(AllMaterialRows(s.npcs), MaterialKey);
    forall row | row in AllMaterialRows(s.npcs) ensures ValidMaterialRow(row) && HasRecipe(AllRecipeRows(s.npcs), row.npc, row.recipe) {
      var i := VnumIn(s.npcs, row.npc);
      MaterialOfRow(s.npcs, i, row);
      HasRecipeOf(s.npcs, i, row.recipe);
      assert ValidRecipe(s.npcs[i].recipes[row.recipe]);
    }
  }

  lemma NormalOptionsAccepted(s: Snapshot)
    requires Normal(s)
    ensures AcceptsOptions(Flatten(s.npcs))
  {
    FlattenSorted(s.npcs);
    hide AllMaterialRows, AllOptionRows, AllRecipeRows, Vnums;
    SortedHasDistinctKeys(AllOptionRows(s.npcs), OptionKey);
    forall row | row in AllOptionRows(s.npcs) ensures ValidOptionRow(row) && HasRecipe(AllRecipeRows(s.npcs), row.npc, row.recipe) {
      var i := VnumIn(s.npcs, row.npc);
      OptionOfRow(s.npcs, i, row);
      HasRecipeOf(s.npcs, i, row.recipe);
      assert ValidRecipe(s.npcs[i].recipes[row.recipe]);
      assert ValidMaterials(s.npcs[i].recipes[row.recipe].options[row.option]);
    }
  }

  /** An OR-recipe of a normal snapshot passes the group checks. */
  lemma NormalGroupAccepted(s: Snapshot, i: nat, j: nat)
    requires Normal(s) && i < |s.npcs| && j < |s.npcs[i].recipes| && s.npcs[i].recipes[j].options != []
    ensures AcceptsGroup(Flatten(s.npcs), s.npcs[i].npcVnum, j)
  {
    hide AllMaterialRows, AllOptionRows, AllRecipeRows, ValidSnapshot, GoldFits, Vnums;
    NormalIsWellGrouped(s);
    var npcs, vnum, recipe := s.npcs, s.npcs[i].npcVnum, s.npcs[i].recipes[j];
    TwoOptions(s, i, j);
    forall o: nat | o < |recipe.options| ensures HasOption(AllOptionRows(npcs), vnum, j, o) {
      assert NonEmptyGroups(recipe.options);
      OptionInTables(npcs, i, j, o, 0);
    }
    forall r | r in AllOptionRows(npcs) && r.npc == vnum && r.recipe == j
      ensures 0 <= r.option < |recipe.options| && (r.option == 0 ==> AsMaterial(r) in AllMaterialRows(npcs))
    {
      OptionOfRow(npcs, i, r);
      if r.option == 0 {
        MaterialInTables(npcs, i, j, r.position);
      }
    }
    forall r | r in AllMaterialRows(npcs) && r.npc == vnum && r.recipe == j ensures AsFirstOption(r) in AllOptionRows(npcs) {
      MaterialOfRow(npcs, i, r);
      OptionInTables(npcs, i, j, 0, r.position);
    }
  }

  lemma TwoOptions(s: Snapshot, i: nat, j: nat)
    requires ValidSnapshot(s) && i < |s.npcs| && j < |s.npcs[i].recipes| && s.npcs[i].recipes[j].options != []
    ensures |s.npcs[i].recipes[j].options| >= 2
  {
    assert ValidRecipe(s.npcs[i].recipes[j]);
  }

  /** The export of a normal snapshot is accepted by its own quarantine. */
  lemma NormalIsAccepted(s: Snapshot)
    requires Normal(s)
    ensures AcceptsTables(Flatten(s.npcs)) && SortedTables(Flatten(s.npcs))
  {
    FlattenSorted(s.npcs);
    hide AllMaterialRows, AllOptionRows, AllRecipeRows, AcceptsRecipes, AcceptsMaterials, AcceptsOptions, AcceptsGroup, Vnums;
    SortedHasDistinctKeys(Vnums(s.npcs), IdKey);
    forall i | 0 <= i < |s.npcs| ensures Vnums(s.npcs)[i] != 0 {
      assert ValidNpc(s.npcs[i]);
    }
    NormalRecipesAccepted(s);
    NormalMaterialsAccepted(s);
    NormalOptionsAccepted(s);
    forall r | r in AllOptionRows(s.npcs) ensures AcceptsGroup(Flatten(s.npcs), r.npc, r.recipe) {
      var i := VnumIn(s.npcs, r.npc);
      OptionOfRow(s.npcs, i, r);
      NormalGroupAccepted(s, i, r.recipe);
    }
  }

  // ---------------------------------------------------------------------------------------------
  // The tables of a snapshot are dense.
  // ---------------------------------------------------------------------------------------------

  predicate DenseRecipes(rows: seq<RecipeRow>) {
    forall k | 0 <= k < |rows| :: DenseRecipeAt(rows, k)
  }

  predicate DenseMaterials(rows: seq<MaterialRow>) {
    forall k | 0 <= k < |rows| :: DenseMaterialAt(rows, k)
  }

  predicate DenseOptions(rows: seq<OptionRow>) {
    forall k | 0 <= k < |rows| :: DenseOptionAt(rows, k)
  }

  lemma DenseRecipesConcat(a: seq<RecipeRow>, b: seq<RecipeRow>)
    requires DenseRecipes(a) && DenseRecipes(b)
    requires forall x, y | x in a && y in b :: x.npc != y.npc
    ensures DenseRecipes(a + b)
  {
    forall k | 0 <= k < |a + b| ensures DenseRecipeAt(a + b, k) {
      assert if k < |a| then DenseRecipeAt(a, k) else DenseRecipeAt(b, k - |a|);
    }
  }

  lemma DenseMaterialsConcat(a: seq<MaterialRow>, b: seq<MaterialRow>)
    requires DenseMaterials(a) && DenseMaterials(b)
    requires forall x, y | x in a && y in b :: x.npc != y.npc || x.recipe != y.recipe
    ensures DenseMaterials(a + b)
  {
    forall k | 0 <= k < |a + b| ensures DenseMaterialAt(a + b, k) {
      assert if k < |a| then DenseMaterialAt(a, k) else DenseMaterialAt(b, k - |a|);
    }
  }

  lemma DenseOptionsConcat(a: seq<OptionRow>, b: seq<OptionRow>)
    requires DenseOptions(a) && DenseOptions(b)
    requires forall x, y | x in a && y in b :: x.npc != y.npc || x.recipe != y.recipe
    ensures DenseOptions(a + b)
  {
    forall k | 0 <= k < |a + b| ensures DenseOptionAt(a + b, k) {
      assert if k < |a| then DenseOptionAt(a, k) else DenseOptionAt(b, k - |a|);
    }
  }

  lemma {:induction false} RecipeRowsPositions(npc: Uint32, recipes: seq<Recipe>)
    ensures |RecipeRows(npc, recipes)| == |recipes|
    ensures forall k | 0 <= k < |recipes| :: RecipeRows(npc, recipes)[k].npc == npc && RecipeRows(npc, recipes)[k].position == k
  {
    if recipes != [] {
      RecipeRowsPositions(npc, recipes[..|recipes| - 1]);
    }
  }

  lemma {:induction false} MaterialRowsPositions(npc: Uint32, recipe: nat, materials: seq<Material>)
    ensures var rows := MaterialRows(npc, recipe, materials);
      |rows| == |materials| && forall k | 0 <= k < |rows| :: rows[k].npc == npc && rows[k].recipe == recipe && rows[k].position == k
  {
    if materials != [] {
      MaterialRowsPositions(npc, recipe, materials[..|materials| - 1]);
    }
  }

  lemma {:induction false} OptionRowsPositions(npc: Uint32, recipe: nat, option: nat, materials: seq<Material>)
    ensures var rows := OptionRows(npc, recipe, option, materials);
      |rows| == |materials|
      && forall k | 0 <= k < |rows| :: rows[k].npc == npc && rows[k].recipe == recipe && rows[k].option == option && rows[k].position == k
  {
    if materials != [] {
      OptionRowsPositions(npc, recipe, option, materials[..|materials| - 1]);
    }
  }

  lemma {:induction false} NpcMaterialsDense(npc: Uint32, recipes: seq<Recipe>)
    ensures DenseMaterials(NpcMaterialRows(npc, recipes))
  {
    hide MaterialRows;
    if recipes != [] {
      var n := |recipes| - 1;
      NpcMaterialsDense(npc, recipes[..n]);
      NpcMaterialRowsSorted(npc, recipes[..n]);
      MaterialRowsPositions(npc, n, recipes[n].materials);
      DenseMaterialsConcat(NpcMaterialRows(npc, recipes[..n]), MaterialRows(npc, n, recipes[n].materials));
    }
  }

  /** One more group behind the groups so far: its first row follows the last row of the group before it. */
  lemma {:induction false} RecipeOptionsDense(npc: Uint32, recipe: nat, options: seq<seq<Material>>)
    requires NonEmptyGroups(options)
    ensures DenseOptions(RecipeOptionRows(npc, recipe, options))
  {
    hide OptionRows;
    if options != [] {
      var n := |options| - 1;
      RecipeOptionsDense(npc, recipe, options[..n]);
      RecipeOptionRowsSorted(npc, recipe, options[..n]);
      OptionRowsPositions(npc, recipe, n, options[n]);
      if n > 0 {
        LastOption(npc, recipe, options[..n]);
      }
      AppendedGroupDense(npc, recipe, n, RecipeOptionRows(npc, recipe, options[..n]), OptionRows(npc, recipe, n, options[n]));
    }
  }

  lemma AppendedGroupDense(npc: Uint32, recipe: nat, n: nat, a: seq<OptionRow>, b: seq<OptionRow>)
    requires DenseOptions(a) && (forall k | 0 <= k < |a| :: a[k].npc == npc && a[k].recipe == recipe)
    requires if n == 0 then a == [] else a != [] && a[|a| - 1].option == n - 1
    requires forall k | 0 <= k < |b| :: b[k].npc == npc && b[k].recipe == recipe && b[k].option == n && b[k].position == k
    ensures DenseOptions(a + b)
  {
    forall k | 0 <= k < |a + b| ensures DenseOptionAt(a + b, k) {
      assert k < |a| ==> DenseOptionAt(a, k);
    }
  }

  lemma {:induction false} NpcOptionsDense(npc: Uint32, recipes: seq<Recipe>)
    requires forall j | 0 <= j < |recipes| :: NonEmptyGroups(recipes[j].options)
    ensures DenseOptions(NpcOptionRows(npc, recipes))
  {
    hide RecipeOptionRows, NonEmptyGroups;
    if recipes != [] {
      var n := |recipes| - 1;
      NpcOptionsDense(npc, recipes[..n]);
      NpcOptionRowsSorted(npc, recipes[..n]);
      RecipeOptionsDense(npc, n, recipes[n].options);
      RecipeOptionRowsSorted(npc, n, recipes[n].options);
      DenseOptionsConcat(NpcOptionRows(npc, recipes[..n]), RecipeOptionRows(npc, n, recipes[n].options));
    }
  }

  lemma RecipeRowsDense(npc: Uint32, recipes: seq<Recipe>)
    ensures DenseRecipes(RecipeRows(npc, recipes))
  {
    RecipeRowsPositions(npc, recipes);
  }

  /** The tables of a snapshot number every list from zero without gaps. */
  lemma {:induction false} FlattenIsDense(npcs: seq<NpcRecipes>)
    requires Sorted(npcs, VnumOf) && WellGrouped(npcs)
    ensures Dense(Flatten(npcs))
  {
    hide RecipeRows, NpcMaterialRows, NpcOptionRows, NonEmptyGroups;
    if npcs != [] {
      var n := |npcs| - 1;
      FlattenIsDense(npcs[..n]);
      NpcMarks(npcs);
      RecipeRowsDense(npcs[n].npcVnum, npcs[n].recipes);
      NpcMaterialsDense(npcs[n].npcVnum, npcs[n].recipes);
      NpcOptionsDense(npcs[n].npcVnum, npcs[n].recipes);
      DenseRecipesConcat(AllRecipeRows(npcs[..n]), RecipeRows(npcs[n].npcVnum, npcs[n].recipes));
      DenseMaterialsConcat(AllMaterialRows(npcs[..n]), NpcMaterialRows(npcs[n].npcVnum, npcs[n].recipes));
      DenseOptionsConcat(AllOptionRows(npcs[..n]), NpcOptionRows(npcs[n].npcVnum, npcs[n].recipes));
    }
  }
}
