/** The recipes, materials and options rebuilt from rows in key order, position by position, in three loops. */
module CubeRebuild {
  import opened Results
  import opened Ordered
  import opened Integers
  import opened Ids
  import opened CubeModel
  import opened CubeFlatten
  import opened CubeQuarantine
  import opened CubeCanonical

  // ---------------------------------------------------------------------------------------------
  // Dense positions: what rows in key order look like when every list is complete.
  // ---------------------------------------------------------------------------------------------

  /** Position of row k: one more than its predecessor's within an NPC, zero at the start of one. */
  predicate DenseRecipeAt(rows: seq<RecipeRow>, k: nat)
    requires k < |rows|
  {
    rows[k].position == if k > 0 && rows[k - 1].npc == rows[k].npc then rows[k - 1].position + 1 else 0
  }

  predicate DenseMaterialAt(rows: seq<MaterialRow>, k: nat)
    requires k < |rows|
  {
    rows[k].position ==
      if k > 0 && rows[k - 1].npc == rows[k].npc && rows[k - 1].recipe == rows[k].recipe then rows[k - 1].position + 1 else 0
  }

  predicate DenseOptionAt(rows: seq<OptionRow>, k: nat)
    requires k < |rows|
  {
    if k > 0 && rows[k - 1].npc == rows[k].npc && rows[k - 1].recipe == rows[k].recipe then
      || (rows[k].option == rows[k - 1].option && rows[k].position == rows[k - 1].position + 1)
      || (rows[k].option == rows[k - 1].option + 1 && rows[k].position == 0)
    else rows[k].option == 0 && rows[k].position == 0
  }

  predicate Dense(t: Tables) {
    && (forall k | 0 <= k < |t.recipes| :: DenseRecipeAt(t.recipes, k))
    && (forall k | 0 <= k < |t.materials| :: DenseMaterialAt(t.materials, k))
    && (forall k | 0 <= k < |t.options| :: DenseOptionAt(t.options, k))
  }

  // ---------------------------------------------------------------------------------------------
  // Recipes.
  // ---------------------------------------------------------------------------------------------

  /** The first NPC with this number. */
  method FindNpc(npcs: seq<NpcRecipes>, vnum: Uint32) returns (at: Option<nat>)
    ensures at.Some? ==> at.value < |npcs| && npcs[at.value].npcVnum == vnum
    ensures at.None? ==> vnum !in Vnums(npcs)
  {
    for i := 0 to |npcs|
      invariant forall k | 0 <= k < i :: npcs[k].npcVnum != vnum
    {
      if npcs[i].npcVnum == vnum {
        return Some(i);
      }
    }
    return None;
  }

  function AppendRecipe(npcs: seq<NpcRecipes>, i: nat, recipe: Recipe): seq<NpcRecipes>
    requires i < |npcs|
  {
    npcs[i := npcs[i].(recipes := npcs[i].recipes + [recipe])]
  }

  lemma {:induction false} RowsOfAppendedRecipe(npcs: seq<NpcRecipes>, i: nat, recipe: Recipe)
    requires i < |npcs| && forall l | i < l < |npcs| :: npcs[l].recipes == []
    ensures AllRecipeRows(AppendRecipe(npcs, i, recipe))
      == AllRecipeRows(npcs) + [RecipeRowOf(npcs[i].npcVnum, |npcs[i].recipes|, recipe)]
  {
    var n := |npcs| - 1;
    var npcs' := AppendRecipe(npcs, i, recipe);
    if i < n {
      assert npcs'[..n] == AppendRecipe(npcs[..n], i, recipe);
      RowsOfAppendedRecipe(npcs[..n], i, recipe);
    } else {
      assert npcs'[..n] == npcs[..n];
      assert (npcs[n].recipes + [recipe])[..|npcs[n].recipes|] == npcs[n].recipes;
    }
  }

  /** A recipe already there has its row among the rows so far. */
  lemma RecipeHasRow(npcs: seq<NpcRecipes>, rows: seq<RecipeRow>, k: nat, l: nat, j: nat) returns (at: nat)
    requires Sorted(rows, RecipeKey) && k < |rows| && AllRecipeRows(npcs) == rows[..k]
    requires l < |npcs| && j < |npcs[l].recipes|
    ensures at < k && rows[at].npc == npcs[l].npcVnum && rows[at].position == j
    ensures Less(RecipeKey(rows[at]), RecipeKey(rows[k]))
    ensures at == k - 1 || Less(RecipeKey(rows[at]), RecipeKey(rows[k - 1]))
  {
    var row := RecipeRowOf(npcs[l].npcVnum, j, npcs[l].recipes[j]);
    InRecipeRows(npcs[l].npcVnum, npcs[l].recipes, row);
    InAllRecipeRows(npcs, row);
    assert row in rows[..k];
    at :| 0 <= at < k && rows[at] == row;
  }

  /** Where the rows so far leave NPC i: its list ends at the last row, or is empty, and later NPCs are empty. */
  lemma RecipesSoFar(npcs: seq<NpcRecipes>, rows: seq<RecipeRow>, k: nat, i: nat)
    requires Sorted(npcs, VnumOf) && Sorted(rows, RecipeKey)
    requires k < |rows| && AllRecipeRows(npcs) == rows[..k]
    requires i < |npcs| && npcs[i].npcVnum == rows[k].npc
    ensures |npcs[i].recipes| == if k > 0 && rows[k - 1].npc == rows[k].npc then rows[k - 1].position + 1 else 0
    ensures forall l | i < l < |npcs| :: npcs[l].recipes == []
  {
    if npcs[i].recipes != [] {
      var at := RecipeHasRow(npcs, rows, k, i, |npcs[i].recipes| - 1);
      assert Less(RecipeKey(rows[k - 1]), RecipeKey(rows[k]));
    }
    if k > 0 && rows[k - 1].npc == rows[k].npc {
      LastRecipeRow(npcs, rows, k, i);
    }
    forall l | i < l < |npcs| ensures npcs[l].recipes == [] {
      assert Less(VnumOf(npcs[i]), VnumOf(npcs[l]));
      if npcs[l].recipes != [] {
        var at := RecipeHasRow(npcs, rows, k, l, 0);
        assert false;
      }
    }
  }

  lemma LastRecipeRow(npcs: seq<NpcRecipes>, rows: seq<RecipeRow>, k: nat, i: nat)
    requires Sorted(npcs, VnumOf)
    requires 0 < k <= |rows| && AllRecipeRows(npcs) == rows[..k]
    requires i < |npcs| && npcs[i].npcVnum == rows[k - 1].npc
    ensures 0 <= rows[k - 1].position < |npcs[i].recipes|
  {
    var row := rows[k - 1];
    assert row in rows[..k];
    InAllRecipeRows(npcs, row);
    var l :| 0 <= l < |npcs| && row in RecipeRows(npcs[l].npcVnum, npcs[l].recipes);
    InRecipeRows(npcs[l].npcVnum, npcs[l].recipes, row);
    OneNpcPerVnum(npcs);
  }

  // ---------------------------------------------------------------------------------------------
  // Materials.
  // ---------------------------------------------------------------------------------------------

  function SetRecipe(npcs: seq<NpcRecipes>, i: nat, j: nat, recipe: Recipe): seq<NpcRecipes>
    requires i < |npcs| && j < |npcs[i].recipes|
  {
    npcs[i := npcs[i].(recipes := npcs[i].recipes[j := recipe])]
  }

  /** No recipe behind (i, j) has materials yet. */
  predicate MaterialsEndAt(npcs: seq<NpcRecipes>, i: nat, j: nat)
    requires i < |npcs|
  {
    && (forall l, m | i < l < |npcs| && 0 <= m < |npcs[l].recipes| :: npcs[l].recipes[m].materials == [])
    && (forall m | j < m < |npcs[i].recipes| :: npcs[i].recipes[m].materials == [])
  }

  lemma {:induction false} NoMaterialRows(npc: Uint32, recipes: seq<Recipe>)
    requires forall m | 0 <= m < |recipes| :: recipes[m].materials == []
    ensures NpcMaterialRows(npc, recipes) == []
  {
    if recipes != [] {
      NoMaterialRows(npc, recipes[..|recipes| - 1]);
    }
  }

  lemma {:induction false} NpcRowsOfAppendedMaterial(npc: Uint32, recipes: seq<Recipe>, j: nat, material: Material)
    requires j < |recipes| && forall m | j < m < |recipes| :: recipes[m].materials == []
    ensures var recipe := recipes[j].(materials := recipes[j].materials + [material]);
      NpcMaterialRows(npc, recipes[j := recipe])
        == NpcMaterialRows(npc, recipes) + [MaterialRow(npc, j, |recipes[j].materials|, material.vnum, material.count)]
  {
    var n := |recipes| - 1;
    var recipe := recipes[j].(materials := recipes[j].materials + [material]);
    var recipes' := recipes[j := recipe];
    if j < n {
      assert recipes'[..n] == recipes[..n][j := recipe];
      NpcRowsOfAppendedMaterial(npc, recipes[..n], j, material);
    } else {
      assert recipes'[..n] == recipes[..n];
      assert (recipes[j].materials + [material])[..|recipes[j].materials|] == recipes[j].materials;
    }
  }

  lemma {:induction false} RowsOfAppendedMaterial(npcs: seq<NpcRecipes>, i: nat, j: nat, material: Material)
    requires i < |npcs| && j < |npcs[i].recipes| && MaterialsEndAt(npcs, i, j)
    ensures var recipe := npcs[i].recipes[j];
      AllMaterialRows(SetRecipe(npcs, i, j, recipe.(materials := recipe.materials + [material])))
        == AllMaterialRows(npcs) + [MaterialRow(npcs[i].npcVnum, j, |recipe.materials|, material.vnum, material.count)]
  {
    hide NpcMaterialRows;
    var n := |npcs| - 1;
    var recipe := npcs[i].recipes[j].(materials := npcs[i].recipes[j].materials + [material]);
    var npcs' := SetRecipe(npcs, i, j, recipe);
    if i < n {
      assert npcs'[..n] == SetRecipe(npcs[..n], i, j, recipe);
      RowsOfAppendedMaterial(npcs[..n], i, j, material);
      NoMaterialRows(npcs[n].npcVnum, npcs[n].recipes);
    } else {
      assert npcs'[..n] == npcs[..n];
      NpcRowsOfAppendedMaterial(npcs[i].npcVnum, npcs[i].recipes, j, material);
    }
  }

  /** A material already there has its row among the rows so far. */
  lemma MaterialHasRow(npcs: seq<NpcRecipes>, rows: seq<MaterialRow>, k: nat, l: nat, j: nat, m: nat) returns (at: nat)
    requires Sorted(rows, MaterialKey) && k < |rows| && AllMaterialRows(npcs) == rows[..k]
    requires l < |npcs| && j < |npcs[l].recipes| && m < |npcs[l].recipes[j].materials|
    ensures at < k && rows[at].npc == npcs[l].npcVnum && rows[at].recipe == j && rows[at].position == m
    ensures Less(MaterialKey(rows[at]), MaterialKey(rows[k]))
    ensures at == k - 1 || Less(MaterialKey(rows[at]), MaterialKey(rows[k - 1]))
  {
    var material := npcs[l].recipes[j].materials[m];
    var row := MaterialRow(npcs[l].npcVnum, j, m, material.vnum, material.count);
    InMaterialRows(npcs[l].npcVnum, j, npcs[l].recipes[j].materials, row);
    InNpcMaterialRows(npcs[l].npcVnum, npcs[l].recipes, row);
    InAllMaterialRows(npcs, row);
    assert row in rows[..k];
    at :| 0 <= at < k && rows[at] == row;
  }

  lemma LastMaterialRow(npcs: seq<NpcRecipes>, rows: seq<MaterialRow>, k: nat, i: nat, j: nat)
    requires Sorted(npcs, VnumOf)
    requires 0 < k <= |rows| && AllMaterialRows(npcs) == rows[..k]
    requires i < |npcs| && j < |npcs[i].recipes| && npcs[i].npcVnum == rows[k - 1].npc && j == rows[k - 1].recipe
    ensures 0 <= rows[k - 1].position < |npcs[i].recipes[j].materials|
  {
    var row := rows[k - 1];
    assert row in rows[..k];
    InAllMaterialRows(npcs, row);
    var l :| 0 <= l < |npcs| && row in NpcMaterialRows(npcs[l].npcVnum, npcs[l].recipes);
    InNpcMaterialRows(npcs[l].npcVnum, npcs[l].recipes, row);
    InMaterialRows(npcs[l].npcVnum, row.recipe, npcs[l].recipes[row.recipe].materials, row);
    OneNpcPerVnum(npcs);
  }

  /** Where the rows so far leave recipe (i, j): its list ends at the last row, or is empty. */
  lemma MaterialsSoFar(npcs: seq<NpcRecipes>, rows: seq<MaterialRow>, k: nat, i: nat, j: nat)
    requires Sorted(npcs, VnumOf) && Sorted(rows, MaterialKey)
    requires k < |rows| && AllMaterialRows(npcs) == rows[..k]
    requires i < |npcs| && j < |npcs[i].recipes| && npcs[i].npcVnum == rows[k].npc && j == rows[k].recipe
    ensures |npcs[i].recipes[j].materials| ==
      if k > 0 && rows[k - 1].npc == rows[k].npc && rows[k - 1].recipe == rows[k].recipe then rows[k - 1].position + 1 else 0
  {
    if npcs[i].recipes[j].materials != [] {
      var at := MaterialHasRow(npcs, rows, k, i, j, |npcs[i].recipes[j].materials| - 1);
      assert Less(MaterialKey(rows[k - 1]), MaterialKey(rows[k]));
    }
    if k > 0 && rows[k - 1].npc == rows[k].npc && rows[k - 1].recipe == rows[k].recipe {
      LastMaterialRow(npcs, rows, k, i, j);
    }
  }

  lemma MaterialsEnd(npcs: seq<NpcRecipes>, rows: seq<MaterialRow>, k: nat, i: nat, j: nat)
    requires Sorted(npcs, VnumOf) && Sorted(rows, MaterialKey)
    requires k < |rows| && AllMaterialRows(npcs) == rows[..k]
    requires i < |npcs| && j < |npcs[i].recipes| && npcs[i].npcVnum == rows[k].npc && j == rows[k].recipe
    ensures MaterialsEndAt(npcs, i, j)
  {
    forall m | j < m < |npcs[i].recipes| ensures npcs[i].recipes[m].materials == [] {
      if npcs[i].recipes[m].materials != [] {
        var at := MaterialHasRow(npcs, rows, k, i, m, 0);
        assert false;
      }
    }
    forall l, m | i < l < |npcs| && 0 <= m < |npcs[l].recipes| ensures npcs[l].recipes[m].materials == [] {
      assert Less(VnumOf(npcs[i]), VnumOf(npcs[l]));
      if npcs[l].recipes[m].materials != [] {
        var at := MaterialHasRow(npcs, rows, k, l, m, 0);
        assert false;
      }
    }
  }

  // ---------------------------------------------------------------------------------------------
  // Options.
  // ---------------------------------------------------------------------------------------------

  predicate OptionsEndAt(npcs: seq<NpcRecipes>, i: nat, j: nat)
    requires i < |npcs|
  {
    && (forall l, m | i < l < |npcs| && 0 <= m < |npcs[l].recipes| :: npcs[l].recipes[m].options == [])
    && (forall m | j < m < |npcs[i].recipes| :: npcs[i].recipes[m].options == [])
  }

  lemma {:induction false} NoOptionRows(npc: Uint32, recipes: seq<Recipe>)
    requires forall m | 0 <= m < |recipes| :: recipes[m].options == []
    ensures NpcOptionRows(npc, recipes) == []
  {
    if recipes != [] {
      NoOptionRows(npc, recipes[..|recipes| - 1]);
    }
  }

  /** The options with a material added to the last group, or in a new group of its own. */
  function AppendOption(options: seq<seq<Material>>, option: nat, material: Material): seq<seq<Material>>
    requires option == |options| || option == |options| - 1
  {
    if option == |options| then options + [[material]] else options[option := options[option] + [material]]
  }

  lemma RowsOfAppendedOption(npc: Uint32, recipe: nat, options: seq<seq<Material>>, option: nat, material: Material)
    requires option == |options| || option == |options| - 1
    ensures var position := if option == |options| then 0 else |options[option]|;
      RecipeOptionRows(npc, recipe, AppendOption(options, option, material))
        == RecipeOptionRows(npc, recipe, options) + [OptionRow(npc, recipe, option, position, material.vnum, material.count)]
  {
    var options' := AppendOption(options, option, material);
    assert options'[..option] == options[..option];
    if option == |options| {
      assert options[..option] == options;
      assert [material][..0] == [];
      assert OptionRows(npc, recipe, option, [material]) == [OptionRow(npc, recipe, option, 0, material.vnum, material.count)];
    } else {
      var group := options[option];
      assert (group + [material])[..|group|] == group;
    }
  }

  lemma {:induction false} NpcRowsOfAppendedOption(npc: Uint32, recipes: seq<Recipe>, j: nat, option: nat, material: Material)
    requires j < |recipes| && forall m | j < m < |recipes| :: recipes[m].options == []
    requires option == |recipes[j].options| || option == |recipes[j].options| - 1
    ensures var recipe := recipes[j].(options := AppendOption(recipes[j].options, option, material));
      var position := if option == |recipes[j].options| then 0 else |recipes[j].options[option]|;
      NpcOptionRows(npc, recipes[j := recipe])
        == NpcOptionRows(npc, recipes) + [OptionRow(npc, j, option, position, material.vnum, material.count)]
  {
    hide RecipeOptionRows, AppendOption;
    var n := |recipes| - 1;
    var recipe := recipes[j].(options := AppendOption(recipes[j].options, option, material));
    var recipes' := recipes[j := recipe];
    if j < n {
      assert recipes'[..n] == recipes[..n][j := recipe];
      NpcRowsOfAppendedOption(npc, recipes[..n], j, option, material);
      NoOptions(npc, n);
    } else {
      assert recipes'[..n] == recipes[..n];
      RowsOfAppendedOption(npc, j, recipes[j].options, option, material);
    }
  }

  lemma NoOptions(npc: Uint32, recipe: nat)
    ensures RecipeOptionRows(npc, recipe, []) == []
  {
  }

  lemma {:induction false} AllRowsOfAppendedOption(npcs: seq<NpcRecipes>, i: nat, j: nat, option: nat, material: Material)
    requires i < |npcs| && j < |npcs[i].recipes| && OptionsEndAt(npcs, i, j)
    requires option == |npcs[i].recipes[j].options| || option == |npcs[i].recipes[j].options| - 1
    ensures var recipe := npcs[i].recipes[j];
      var position := if option == |recipe.options| then 0 else |recipe.options[option]|;
      AllOptionRows(SetRecipe(npcs, i, j, recipe.(options := AppendOption(recipe.options, option, material))))
        == AllOptionRows(npcs) + [OptionRow(npcs[i].npcVnum, j, option, position, material.vnum, material.count)]
  {
    hide NpcOptionRows, AppendOption;
    var n := |npcs| - 1;
    var recipe := npcs[i].recipes[j].(options := AppendOption(npcs[i].recipes[j].options, option, material));
    var npcs' := SetRecipe(npcs, i, j, recipe);
    if i < n {
      assert npcs'[..n] == SetRecipe(npcs[..n], i, j, recipe);
      AllRowsOfAppendedOption(npcs[..n], i, j, option, material);
      NoOptionRows(npcs[n].npcVnum, npcs[n].recipes);
    } else {
      assert npcs'[..n] == npcs[..n];
      NpcRowsOfAppendedOption(npcs[i].npcVnum, npcs[i].recipes, j, option, material);
    }
  }

  lemma OptionHasRow(npcs: seq<NpcRecipes>, rows: seq<OptionRow>, k: nat, l: nat, j: nat, o: nat, m: nat) returns (at: nat)
    requires Sorted(rows, OptionKey) && k < |rows| && AllOptionRows(npcs) == rows[..k]
    requires l < |npcs| && j < |npcs[l].recipes| && o < |npcs[l].recipes[j].options| && m < |npcs[l].recipes[j].options[o]|
    ensures at < k && rows[at].npc == npcs[l].npcVnum && rows[at].recipe == j && rows[at].option == o && rows[at].position == m
    ensures Less(OptionKey(rows[at]), OptionKey(rows[k]))
    ensures at == k - 1 || Less(OptionKey(rows[at]), OptionKey(rows[k - 1]))
  {
    var material := npcs[l].recipes[j].options[o][m];
    var row := OptionRow(npcs[l].npcVnum, j, o, m, material.vnum, material.count);
    InOptionRows(npcs[l].npcVnum, j, o, npcs[l].recipes[j].options[o], row);
    InRecipeOptionRows(npcs[l].npcVnum, j, npcs[l].recipes[j].options, row);
    InNpcOptionRows(npcs[l].npcVnum, npcs[l].recipes, row);
    InAllOptionRows(npcs, row);
    assert row in rows[..k];
    at :| 0 <= at < k && rows[at] == row;
  }

  lemma LastOptionRow(npcs: seq<NpcRecipes>, rows: seq<OptionRow>, k: nat, i: nat, j: nat)
    requires Sorted(npcs, VnumOf)
    requires 0 < k <= |rows| && AllOptionRows(npcs) == rows[..k]
    requires i < |npcs| && j < |npcs[i].recipes| && npcs[i].npcVnum == rows[k - 1].npc && j == rows[k - 1].recipe
    ensures var options := npcs[i].recipes[j].options;
      0 <= rows[k - 1].option < |options| && 0 <= rows[k - 1].position < |options[rows[k - 1].option]|
  {
    var row := rows[k - 1];
    assert row in rows[..k];
    InAllOptionRows(npcs, row);
    var l :| 0 <= l < |npcs| && row in NpcOptionRows(npcs[l].npcVnum, npcs[l].recipes);
    InNpcOptionRows(npcs[l].npcVnum, npcs[l].recipes, row);
    InRecipeOptionRows(npcs[l].npcVnum, row.recipe, npcs[l].recipes[row.recipe].options, row);
    InOptionRows(npcs[l].npcVnum, row.recipe, row.option, npcs[l].recipes[row.recipe].options[row.option], row);
    OneNpcPerVnum(npcs);
  }

  /** The row of the last material of a recipe with options is the last row so far, or in front of it. */
  lemma OptionsReach(npcs: seq<NpcRecipes>, rows: seq<OptionRow>, k: nat, i: nat, j: nat)
    requires Sorted(rows, OptionKey) && WellGrouped(npcs)
    requires k < |rows| && AllOptionRows(npcs) == rows[..k]
    requires i < |npcs| && j < |npcs[i].recipes| && npcs[i].npcVnum == rows[k].npc && j == rows[k].recipe
    requires npcs[i].recipes[j].options != []
    ensures var options := npcs[i].recipes[j].options;
      && k > 0 && rows[k - 1].npc == rows[k].npc && rows[k - 1].recipe == rows[k].recipe
      && options[|options| - 1] != []
      && !Less(OptionKey(rows[k - 1]), Key(rows[k].npc, j, |options| - 1, |options[|options| - 1]| - 1))
  {
    hide AllOptionRows;
    var options := npcs[i].recipes[j].options;
    assert NonEmptyGroups(options);
    var at := OptionHasRow(npcs, rows, k, i, j, |options| - 1, |options[|options| - 1]| - 1);
    assert OptionKey(rows[at]) == Key(rows[k].npc, j, |options| - 1, |options[|options| - 1]| - 1);
    assert Less(OptionKey(rows[k - 1]), OptionKey(rows[k]));
  }

  /** The row continues the recipe of the row in front of it. */
  predicate Continues(rows: seq<OptionRow>, k: nat)
    requires k < |rows|
  {
    k > 0 && rows[k - 1].npc == rows[k].npc && rows[k - 1].recipe == rows[k].recipe
  }

  /** Where the rows so far leave recipe (i, j): its last group ends at the last row, or it has no options yet. */
  lemma OptionsSoFar(npcs: seq<NpcRecipes>, rows: seq<OptionRow>, k: nat, i: nat, j: nat)
    requires Sorted(npcs, VnumOf) && Sorted(rows, OptionKey) && WellGrouped(npcs)
    requires k < |rows| && AllOptionRows(npcs) == rows[..k]
    requires i < |npcs| && j < |npcs[i].recipes| && npcs[i].npcVnum == rows[k].npc && j == rows[k].recipe
    ensures npcs[i].recipes[j].options != [] <==> Continues(rows, k)
    ensures Continues(rows, k) ==>
      var options := npcs[i].recipes[j].options;
      |options| == rows[k - 1].option + 1 && |options[|options| - 1]| == rows[k - 1].position + 1
  {
    hide AllOptionRows, WellGrouped, Sorted;
    if npcs[i].recipes[j].options != [] {
      OptionsReach(npcs, rows, k, i, j);
    }
    if Continues(rows, k) {
      LastOptionRow(npcs, rows, k, i, j);
    }
  }

  lemma OptionsEnd(npcs: seq<NpcRecipes>, rows: seq<OptionRow>, k: nat, i: nat, j: nat)
    requires Sorted(npcs, VnumOf) && Sorted(rows, OptionKey) && WellGrouped(npcs)
    requires k < |rows| && AllOptionRows(npcs) == rows[..k]
    requires i < |npcs| && j < |npcs[i].recipes| && npcs[i].npcVnum == rows[k].npc && j == rows[k].recipe
    ensures OptionsEndAt(npcs, i, j)
  {
    forall m | j < m < |npcs[i].recipes| ensures npcs[i].recipes[m].options == [] {
      if npcs[i].recipes[m].options != [] {
        assert NonEmptyGroups(npcs[i].recipes[m].options);
        var at := OptionHasRow(npcs, rows, k, i, m, 0, 0);
        assert false;
      }
    }
    forall l, m | i < l < |npcs| && 0 <= m < |npcs[l].recipes| ensures npcs[l].recipes[m].options == [] {
      assert Less(VnumOf(npcs[i]), VnumOf(npcs[l]));
      if npcs[l].recipes[m].options != [] {
        assert NonEmptyGroups(npcs[l].recipes[m].options);
        var at := OptionHasRow(npcs, rows, k, l, m, 0, 0);
        assert false;
      }
    }
  }

  // ---------------------------------------------------------------------------------------------
  // What a change to one recipe leaves alone.
  // ---------------------------------------------------------------------------------------------

  lemma {:induction false} NpcRowsKept(npc: Uint32, recipes: seq<Recipe>, j: nat, recipe: Recipe)
    requires j < |recipes|
    requires recipe.(materials := [], options := []) == recipes[j].(materials := [], options := [])
    ensures RecipeRows(npc, recipes[j := recipe]) == RecipeRows(npc, recipes)
    ensures recipe.materials == recipes[j].materials ==> NpcMaterialRows(npc, recipes[j := recipe]) == NpcMaterialRows(npc, recipes)
    ensures recipe.options == recipes[j].options ==> NpcOptionRows(npc, recipes[j := recipe]) == NpcOptionRows(npc, recipes)
  {
    hide MaterialRows, RecipeOptionRows;
    var n := |recipes| - 1;
    if j < n {
      assert recipes[j := recipe][..n] == recipes[..n][j := recipe];
      NpcRowsKept(npc, recipes[..n], j, recipe);
    } else {
      assert recipes[j := recipe][..n] == recipes[..n];
    }
  }

  lemma {:induction false} AllRowsKept(npcs: seq<NpcRecipes>, i: nat, j: nat, recipe: Recipe)
    requires i < |npcs| && j < |npcs[i].recipes|
    requires recipe.(materials := [], options := []) == npcs[i].recipes[j].(materials := [], options := [])
    ensures var npcs' := SetRecipe(npcs, i, j, recipe);
      && Vnums(npcs') == Vnums(npcs) && AllRecipeRows(npcs') == AllRecipeRows(npcs)
      && (recipe.materials == npcs[i].recipes[j].materials ==> AllMaterialRows(npcs') == AllMaterialRows(npcs))
      && (recipe.options == npcs[i].recipes[j].options ==> AllOptionRows(npcs') == AllOptionRows(npcs))
  {
    hide RecipeRows, NpcMaterialRows, NpcOptionRows;
    var n := |npcs| - 1;
    var npcs' := SetRecipe(npcs, i, j, recipe);
    if i < n {
      assert npcs'[..n] == SetRecipe(npcs[..n], i, j, recipe);
      AllRowsKept(npcs[..n], i, j, recipe);
    } else {
      assert npcs'[..n] == npcs[..n];
      NpcRowsKept(npcs[i].npcVnum, npcs[i].recipes, j, recipe);
    }
  }

  lemma SortedByVnums(npcs: seq<NpcRecipes>)
    ensures Sorted(npcs, VnumOf) <==> Sorted(Vnums(npcs), IdKey)
  {
    forall i, j | 0 <= i < j < |npcs|
      ensures Less(VnumOf(npcs[i]), VnumOf(npcs[j])) <==> Less(IdKey(Vnums(npcs)[i]), IdKey(Vnums(npcs)[j]))
    {
    }
  }

  // ---------------------------------------------------------------------------------------------
  // The loops.
  // ---------------------------------------------------------------------------------------------

  datatype RebuildError = Rejected | SparseRecipe | SparseMaterial | SparseOption | InvalidResult

  lemma OneNpcPerVnum(npcs: seq<NpcRecipes>)
    requires Sorted(npcs, VnumOf)
    ensures forall i, k | 0 <= i < |npcs| && 0 <= k < |npcs| && npcs[i].npcVnum == npcs[k].npcVnum :: i == k
  {
    forall i, k | 0 <= i < k < |npcs| ensures npcs[i].npcVnum != npcs[k].npcVnum {
      assert Less(VnumOf(npcs[i]), VnumOf(npcs[k]));
    }
  }

  method FindRecipe(npcs: seq<NpcRecipes>, vnum: Uint32, position: int) returns (at: Option<(nat, nat)>)
    ensures at.Some? ==> var (i, j) := at.value;
      i < |npcs| && j < |npcs[i].recipes| && npcs[i].npcVnum == vnum && j == position
    ensures Sorted(npcs, VnumOf) && (exists i :: 0 <= i < |npcs| && npcs[i].npcVnum == vnum && 0 <= position < |npcs[i].recipes|) ==> at.Some?
  {
    var npc := FindNpc(npcs, vnum);
    if npc.None? {
      assert forall i | 0 <= i < |npcs| :: npcs[i].npcVnum == Vnums(npcs)[i];
      return None;
    }
    if Sorted(npcs, VnumOf) {
      OneNpcPerVnum(npcs);
    }
    if position < 0 || position >= |npcs[npc.value].recipes| {
      return None;
    }
    return Some((npc.value, position));
  }

  /** The NPCs, still without recipes. */
  method BuildNpcs(rows: seq<Uint32>) returns (npcs: seq<NpcRecipes>)
    ensures Vnums(npcs) == rows && forall i | 0 <= i < |npcs| :: npcs[i].recipes == []
  {
    npcs := [];
    for i := 0 to |rows|
      invariant |npcs| == i && forall k | 0 <= k < i :: npcs[k] == NpcRecipes(rows[k], [])
    {
      npcs := npcs + [NpcRecipes(rows[i], [])];
    }
  }

  /** Recipes without materials yet. */
  predicate Bare(npcs: seq<NpcRecipes>) {
    forall i, j | 0 <= i < |npcs| && 0 <= j < |npcs[i].recipes| ::
      npcs[i].recipes[j].materials == [] && npcs[i].recipes[j].options == []
  }

  predicate WithoutOptions(npcs: seq<NpcRecipes>) {
    forall i, j | 0 <= i < |npcs| && 0 <= j < |npcs[i].recipes| :: npcs[i].recipes[j].options == []
  }

  lemma {:induction false} NoRecipeRows(npcs: seq<NpcRecipes>)
    requires forall i | 0 <= i < |npcs| :: npcs[i].recipes == []
    ensures AllRecipeRows(npcs) == []
  {
    if npcs != [] {
      NoRecipeRows(npcs[..|npcs| - 1]);
    }
  }

  lemma {:induction false} NoRows(npcs: seq<NpcRecipes>)
    ensures Bare(npcs) ==> AllMaterialRows(npcs) == []
    ensures WithoutOptions(npcs) ==> AllOptionRows(npcs) == []
  {
    hide NpcMaterialRows, NpcOptionRows;
    if npcs != [] {
      var n := |npcs| - 1;
      NoRows(npcs[..n]);
      if Bare(npcs) {
        NoMaterialRows(npcs[n].npcVnum, npcs[n].recipes);
      }
      if WithoutOptions(npcs) {
        NoOptionRows(npcs[n].npcVnum, npcs[n].recipes);
      }
    }
  }

  lemma NothingIsBare(npcs: seq<NpcRecipes>)
    requires forall i | 0 <= i < |npcs| :: npcs[i].recipes == []
    ensures Bare(npcs)
  {
  }

  lemma SameVnums(a: seq<NpcRecipes>, b: seq<NpcRecipes>)
    requires |a| == |b| && forall i | 0 <= i < |a| :: a[i].npcVnum == b[i].npcVnum
    ensures Vnums(a) == Vnums(b)
  {
    hide Vnums;
  }

  lemma BareAppend(npcs: seq<NpcRecipes>, i: nat, recipe: Recipe)
    requires Bare(npcs) && i < |npcs| && recipe.materials == [] && recipe.options == []
    ensures Bare(AppendRecipe(npcs, i, recipe))
    ensures Vnums(AppendRecipe(npcs, i, recipe)) == Vnums(npcs)
  {
    hide Vnums;
    var npcs' := AppendRecipe(npcs, i, recipe);
    SameVnums(npcs', npcs);
    forall l, m | 0 <= l < |npcs'| && 0 <= m < |npcs'[l].recipes|
      ensures npcs'[l].recipes[m].materials == [] && npcs'[l].recipes[m].options == []
    {
      if l == i && m == |npcs[i].recipes| {
        assert npcs'[l].recipes[m] == recipe;
      } else {
        assert npcs'[l].recipes[m] == npcs[l].recipes[m];
      }
    }
  }

  /** One recipe row: found its NPC, checked its position, appended. */
  method BuildRecipe(t: Tables, built: seq<NpcRecipes>, k: nat) returns (r: Option<seq<NpcRecipes>>)
    requires SortedTables(t) && Vnums(built) == t.npcs && k < |t.recipes| && t.recipes[k].npc in t.npcs
    requires AllRecipeRows(built) == t.recipes[..k] && Bare(built)
    ensures r.Some? <==> DenseRecipeAt(t.recipes, k)
    ensures r.Some? ==> Vnums(r.value) == t.npcs && AllRecipeRows(r.value) == t.recipes[..k + 1] && Bare(r.value)
  {
    hide AllRecipeRows, RecipeRows, Bare, Vnums, Sorted;
    var row := t.recipes[k];
    var at := FindNpc(built, row.npc);
    if at.None? {
      return None;
    }
    SortedByVnums(built);
    RecipesSoFar(built, t.recipes, k, at.value);
    if row.position != |built[at.value].recipes| {
      return None;
    }
    var recipe := Recipe(Reward(row.rewardVnum, row.rewardCount), [], [], row.gold, row.percent);
    RowsOfAppendedRecipe(built, at.value, recipe);
    BareAppend(built, at.value, recipe);
    assert t.recipes[..k + 1] == t.recipes[..k] + [row];
    return Some(AppendRecipe(built, at.value, recipe));
  }

  method BuildRecipes(t: Tables, npcs: seq<NpcRecipes>) returns (r: Result<seq<NpcRecipes>, RebuildError>)
    requires SortedTables(t) && Vnums(npcs) == t.npcs && (forall i | 0 <= i < |npcs| :: npcs[i].recipes == [])
    requires forall row | row in t.recipes :: row.npc in t.npcs
    ensures r.Ok? <==> forall k | 0 <= k < |t.recipes| :: DenseRecipeAt(t.recipes, k)
    ensures r.Err? ==> r.error == SparseRecipe
    ensures r.Ok? ==> Vnums(r.value) == t.npcs && AllRecipeRows(r.value) == t.recipes && Bare(r.value)
  {
    hide AllRecipeRows, Bare, DenseRecipeAt, SortedTables;
    var built := npcs;
    NoRecipeRows(npcs);
    NothingIsBare(npcs);
    for k := 0 to |t.recipes|
      invariant Vnums(built) == t.npcs && AllRecipeRows(built) == t.recipes[..k] && Bare(built)
      invariant forall l | 0 <= l < k :: DenseRecipeAt(t.recipes, l)
    {
      assert t.recipes[k] in t.recipes;
      var next := BuildRecipe(t, built, k);
      if next.None? {
        return Err(SparseRecipe);
      }
      built := next.value;
    }
    assert t.recipes[..|t.recipes|] == t.recipes;
    return Ok(built);
  }

  /** One material row. */
  method BuildMaterial(t: Tables, built: seq<NpcRecipes>, k: nat) returns (r: Option<seq<NpcRecipes>>)
    requires SortedTables(t) && Vnums(built) == t.npcs && AllRecipeRows(built) == t.recipes && WithoutOptions(built)
    requires k < |t.materials| && HasRecipe(t.recipes, t.materials[k].npc, t.materials[k].recipe)
    requires AllMaterialRows(built) == t.materials[..k]
    ensures r.Some? <==> DenseMaterialAt(t.materials, k)
    ensures r.Some? ==> Vnums(r.value) == t.npcs && AllRecipeRows(r.value) == t.recipes && WithoutOptions(r.value)
    ensures r.Some? ==> AllMaterialRows(r.value) == t.materials[..k + 1]
  {
    hide AllRecipeRows, AllMaterialRows, Vnums, Sorted, HasRecipe;
    var row := t.materials[k];
    SortedByVnums(built);
    RecipeExists(built, t.recipes, row.npc, row.recipe);
    var at := FindRecipe(built, row.npc, row.recipe);
    if at.None? {
      return None;
    }
    var (i, j) := at.value;
    MaterialsSoFar(built, t.materials, k, i, j);
    var recipe := built[i].recipes[j];
    if row.position != |recipe.materials| {
      return None;
    }
    var recipe' := recipe.(materials := recipe.materials + [Material(row.item, row.count)]);
    MaterialsEnd(built, t.materials, k, i, j);
    RowsOfAppendedMaterial(built, i, j, Material(row.item, row.count));
    AllRowsKept(built, i, j, recipe');
    StillWithoutOptions(built, i, j, recipe');
    assert t.materials[..k + 1] == t.materials[..k] + [row];
    return Some(SetRecipe(built, i, j, recipe'));
  }

  lemma RecipeExists(npcs: seq<NpcRecipes>, rows: seq<RecipeRow>, npc: Uint32, position: int)
    requires AllRecipeRows(npcs) == rows && HasRecipe(rows, npc, position)
    ensures exists i :: 0 <= i < |npcs| && npcs[i].npcVnum == npc && 0 <= position < |npcs[i].recipes|
  {
    var row :| row in rows && row.npc == npc && row.position == position;
    InAllRecipeRows(npcs, row);
    var i :| 0 <= i < |npcs| && row in RecipeRows(npcs[i].npcVnum, npcs[i].recipes);
    InRecipeRows(npcs[i].npcVnum, npcs[i].recipes, row);
  }

  lemma StillWithoutOptions(npcs: seq<NpcRecipes>, i: nat, j: nat, recipe: Recipe)
    requires WithoutOptions(npcs) && i < |npcs| && j < |npcs[i].recipes| && recipe.options == []
    ensures WithoutOptions(SetRecipe(npcs, i, j, recipe))
  {
  }

  method BuildMaterials(t: Tables, npcs: seq<NpcRecipes>) returns (r: Result<seq<NpcRecipes>, RebuildError>)
    requires SortedTables(t) && Vnums(npcs) == t.npcs && AllRecipeRows(npcs) == t.recipes && Bare(npcs)
    requires forall row | row in t.materials :: HasRecipe(t.recipes, row.npc, row.recipe)
    ensures r.Ok? <==> forall k | 0 <= k < |t.materials| :: DenseMaterialAt(t.materials, k)
    ensures r.Err? ==> r.error == SparseMaterial
    ensures r.Ok? ==> Vnums(r.value) == t.npcs && AllRecipeRows(r.value) == t.recipes && WithoutOptions(r.value)
    ensures r.Ok? ==> AllMaterialRows(r.value) == t.materials
  {
    hide AllRecipeRows, AllMaterialRows, DenseMaterialAt, SortedTables, HasRecipe;
    var built := npcs;
    NoRows(npcs);
    for k := 0 to |t.materials|
      invariant Vnums(built) == t.npcs && AllRecipeRows(built) == t.recipes && WithoutOptions(built)
      invariant AllMaterialRows(built) == t.materials[..k]
      invariant forall l | 0 <= l < k :: DenseMaterialAt(t.materials, l)
    {
      assert t.materials[k] in t.materials;
      var next := BuildMaterial(t, built, k);
      if next.None? {
        return Err(SparseMaterial);
      }
      built := next.value;
    }
    assert t.materials[..|t.materials|] == t.materials;
    return Ok(built);
  }

  /** The tables built so far, with the first k option rows. */
  ghost predicate BuiltUpTo(t: Tables, npcs: seq<NpcRecipes>, k: nat)
    requires k <= |t.options|
  {
    && Vnums(npcs) == t.npcs && AllRecipeRows(npcs) == t.recipes && AllMaterialRows(npcs) == t.materials
    && AllOptionRows(npcs) == t.options[..k] && WellGrouped(npcs)
  }

  lemma StillWellGrouped(npcs: seq<NpcRecipes>, i: nat, j: nat, recipe: Recipe)
    requires WellGrouped(npcs) && i < |npcs| && j < |npcs[i].recipes| && NonEmptyGroups(recipe.options)
    ensures WellGrouped(SetRecipe(npcs, i, j, recipe))
  {
    var npcs' := SetRecipe(npcs, i, j, recipe);
    forall l, m | 0 <= l < |npcs'| && 0 <= m < |npcs'[l].recipes| ensures NonEmptyGroups(npcs'[l].recipes[m].options) {
      if l == i && m == j {
        assert npcs'[l].recipes[m] == recipe;
      } else {
        assert npcs'[l].recipes[m] == npcs[l].recipes[m] && NonEmptyGroups(npcs[l].recipes[m].options);
      }
    }
  }

  lemma AppendedGroups(options: seq<seq<Material>>, option: nat, material: Material)
    requires NonEmptyGroups(options) && (option == |options| || option == |options| - 1)
    ensures NonEmptyGroups(AppendOption(options, option, material))
  {
  }

  /** The row fits behind the last group of the recipe exactly when its position is dense. */
  lemma OptionFits(npcs: seq<NpcRecipes>, rows: seq<OptionRow>, k: nat, i: nat, j: nat)
    requires Sorted(npcs, VnumOf) && Sorted(rows, OptionKey) && WellGrouped(npcs)
    requires k < |rows| && AllOptionRows(npcs) == rows[..k] && rows[k].option >= 0
    requires i < |npcs| && j < |npcs[i].recipes| && npcs[i].npcVnum == rows[k].npc && j == rows[k].recipe
    ensures var options := npcs[i].recipes[j].options;
      DenseOptionAt(rows, k) <==>
        || (rows[k].option == |options| && rows[k].position == 0)
        || (rows[k].option < |options| && rows[k].position == |options[rows[k].option]|)
    ensures DenseOptionAt(rows, k) ==> rows[k].option >= |npcs[i].recipes[j].options| - 1
  {
    OptionsSoFar(npcs, rows, k, i, j);
    assert k > 0 ==> Less(OptionKey(rows[k - 1]), OptionKey(rows[k]));
  }

  /** One option row: a new group when its index is the next one, then the next position of its group. */
  method BuildOption(t: Tables, built: seq<NpcRecipes>, k: nat) returns (r: Option<seq<NpcRecipes>>)
    requires SortedTables(t) && k < |t.options| && BuiltUpTo(t, built, k)
    requires HasRecipe(t.recipes, t.options[k].npc, t.options[k].recipe) && t.options[k].option >= 0
    ensures r.Some? <==> DenseOptionAt(t.options, k)
    ensures r.Some? ==> BuiltUpTo(t, r.value, k + 1)
  {
    hide AllRecipeRows, AllMaterialRows, AllOptionRows, Vnums, Sorted, HasRecipe, NonEmptyGroups, DenseOptionAt;
    var row := t.options[k];
    SortedByVnums(built);
    RecipeExists(built, t.recipes, row.npc, row.recipe);
    var at := FindRecipe(built, row.npc, row.recipe);
    if at.None? {
      return None;
    }
    var (i, j) := at.value;
    OptionFits(built, t.options, k, i, j);
    var recipe := built[i].recipes[j];
    assert NonEmptyGroups(recipe.options);
    var options := recipe.options;
    if row.option == |options| {
      options := options + [[]];
    }
    if row.option >= |options| || row.position != |options[row.option]| {
      return None;
    }
    options := options[row.option := options[row.option] + [Material(row.item, row.count)]];
    ghost var material := Material(row.item, row.count);
    assert options == AppendOption(recipe.options, row.option, material) by {
      assert [] + [material] == [material];
      assert row.option == |recipe.options| ==> options == recipe.options + [[material]];
    }
    OptionsEnd(built, t.options, k, i, j);
    AllRowsOfAppendedOption(built, i, j, row.option, material);
    AppendedGroups(recipe.options, row.option, material);
    AllRowsKept(built, i, j, recipe.(options := options));
    StillWellGrouped(built, i, j, recipe.(options := options));
    assert t.options[..k + 1] == t.options[..k] + [row];
    return Some(SetRecipe(built, i, j, recipe.(options := options)));
  }

  method BuildOptions(t: Tables, npcs: seq<NpcRecipes>) returns (r: Result<seq<NpcRecipes>, RebuildError>)
    requires SortedTables(t) && Vnums(npcs) == t.npcs && AllRecipeRows(npcs) == t.recipes && AllMaterialRows(npcs) == t.materials
    requires WithoutOptions(npcs)
    requires forall row | row in t.options :: HasRecipe(t.recipes, row.npc, row.recipe) && row.option >= 0
    ensures r.Ok? <==> forall k | 0 <= k < |t.options| :: DenseOptionAt(t.options, k)
    ensures r.Err? ==> r.error == SparseOption
    ensures r.Ok? ==> Flatten(r.value) == t && WellGrouped(r.value)
  {
    hide AllRecipeRows, AllMaterialRows, AllOptionRows, DenseOptionAt, SortedTables, HasRecipe, Vnums;
    var built := npcs;
    NoRows(npcs);
    for k := 0 to |t.options|
      invariant BuiltUpTo(t, built, k)
      invariant forall l | 0 <= l < k :: DenseOptionAt(t.options, l)
    {
      assert t.options[k] in t.options;
      var next := BuildOption(t, built, k);
      if next.None? {
        return Err(SparseOption);
      }
      built := next.value;
    }
    assert t.options[..|t.options|] == t.options;
    return Ok(built);
  }

  // ---------------------------------------------------------------------------------------------
  // What was accepted and dense rebuilds into a valid, normal snapshot.
  // ---------------------------------------------------------------------------------------------

  /** The materials of an OR-recipe are those of its first option. */
  predicate Filled(npcs: seq<NpcRecipes>) {
    forall i, j | 0 <= i < |npcs| && 0 <= j < |npcs[i].recipes| ::
      npcs[i].recipes[j].options != [] ==> npcs[i].recipes[j].materials == npcs[i].recipes[j].options[0]
  }

  lemma MaterialInTables(npcs: seq<NpcRecipes>, i: nat, j: nat, m: nat)
    requires i < |npcs| && j < |npcs[i].recipes| && m < |npcs[i].recipes[j].materials|
    ensures var material := npcs[i].recipes[j].materials[m];
      MaterialRow(npcs[i].npcVnum, j, m, material.vnum, material.count) in AllMaterialRows(npcs)
  {
    var material := npcs[i].recipes[j].materials[m];
    var row := MaterialRow(npcs[i].npcVnum, j, m, material.vnum, material.count);
    InMaterialRows(npcs[i].npcVnum, j, npcs[i].recipes[j].materials, row);
    InNpcMaterialRows(npcs[i].npcVnum, npcs[i].recipes, row);
    InAllMaterialRows(npcs, row);
  }

  lemma OptionInTables(npcs: seq<NpcRecipes>, i: nat, j: nat, o: nat, m: nat)
    requires i < |npcs| && j < |npcs[i].recipes| && o < |npcs[i].recipes[j].options| && m < |npcs[i].recipes[j].options[o]|
    ensures var material := npcs[i].recipes[j].options[o][m];
      OptionRow(npcs[i].npcVnum, j, o, m, material.vnum, material.count) in AllOptionRows(npcs)
  {
    var material := npcs[i].recipes[j].options[o][m];
    var row := OptionRow(npcs[i].npcVnum, j, o, m, material.vnum, material.count);
    InOptionRows(npcs[i].npcVnum, j, o, npcs[i].recipes[j].options[o], row);
    InRecipeOptionRows(npcs[i].npcVnum, j, npcs[i].recipes[j].options, row);
    InNpcOptionRows(npcs[i].npcVnum, npcs[i].recipes, row);
    InAllOptionRows(npcs, row);
  }

  lemma RecipeInTables(npcs: seq<NpcRecipes>, i: nat, j: nat)
    requires i < |npcs| && j < |npcs[i].recipes|
    ensures RecipeRowOf(npcs[i].npcVnum, j, npcs[i].recipes[j]) in AllRecipeRows(npcs)
  {
    var row := RecipeRowOf(npcs[i].npcVnum, j, npcs[i].recipes[j]);
    InRecipeRows(npcs[i].npcVnum, npcs[i].recipes, row);
    InAllRecipeRows(npcs, row);
  }

  /** A material row names a material of the snapshot. */
  lemma MaterialOfRow(npcs: seq<NpcRecipes>, i: nat, row: MaterialRow)
    requires Sorted(npcs, VnumOf) && row in AllMaterialRows(npcs) && i < |npcs| && row.npc == npcs[i].npcVnum
    ensures 0 <= row.recipe < |npcs[i].recipes| && 0 <= row.position < |npcs[i].recipes[row.recipe].materials|
    ensures npcs[i].recipes[row.recipe].materials[row.position] == Material(row.item, row.count)
  {
    InAllMaterialRows(npcs, row);
    var l :| 0 <= l < |npcs| && row in NpcMaterialRows(npcs[l].npcVnum, npcs[l].recipes);
    InNpcMaterialRows(npcs[l].npcVnum, npcs[l].recipes, row);
    InMaterialRows(npcs[l].npcVnum, row.recipe, npcs[l].recipes[row.recipe].materials, row);
    OneNpcPerVnum(npcs);
  }

  lemma OptionOfRow(npcs: seq<NpcRecipes>, i: nat, row: OptionRow)
    requires Sorted(npcs, VnumOf) && row in AllOptionRows(npcs) && i < |npcs| && row.npc == npcs[i].npcVnum
    ensures 0 <= row.recipe < |npcs[i].recipes| && 0 <= row.option < |npcs[i].recipes[row.recipe].options|
    ensures 0 <= row.position < |npcs[i].recipes[row.recipe].options[row.option]|
    ensures npcs[i].recipes[row.recipe].options[row.option][row.position] == Material(row.item, row.count)
  {
    InAllOptionRows(npcs, row);
    var l :| 0 <= l < |npcs| && row in NpcOptionRows(npcs[l].npcVnum, npcs[l].recipes);
    InNpcOptionRows(npcs[l].npcVnum, npcs[l].recipes, row);
    InRecipeOptionRows(npcs[l].npcVnum, row.recipe, npcs[l].recipes[row.recipe].options, row);
    InOptionRows(npcs[l].npcVnum, row.recipe, row.option, npcs[l].recipes[row.recipe].options[row.option], row);
    OneNpcPerVnum(npcs);
  }
}
