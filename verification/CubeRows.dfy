/** Which rows a snapshot has. */
module CubeRows {
  import opened Ordered
  import opened Integers
  import opened CubeModel

  lemma InConcat<T>(a: seq<T>, b: seq<T>)
    ensures forall x :: x in a + b <==> x in a || x in b
  {
  }

  // ---------------------------------------------------------------------------------------------
  // Recipes.
  // ---------------------------------------------------------------------------------------------

  lemma {:induction false} RecipeRowsOfNpc(npc: Uint32, recipes: seq<Recipe>)
    ensures |RecipeRows(npc, recipes)| == |recipes|
    ensures forall j | 0 <= j < |recipes| :: var r := recipes[j];
      RecipeRows(npc, recipes)[j] == RecipeRow(npc, j, r.reward.vnum, r.reward.count, r.gold, r.percent)
  {
    if recipes != [] {
      RecipeRowsOfNpc(npc, recipes[..|recipes| - 1]);
    }
  }

  /** One row for every recipe, under its NPC and its place in the list, with its reward, gold and percent; no others. */
  lemma {:induction false} RecipesHaveRows(npcs: seq<NpcRecipes>)
    ensures forall i, j | 0 <= i < |npcs| && 0 <= j < |npcs[i].recipes| :: var r := npcs[i].recipes[j];
      RecipeRow(npcs[i].npcVnum, j, r.reward.vnum, r.reward.count, r.gold, r.percent) in Flatten(npcs).recipes
    ensures forall row | row in Flatten(npcs).recipes :: exists i, j | 0 <= i < |npcs| && 0 <= j < |npcs[i].recipes| ::
      var r := npcs[i].recipes[j]; row == RecipeRow(npcs[i].npcVnum, j, r.reward.vnum, r.reward.count, r.gold, r.percent)
  {
    hide RecipeRows, AllMaterialRows, AllOptionRows;
    if npcs != [] {
      var n := |npcs| - 1;
      var front, own := AllRecipeRows(npcs[..n]), RecipeRows(npcs[n].npcVnum, npcs[n].recipes);
      RecipesHaveRows(npcs[..n]);
      assert Flatten(npcs[..n]).recipes == front && Flatten(npcs).recipes == front + own;
      RecipeRowsOfNpc(npcs[n].npcVnum, npcs[n].recipes);
      InConcat(front, own);
      forall i, j | 0 <= i < |npcs| && 0 <= j < |npcs[i].recipes|
        ensures var r := npcs[i].recipes[j]; RecipeRow(npcs[i].npcVnum, j, r.reward.vnum, r.reward.count, r.gold, r.percent) in front + own
      {
        assert i < n ==> npcs[..n][i].recipes[j] == npcs[i].recipes[j];
        assert i == n ==> own[j] in own;
      }
      forall row | row in front + own
        ensures exists i, j | 0 <= i < |npcs| && 0 <= j < |npcs[i].recipes| ::
          var r := npcs[i].recipes[j]; row == RecipeRow(npcs[i].npcVnum, j, r.reward.vnum, r.reward.count, r.gold, r.percent)
      {
        if row in own {
          var j :| 0 <= j < |own| && own[j] == row;
          assert npcs[n].recipes[j] == npcs[n].recipes[j];
        } else {
          var i, j :| 0 <= i < |npcs[..n]| && 0 <= j < |npcs[..n][i].recipes| &&
            var r := npcs[..n][i].recipes[j]; row == RecipeRow(npcs[..n][i].npcVnum, j, r.reward.vnum, r.reward.count, r.gold, r.percent);
          assert npcs[i].recipes[j] == npcs[..n][i].recipes[j];
        }
      }
    }
  }

  // ---------------------------------------------------------------------------------------------
  // Materials.
  // ---------------------------------------------------------------------------------------------

  lemma {:induction false} MaterialRowsOf(npc: Uint32, recipe: nat, materials: seq<Material>)
    ensures |MaterialRows(npc, recipe, materials)| == |materials|
    ensures forall k | 0 <= k < |materials| ::
      MaterialRows(npc, recipe, materials)[k] == MaterialRow(npc, recipe, k, materials[k].vnum, materials[k].count)
  {
    if materials != [] {
      MaterialRowsOf(npc, recipe, materials[..|materials| - 1]);
    }
  }

  lemma {:induction false} MaterialRowsOfNpc(npc: Uint32, recipes: seq<Recipe>)
    ensures forall j, k | 0 <= j < |recipes| && 0 <= k < |recipes[j].materials| :: var m := recipes[j].materials[k];
      MaterialRow(npc, j, k, m.vnum, m.count) in NpcMaterialRows(npc, recipes)
    ensures forall row | row in NpcMaterialRows(npc, recipes) :: exists j, k | 0 <= j < |recipes| && 0 <= k < |recipes[j].materials| ::
      var m := recipes[j].materials[k]; row == MaterialRow(npc, j, k, m.vnum, m.count)
  {
    hide MaterialRows;
    if recipes != [] {
      var n := |recipes| - 1;
      var front, own := NpcMaterialRows(npc, recipes[..n]), MaterialRows(npc, n, recipes[n].materials);
      MaterialRowsOfNpc(npc, recipes[..n]);
      MaterialRowsOf(npc, n, recipes[n].materials);
      InConcat(front, own);
      forall j, k | 0 <= j < |recipes| && 0 <= k < |recipes[j].materials|
        ensures var m := recipes[j].materials[k]; MaterialRow(npc, j, k, m.vnum, m.count) in front + own
      {
        assert j < n ==> recipes[..n][j].materials[k] == recipes[j].materials[k];
        assert j == n ==> own[k] in own;
      }
      forall row | row in front + own
        ensures exists j, k | 0 <= j < |recipes| && 0 <= k < |recipes[j].materials| ::
          var m := recipes[j].materials[k]; row == MaterialRow(npc, j, k, m.vnum, m.count)
      {
        if row in own {
          var k :| 0 <= k < |own| && own[k] == row;
          assert recipes[n].materials[k] == recipes[n].materials[k];
        } else {
          var j, k :| 0 <= j < n && 0 <= k < |recipes[..n][j].materials| &&
            var m := recipes[..n][j].materials[k]; row == MaterialRow(npc, j, k, m.vnum, m.count);
          assert recipes[j].materials[k] == recipes[..n][j].materials[k];
        }
      }
    }
  }

  /** One row for every material of every recipe, under its place in the list, with its item and count; no others. */
  lemma {:induction false} MaterialsHaveRows(npcs: seq<NpcRecipes>)
    ensures forall i, j, k | 0 <= i < |npcs| && 0 <= j < |npcs[i].recipes| && 0 <= k < |npcs[i].recipes[j].materials| ::
      var m := npcs[i].recipes[j].materials[k];
      MaterialRow(npcs[i].npcVnum, j, k, m.vnum, m.count) in Flatten(npcs).materials
    ensures forall row | row in Flatten(npcs).materials ::
      exists i, j, k | 0 <= i < |npcs| && 0 <= j < |npcs[i].recipes| && 0 <= k < |npcs[i].recipes[j].materials| ::
      var m := npcs[i].recipes[j].materials[k]; row == MaterialRow(npcs[i].npcVnum, j, k, m.vnum, m.count)
  {
    hide NpcMaterialRows, AllRecipeRows, AllOptionRows;
    if npcs != [] {
      var n := |npcs| - 1;
      var front, own := AllMaterialRows(npcs[..n]), NpcMaterialRows(npcs[n].npcVnum, npcs[n].recipes);
      MaterialsHaveRows(npcs[..n]);
      assert Flatten(npcs[..n]).materials == front && Flatten(npcs).materials == front + own;
      MaterialRowsOfNpc(npcs[n].npcVnum, npcs[n].recipes);
      InConcat(front, own);
      forall i, j, k | 0 <= i < |npcs| && 0 <= j < |npcs[i].recipes| && 0 <= k < |npcs[i].recipes[j].materials|
        ensures var m := npcs[i].recipes[j].materials[k]; MaterialRow(npcs[i].npcVnum, j, k, m.vnum, m.count) in front + own
      {
        assert i < n ==> npcs[..n][i].recipes[j].materials[k] == npcs[i].recipes[j].materials[k];
      }
      forall row | row in front + own
        ensures exists i, j, k | 0 <= i < |npcs| && 0 <= j < |npcs[i].recipes| && 0 <= k < |npcs[i].recipes[j].materials| ::
          var m := npcs[i].recipes[j].materials[k]; row == MaterialRow(npcs[i].npcVnum, j, k, m.vnum, m.count)
      {
        if row in own {
          var j, k :| 0 <= j < |npcs[n].recipes| && 0 <= k < |npcs[n].recipes[j].materials| &&
            var m := npcs[n].recipes[j].materials[k]; row == MaterialRow(npcs[n].npcVnum, j, k, m.vnum, m.count);
        } else {
          var i, j, k :| 0 <= i < n && 0 <= j < |npcs[..n][i].recipes| && 0 <= k < |npcs[..n][i].recipes[j].materials| &&
            var m := npcs[..n][i].recipes[j].materials[k]; row == MaterialRow(npcs[..n][i].npcVnum, j, k, m.vnum, m.count);
          assert npcs[i].recipes[j].materials[k] == npcs[..n][i].recipes[j].materials[k];
        }
      }
    }
  }

  // ---------------------------------------------------------------------------------------------
  // Options.
  // ---------------------------------------------------------------------------------------------

  lemma {:induction false} OptionRowsOf(npc: Uint32, recipe: nat, option: nat, materials: seq<Material>)
    ensures |OptionRows(npc, recipe, option, materials)| == |materials|
    ensures forall k | 0 <= k < |materials| ::
      OptionRows(npc, recipe, option, materials)[k] == OptionRow(npc, recipe, option, k, materials[k].vnum, materials[k].count)
  {
    if materials != [] {
      OptionRowsOf(npc, recipe, option, materials[..|materials| - 1]);
    }
  }

  lemma {:induction false} OptionRowsOfRecipe(npc: Uint32, recipe: nat, options: seq<seq<Material>>)
    ensures forall o, k | 0 <= o < |options| && 0 <= k < |options[o]| ::
      OptionRow(npc, recipe, o, k, options[o][k].vnum, options[o][k].count) in RecipeOptionRows(npc, recipe, options)
    ensures forall row | row in RecipeOptionRows(npc, recipe, options) :: exists o, k | 0 <= o < |options| && 0 <= k < |options[o]| ::
      row == OptionRow(npc, recipe, o, k, options[o][k].vnum, options[o][k].count)
  {
    hide OptionRows;
    if options != [] {
      var n := |options| - 1;
      var front, own := RecipeOptionRows(npc, recipe, options[..n]), OptionRows(npc, recipe, n, options[n]);
      OptionRowsOfRecipe(npc, recipe, options[..n]);
      OptionRowsOf(npc, recipe, n, options[n]);
      InConcat(front, own);
      forall o, k | 0 <= o < |options| && 0 <= k < |options[o]|
        ensures OptionRow(npc, recipe, o, k, options[o][k].vnum, options[o][k].count) in front + own
      {
        assert o < n ==> options[..n][o][k] == options[o][k];
        assert o == n ==> own[k] in own;
      }
      forall row | row in front + own
        ensures exists o, k | 0 <= o < |options| && 0 <= k < |options[o]| :: row == OptionRow(npc, recipe, o, k, options[o][k].vnum, options[o][k].count)
      {
        if row in own {
          var k :| 0 <= k < |own| && own[k] == row;
          assert options[n][k] == options[n][k];
        } else {
          var o, k :| 0 <= o < n && 0 <= k < |options[..n][o]| &&
            row == OptionRow(npc, recipe, o, k, options[..n][o][k].vnum, options[..n][o][k].count);
          assert options[o][k] == options[..n][o][k];
        }
      }
    }
  }

  lemma {:induction false} OptionRowsOfNpc(npc: Uint32, recipes: seq<Recipe>)
    ensures forall j, o, k | 0 <= j < |recipes| && 0 <= o < |recipes[j].options| && 0 <= k < |recipes[j].options[o]| ::
      var m := recipes[j].options[o][k]; OptionRow(npc, j, o, k, m.vnum, m.count) in NpcOptionRows(npc, recipes)
    ensures forall row | row in NpcOptionRows(npc, recipes) ::
      exists j, o, k | 0 <= j < |recipes| && 0 <= o < |recipes[j].options| && 0 <= k < |recipes[j].options[o]| ::
      var m := recipes[j].options[o][k]; row == OptionRow(npc, j, o, k, m.vnum, m.count)
  {
    hide RecipeOptionRows;
    if recipes != [] {
      var n := |recipes| - 1;
      var front, own := NpcOptionRows(npc, recipes[..n]), RecipeOptionRows(npc, n, recipes[n].options);
      OptionRowsOfNpc(npc, recipes[..n]);
      OptionRowsOfRecipe(npc, n, recipes[n].options);
      InConcat(front, own);
      forall j, o, k | 0 <= j < |recipes| && 0 <= o < |recipes[j].options| && 0 <= k < |recipes[j].options[o]|
        ensures var m := recipes[j].options[o][k]; OptionRow(npc, j, o, k, m.vnum, m.count) in front + own
      {
        assert j < n ==> recipes[..n][j].options[o][k] == recipes[j].options[o][k];
      }
      forall row | row in front + own
        ensures exists j, o, k | 0 <= j < |recipes| && 0 <= o < |recipes[j].options| && 0 <= k < |recipes[j].options[o]| ::
          var m := recipes[j].options[o][k]; row == OptionRow(npc, j, o, k, m.vnum, m.count)
      {
        if row in own {
          var o, k :| 0 <= o < |recipes[n].options| && 0 <= k < |recipes[n].options[o]| &&
            row == OptionRow(npc, n, o, k, recipes[n].options[o][k].vnum, recipes[n].options[o][k].count);
        } else {
          var j, o, k :| 0 <= j < n && 0 <= o < |recipes[..n][j].options| && 0 <= k < |recipes[..n][j].options[o]| &&
            var m := recipes[..n][j].options[o][k]; row == OptionRow(npc, j, o, k, m.vnum, m.count);
          assert recipes[j].options[o][k] == recipes[..n][j].options[o][k];
        }
      }
    }
  }

  /** One row for every material of every option of every recipe; no others. */
  lemma {:induction false} OptionsHaveRows(npcs: seq<NpcRecipes>)
    ensures forall i, j, o, k | 0 <= i < |npcs| && 0 <= j < |npcs[i].recipes| && 0 <= o < |npcs[i].recipes[j].options|
      && 0 <= k < |npcs[i].recipes[j].options[o]| :: var m := npcs[i].recipes[j].options[o][k];
      OptionRow(npcs[i].npcVnum, j, o, k, m.vnum, m.count) in Flatten(npcs).options
    ensures forall row | row in Flatten(npcs).options ::
      exists i, j, o, k | 0 <= i < |npcs| && 0 <= j < |npcs[i].recipes| && 0 <= o < |npcs[i].recipes[j].options|
        && 0 <= k < |npcs[i].recipes[j].options[o]| ::
      var m := npcs[i].recipes[j].options[o][k]; row == OptionRow(npcs[i].npcVnum, j, o, k, m.vnum, m.count)
  {
    hide NpcOptionRows, AllRecipeRows, AllMaterialRows;
    if npcs != [] {
      var n := |npcs| - 1;
      var front, own := AllOptionRows(npcs[..n]), NpcOptionRows(npcs[n].npcVnum, npcs[n].recipes);
      OptionsHaveRows(npcs[..n]);
      assert Flatten(npcs[..n]).options == front && Flatten(npcs).options == front + own;
      OptionRowsOfNpc(npcs[n].npcVnum, npcs[n].recipes);
      InConcat(front, own);
      forall i, j, o, k | 0 <= i < |npcs| && 0 <= j < |npcs[i].recipes| && 0 <= o < |npcs[i].recipes[j].options|
        && 0 <= k < |npcs[i].recipes[j].options[o]|
        ensures var m := npcs[i].recipes[j].options[o][k]; OptionRow(npcs[i].npcVnum, j, o, k, m.vnum, m.count) in front + own
      {
        assert i < n ==> npcs[..n][i].recipes[j].options[o][k] == npcs[i].recipes[j].options[o][k];
      }
      forall row | row in front + own
        ensures exists i, j, o, k | 0 <= i < |npcs| && 0 <= j < |npcs[i].recipes| && 0 <= o < |npcs[i].recipes[j].options|
            && 0 <= k < |npcs[i].recipes[j].options[o]| ::
          var m := npcs[i].recipes[j].options[o][k]; row == OptionRow(npcs[i].npcVnum, j, o, k, m.vnum, m.count)
      {
        if row in own {
          var j, o, k :| 0 <= j < |npcs[n].recipes| && 0 <= o < |npcs[n].recipes[j].options| && 0 <= k < |npcs[n].recipes[j].options[o]| &&
            var m := npcs[n].recipes[j].options[o][k]; row == OptionRow(npcs[n].npcVnum, j, o, k, m.vnum, m.count);
        } else {
          var i, j, o, k :| 0 <= i < n && 0 <= j < |npcs[..n][i].recipes| && 0 <= o < |npcs[..n][i].recipes[j].options|
            && 0 <= k < |npcs[..n][i].recipes[j].options[o]| &&
            var m := npcs[..n][i].recipes[j].options[o][k]; row == OptionRow(npcs[..n][i].npcVnum, j, o, k, m.vnum, m.count);
          assert npcs[i].recipes[j].options[o][k] == npcs[..n][i].recipes[j].options[o][k];
        }
      }
    }
  }
}
