/** The row tables of a snapshot: which rows they hold, that they are sorted by key, and that they determine it. */
module CubeFlatten {
  import opened Ordered
  import opened Integers
  import opened Ids
  import opened CubeModel

  // ---------------------------------------------------------------------------------------------
  // Which rows.
  // ---------------------------------------------------------------------------------------------

  lemma {:induction false} InRecipeRows(npc: Uint32, recipes: seq<Recipe>, row: RecipeRow)
    ensures row in RecipeRows(npc, recipes) <==>
      0 <= row.position < |recipes| && row == RecipeRowOf(npc, row.position, recipes[row.position])
  {
    if recipes != [] {
      InRecipeRows(npc, recipes[..|recipes| - 1], row);
    }
  }

  lemma {:induction false} InMaterialRows(npc: Uint32, recipe: nat, materials: seq<Material>, row: MaterialRow)
    ensures row in MaterialRows(npc, recipe, materials) <==>
      && row.npc == npc && row.recipe == recipe
      && 0 <= row.position < |materials| && Material(row.item, row.count) == materials[row.position]
  {
    if materials != [] {
      InMaterialRows(npc, recipe, materials[..|materials| - 1], row);
    }
  }

  lemma {:induction false} InNpcMaterialRows(npc: Uint32, recipes: seq<Recipe>, row: MaterialRow)
    ensures row in NpcMaterialRows(npc, recipes) <==>
      0 <= row.recipe < |recipes| && row in MaterialRows(npc, row.recipe, recipes[row.recipe].materials)
  {
    if recipes != [] {
      var last := |recipes| - 1;
      InNpcMaterialRows(npc, recipes[..last], row);
      InMaterialRows(npc, last, recipes[last].materials, row);
    }
  }

  lemma {:induction false} InOptionRows(npc: Uint32, recipe: nat, option: nat, materials: seq<Material>, row: OptionRow)
    ensures row in OptionRows(npc, recipe, option, materials) <==>
      && row.npc == npc && row.recipe == recipe && row.option == option
      && 0 <= row.position < |materials| && Material(row.item, row.count) == materials[row.position]
  {
    if materials != [] {
      InOptionRows(npc, recipe, option, materials[..|materials| - 1], row);
    }
  }

  lemma {:induction false} InRecipeOptionRows(npc: Uint32, recipe: nat, options: seq<seq<Material>>, row: OptionRow)
    ensures row in RecipeOptionRows(npc, recipe, options) <==>
      0 <= row.option < |options| && row in OptionRows(npc, recipe, row.option, options[row.option])
  {
    if options != [] {
      var last := |options| - 1;
      InRecipeOptionRows(npc, recipe, options[..last], row);
      InOptionRows(npc, recipe, last, options[last], row);
    }
  }

  lemma {:induction false} InNpcOptionRows(npc: Uint32, recipes: seq<Recipe>, row: OptionRow)
    ensures row in NpcOptionRows(npc, recipes) <==>
      0 <= row.recipe < |recipes| && row in RecipeOptionRows(npc, row.recipe, recipes[row.recipe].options)
  {
    if recipes != [] {
      var last := |recipes| - 1;
      InNpcOptionRows(npc, recipes[..last], row);
      InRecipeOptionRows(npc, last, recipes[last].options, row);
      if row in RecipeOptionRows(npc, last, recipes[last].options) {
        InOptionRows(npc, last, row.option, recipes[last].options[row.option], row);
      }
    }
  }

  lemma {:induction false} InAllRecipeRows(npcs: seq<NpcRecipes>, row: RecipeRow)
    ensures row in AllRecipeRows(npcs) <==>
      exists i :: 0 <= i < |npcs| && row in RecipeRows(npcs[i].npcVnum, npcs[i].recipes)
  {
    if npcs != [] {
      var last := |npcs| - 1;
      InAllRecipeRows(npcs[..last], row);
      assert forall i | 0 <= i < last :: npcs[..last][i] == npcs[i];
    }
  }

  lemma {:induction false} InAllMaterialRows(npcs: seq<NpcRecipes>, row: MaterialRow)
    ensures row in AllMaterialRows(npcs) <==>
      exists i :: 0 <= i < |npcs| && row in NpcMaterialRows(npcs[i].npcVnum, npcs[i].recipes)
  {
    if npcs != [] {
      var last := |npcs| - 1;
      InAllMaterialRows(npcs[..last], row);
      assert forall i | 0 <= i < last :: npcs[..last][i] == npcs[i];
    }
  }

  lemma {:induction false} InAllOptionRows(npcs: seq<NpcRecipes>, row: OptionRow)
    ensures row in AllOptionRows(npcs) <==>
      exists i :: 0 <= i < |npcs| && row in NpcOptionRows(npcs[i].npcVnum, npcs[i].recipes)
  {
    if npcs != [] {
      var last := |npcs| - 1;
      InAllOptionRows(npcs[..last], row);
      assert forall i | 0 <= i < last :: npcs[..last][i] == npcs[i];
    }
  }

  // ---------------------------------------------------------------------------------------------
  // Sorted by primary key.
  // ---------------------------------------------------------------------------------------------

  lemma {:induction false} RecipeRowsSorted(npc: Uint32, recipes: seq<Recipe>)
    ensures Sorted(RecipeRows(npc, recipes), RecipeKey)
    ensures forall r | r in RecipeRows(npc, recipes) :: r.npc == npc && 0 <= r.position < |recipes|
  {
    if recipes != [] {
      var last := |recipes| - 1;
      RecipeRowsSorted(npc, recipes[..last]);
      SortedConcat(RecipeRows(npc, recipes[..last]), [RecipeRowOf(npc, last, recipes[last])], RecipeKey);
    }
  }

  lemma {:induction false} MaterialRowsSorted(npc: Uint32, recipe: nat, materials: seq<Material>)
    ensures Sorted(MaterialRows(npc, recipe, materials), MaterialKey)
    ensures forall r | r in MaterialRows(npc, recipe, materials) ::
      r.npc == npc && r.recipe == recipe && 0 <= r.position < |materials|
  {
    if materials != [] {
      var last := |materials| - 1;
      MaterialRowsSorted(npc, recipe, materials[..last]);
      SortedConcat(MaterialRows(npc, recipe, materials[..last]),
        [MaterialRow(npc, recipe, last, materials[last].vnum, materials[last].count)], MaterialKey);
    }
  }

  lemma {:induction false} NpcMaterialRowsSorted(npc: Uint32, recipes: seq<Recipe>)
    ensures Sorted(NpcMaterialRows(npc, recipes), MaterialKey)
    ensures forall r | r in NpcMaterialRows(npc, recipes) :: r.npc == npc && 0 <= r.recipe < |recipes|
  {
    if recipes != [] {
      var last := |recipes| - 1;
      NpcMaterialRowsSorted(npc, recipes[..last]);
      MaterialRowsSorted(npc, last, recipes[last].materials);
      SortedConcat(NpcMaterialRows(npc, recipes[..last]), MaterialRows(npc, last, recipes[last].materials), MaterialKey);
    }
  }

  lemma {:induction false} OptionRowsSorted(npc: Uint32, recipe: nat, option: nat, materials: seq<Material>)
    ensures Sorted(OptionRows(npc, recipe, option, materials), OptionKey)
    ensures forall r | r in OptionRows(npc, recipe, option, materials) ::
      r.npc == npc && r.recipe == recipe && r.option == option && 0 <= r.position < |materials|
  {
    if materials != [] {
      var last := |materials| - 1;
      OptionRowsSorted(npc, recipe, option, materials[..last]);
      SortedConcat(OptionRows(npc, recipe, option, materials[..last]),
        [OptionRow(npc, recipe, option, last, materials[last].vnum, materials[last].count)], OptionKey);
    }
  }

  lemma {:induction false} RecipeOptionRowsSorted(npc: Uint32, recipe: nat, options: seq<seq<Material>>)
    ensures Sorted(RecipeOptionRows(npc, recipe, options), OptionKey)
    ensures forall r | r in RecipeOptionRows(npc, recipe, options) ::
      r.npc == npc && r.recipe == recipe && 0 <= r.option < |options|
  {
    if options != [] {
      var last := |options| - 1;
      RecipeOptionRowsSorted(npc, recipe, options[..last]);
      OptionRowsSorted(npc, recipe, last, options[last]);
      SortedConcat(RecipeOptionRows(npc, recipe, options[..last]), OptionRows(npc, recipe, last, options[last]), OptionKey);
    }
  }

  lemma {:induction false} NpcOptionRowsSorted(npc: Uint32, recipes: seq<Recipe>)
    ensures Sorted(NpcOptionRows(npc, recipes), OptionKey)
    ensures forall r | r in NpcOptionRows(npc, recipes) :: r.npc == npc && 0 <= r.recipe < |recipes|
  {
    if recipes != [] {
      var last := |recipes| - 1;
      NpcOptionRowsSorted(npc, recipes[..last]);
      RecipeOptionRowsSorted(npc, last, recipes[last].options);
      SortedConcat(NpcOptionRows(npc, recipes[..last]), RecipeOptionRows(npc, last, recipes[last].options), OptionKey);
    }
  }

  /** The tables of NPCs in ascending order are sorted, and every row belongs to one of the NPCs. */
  lemma {:induction false} FlattenSorted(npcs: seq<NpcRecipes>)
    requires Sorted(npcs, VnumOf)
    ensures SortedTables(Flatten(npcs))
    ensures forall r | r in AllRecipeRows(npcs) :: r.npc in Vnums(npcs)
    ensures forall r | r in AllMaterialRows(npcs) :: r.npc in Vnums(npcs)
    ensures forall r | r in AllOptionRows(npcs) :: r.npc in Vnums(npcs)
  {
    if npcs != [] {
      var n := |npcs| - 1;
      var before, last := npcs[..n], npcs[n];
      FlattenSorted(before);
      VnumsBelow(npcs);
      RecipeRowsSorted(last.npcVnum, last.recipes);
      NpcMaterialRowsSorted(last.npcVnum, last.recipes);
      NpcOptionRowsSorted(last.npcVnum, last.recipes);
      SortedConcat(Vnums(before), [last.npcVnum], IdKey);
      SortedConcat(AllRecipeRows(before), RecipeRows(last.npcVnum, last.recipes), RecipeKey);
      SortedConcat(AllMaterialRows(before), NpcMaterialRows(last.npcVnum, last.recipes), MaterialKey);
      SortedConcat(AllOptionRows(before), NpcOptionRows(last.npcVnum, last.recipes), OptionKey);
    }
  }

  predicate SortedTables(t: Tables) {
    && Sorted(t.npcs, IdKey) && Sorted(t.recipes, RecipeKey)
    && Sorted(t.materials, MaterialKey) && Sorted(t.options, OptionKey)
  }

  lemma VnumsBelow(npcs: seq<NpcRecipes>)
    requires Sorted(npcs, VnumOf) && npcs != []
    ensures forall i | 0 <= i < |npcs| - 1 :: npcs[i].npcVnum < npcs[|npcs| - 1].npcVnum
  {
    var n := |npcs| - 1;
    forall i | 0 <= i < n ensures npcs[i].npcVnum < npcs[n].npcVnum {
      assert Less(VnumOf(npcs[i]), VnumOf(npcs[n]));
    }
  }

  // ---------------------------------------------------------------------------------------------
  // The tables determine the snapshot.
  // ---------------------------------------------------------------------------------------------

  predicate NonEmptyGroups(options: seq<seq<Material>>) {
    forall o | 0 <= o < |options| :: options[o] != []
  }

  /** Every option of every recipe has materials, as in a valid snapshot. */
  predicate WellGrouped(npcs: seq<NpcRecipes>) {
    forall i, j | 0 <= i < |npcs| && 0 <= j < |npcs[i].recipes| :: NonEmptyGroups(npcs[i].recipes[j].options)
  }

  lemma {:induction false} RecipeRowsInjective(npc: Uint32, a: seq<Recipe>, b: seq<Recipe>)
    requires RecipeRows(npc, a) == RecipeRows(npc, b)
    ensures |a| == |b|
    ensures forall j | 0 <= j < |a| :: RecipeRowOf(npc, j, a[j]) == RecipeRowOf(npc, j, b[j])
  {
    if a != [] && b != [] {
      var n, m := |a| - 1, |b| - 1;
      var ra, rb := RecipeRows(npc, a[..n]), RecipeRows(npc, b[..m]);
      assert ra == RecipeRows(npc, a)[..|ra|] == RecipeRows(npc, b)[..|rb|] == rb;
      RecipeRowsInjective(npc, a[..n], b[..m]);
    }
  }

  lemma {:induction false} MaterialRowsInjective(npc: Uint32, recipe: nat, a: seq<Material>, b: seq<Material>)
    requires MaterialRows(npc, recipe, a) == MaterialRows(npc, recipe, b)
    ensures a == b
  {
    if a != [] && b != [] {
      var n, m := |a| - 1, |b| - 1;
      var ra, rb := MaterialRows(npc, recipe, a[..n]), MaterialRows(npc, recipe, b[..m]);
      assert ra == MaterialRows(npc, recipe, a)[..|ra|] == MaterialRows(npc, recipe, b)[..|rb|] == rb;
      MaterialRowsInjective(npc, recipe, a[..n], b[..m]);
      assert a == a[..n] + [a[n]] && b == b[..m] + [b[m]];
    }
  }

  lemma {:induction false} NpcMaterialRowsInjective(npc: Uint32, a: seq<Recipe>, b: seq<Recipe>)
    requires |a| == |b| && NpcMaterialRows(npc, a) == NpcMaterialRows(npc, b)
    ensures forall j | 0 <= j < |a| :: a[j].materials == b[j].materials
  {
    hide MaterialRows;
    if a != [] {
      var n := |a| - 1;
      NpcMaterialRowsSorted(npc, a[..n]);
      NpcMaterialRowsSorted(npc, b[..n]);
      MaterialRowsSorted(npc, n, a[n].materials);
      MaterialRowsSorted(npc, n, b[n].materials);
      SplitIsUnique(NpcMaterialRows(npc, a[..n]), MaterialRows(npc, n, a[n].materials),
        NpcMaterialRows(npc, b[..n]), MaterialRows(npc, n, b[n].materials), (r: MaterialRow) => r.recipe == n);
      NpcMaterialRowsInjective(npc, a[..n], b[..n]);
      MaterialRowsInjective(npc, n, a[n].materials, b[n].materials);
      assert forall j | 0 <= j < n :: a[..n][j] == a[j] && b[..n][j] == b[j];
    }
  }

  lemma {:induction false} OptionRowsInjective(npc: Uint32, recipe: nat, option: nat, a: seq<Material>, b: seq<Material>)
    requires OptionRows(npc, recipe, option, a) == OptionRows(npc, recipe, option, b)
    ensures a == b
  {
    if a != [] && b != [] {
      var n, m := |a| - 1, |b| - 1;
      var ra, rb := OptionRows(npc, recipe, option, a[..n]), OptionRows(npc, recipe, option, b[..m]);
      assert ra == OptionRows(npc, recipe, option, a)[..|ra|] == OptionRows(npc, recipe, option, b)[..|rb|] == rb;
      OptionRowsInjective(npc, recipe, option, a[..n], b[..m]);
      assert a == a[..n] + [a[n]] && b == b[..m] + [b[m]];
    }
  }

  /** The last row of a recipe's options tells how many options there are. */
  lemma LastOption(npc: Uint32, recipe: nat, options: seq<seq<Material>>)
    requires NonEmptyGroups(options) && options != []
    ensures var rows := RecipeOptionRows(npc, recipe, options); rows != [] && rows[|rows| - 1].option == |options| - 1
  {
    var group := OptionRows(npc, recipe, |options| - 1, options[|options| - 1]);
    assert group[|group| - 1].option == |options| - 1;
  }

  lemma LastOptionRows(npc: Uint32, recipe: nat, a: seq<seq<Material>>, b: seq<seq<Material>>)
    requires a != [] && |a| == |b| && RecipeOptionRows(npc, recipe, a) == RecipeOptionRows(npc, recipe, b)
    ensures var n := |a| - 1;
      && RecipeOptionRows(npc, recipe, a[..n]) == RecipeOptionRows(npc, recipe, b[..n])
      && OptionRows(npc, recipe, n, a[n]) == OptionRows(npc, recipe, n, b[n])
  {
    hide OptionRows;
    var n := |a| - 1;
    RecipeOptionRowsSorted(npc, recipe, a[..n]);
    RecipeOptionRowsSorted(npc, recipe, b[..n]);
    OptionRowsSorted(npc, recipe, n, a[n]);
    OptionRowsSorted(npc, recipe, n, b[n]);
    SplitIsUnique(RecipeOptionRows(npc, recipe, a[..n]), OptionRows(npc, recipe, n, a[n]),
      RecipeOptionRows(npc, recipe, b[..n]), OptionRows(npc, recipe, n, b[n]), (r: OptionRow) => r.option == n);
  }

  lemma SameOptionCount(npc: Uint32, recipe: nat, a: seq<seq<Material>>, b: seq<seq<Material>>)
    requires NonEmptyGroups(a) && NonEmptyGroups(b)
    requires RecipeOptionRows(npc, recipe, a) == RecipeOptionRows(npc, recipe, b)
    ensures |a| == |b|
  {
    hide OptionRows;
    if a != [] {
      LastOption(npc, recipe, a);
    }
    if b != [] {
      LastOption(npc, recipe, b);
    }
  }

  lemma {:induction false} RecipeOptionRowsInjective(npc: Uint32, recipe: nat, a: seq<seq<Material>>, b: seq<seq<Material>>)
    requires NonEmptyGroups(a) && NonEmptyGroups(b)
    requires RecipeOptionRows(npc, recipe, a) == RecipeOptionRows(npc, recipe, b)
    ensures a == b
    decreases |a|
  {
    hide OptionRows, RecipeOptionRows;
    SameOptionCount(npc, recipe, a, b);
    if a != [] {
      var n := |a| - 1;
      LastOptionRows(npc, recipe, a, b);
      RecipeOptionRowsInjective(npc, recipe, a[..n], b[..n]);
      OptionRowsInjective(npc, recipe, n, a[n], b[n]);
      assert a == a[..n] + [a[n]] && b == b[..n] + [b[n]];
    }
  }

  lemma LastRecipeOptionRows(npc: Uint32, a: seq<Recipe>, b: seq<Recipe>)
    requires a != [] && |a| == |b| && NpcOptionRows(npc, a) == NpcOptionRows(npc, b)
    ensures var n := |a| - 1;
      && NpcOptionRows(npc, a[..n]) == NpcOptionRows(npc, b[..n])
      && RecipeOptionRows(npc, n, a[n].options) == RecipeOptionRows(npc, n, b[n].options)
  {
    hide RecipeOptionRows;
    var n := |a| - 1;
    NpcOptionRowsSorted(npc, a[..n]);
    NpcOptionRowsSorted(npc, b[..n]);
    RecipeOptionRowsSorted(npc, n, a[n].options);
    RecipeOptionRowsSorted(npc, n, b[n].options);
    SplitIsUnique(NpcOptionRows(npc, a[..n]), RecipeOptionRows(npc, n, a[n].options),
      NpcOptionRows(npc, b[..n]), RecipeOptionRows(npc, n, b[n].options), (r: OptionRow) => r.recipe == n);
  }

  lemma {:induction false} NpcOptionRowsInjective(npc: Uint32, a: seq<Recipe>, b: seq<Recipe>)
    requires |a| == |b| && NpcOptionRows(npc, a) == NpcOptionRows(npc, b)
    requires forall j | 0 <= j < |a| :: NonEmptyGroups(a[j].options) && NonEmptyGroups(b[j].options)
    ensures forall j | 0 <= j < |a| :: a[j].options == b[j].options
  {
    hide RecipeOptionRows, NpcOptionRows, NonEmptyGroups;
    if a != [] {
      var n := |a| - 1;
      LastRecipeOptionRows(npc, a, b);
      assert forall j | 0 <= j < n :: a[..n][j] == a[j] && b[..n][j] == b[j];
      NpcOptionRowsInjective(npc, a[..n], b[..n]);
      RecipeOptionRowsInjective(npc, n, a[n].options, b[n].options);
    }
  }

  lemma RecipesDetermined(npc: Uint32, a: seq<Recipe>, b: seq<Recipe>)
    requires RecipeRows(npc, a) == RecipeRows(npc, b)
    requires NpcMaterialRows(npc, a) == NpcMaterialRows(npc, b)
    requires NpcOptionRows(npc, a) == NpcOptionRows(npc, b)
    requires forall j | 0 <= j < |a| :: NonEmptyGroups(a[j].options)
    requires forall j | 0 <= j < |b| :: NonEmptyGroups(b[j].options)
    ensures a == b
  {
    hide NpcMaterialRows, NpcOptionRows, RecipeRows, NonEmptyGroups;
    RecipeRowsInjective(npc, a, b);
    NpcMaterialRowsInjective(npc, a, b);
    NpcOptionRowsInjective(npc, a, b);
    forall j | 0 <= j < |a| ensures a[j] == b[j] {
      assert RecipeRowOf(npc, j, a[j]) == RecipeRowOf(npc, j, b[j]);
    }
  }

  /** The rows of the last NPC carry its number, and no row in front of them does. */
  lemma NpcMarks(npcs: seq<NpcRecipes>)
    requires Sorted(npcs, VnumOf) && npcs != []
    ensures var n := |npcs| - 1;
      var v, recipes := npcs[n].npcVnum, npcs[n].recipes;
      && (forall r | r in AllRecipeRows(npcs[..n]) :: r.npc != v) && (forall r | r in RecipeRows(v, recipes) :: r.npc == v)
      && (forall r | r in AllMaterialRows(npcs[..n]) :: r.npc != v) && (forall r | r in NpcMaterialRows(v, recipes) :: r.npc == v)
      && (forall r | r in AllOptionRows(npcs[..n]) :: r.npc != v) && (forall r | r in NpcOptionRows(v, recipes) :: r.npc == v)
  {
    hide AllRecipeRows, AllMaterialRows, AllOptionRows;
    var n := |npcs| - 1;
    VnumsBelow(npcs);
    FlattenSorted(npcs[..n]);
    RecipeRowsSorted(npcs[n].npcVnum, npcs[n].recipes);
    NpcMaterialRowsSorted(npcs[n].npcVnum, npcs[n].recipes);
    NpcOptionRowsSorted(npcs[n].npcVnum, npcs[n].recipes);
  }

  /** Splitting off the last NPC's rows is possible in only one way. */
  lemma LastNpcRows(a: seq<NpcRecipes>, b: seq<NpcRecipes>)
    requires Sorted(a, VnumOf) && Sorted(b, VnumOf) && a != [] && b != []
    requires Flatten(a) == Flatten(b)
    ensures Flatten(a[..|a| - 1]) == Flatten(b[..|b| - 1])
    ensures var x, y := a[|a| - 1], b[|b| - 1];
      && x.npcVnum == y.npcVnum
      && RecipeRows(x.npcVnum, x.recipes) == RecipeRows(y.npcVnum, y.recipes)
      && NpcMaterialRows(x.npcVnum, x.recipes) == NpcMaterialRows(y.npcVnum, y.recipes)
      && NpcOptionRows(x.npcVnum, x.recipes) == NpcOptionRows(y.npcVnum, y.recipes)
  {
    hide RecipeRows, NpcMaterialRows, NpcOptionRows, Sorted;
    NpcMarks(a);
    NpcMarks(b);
    var n, m := |a| - 1, |b| - 1;
    assert Vnums(a)[n] == a[n].npcVnum && Vnums(b)[m] == b[m].npcVnum && n == m;
    var v := a[n].npcVnum;
    assert Vnums(a[..n]) == Vnums(a)[..n] && Vnums(b[..m]) == Vnums(b)[..m];
    SplitIsUnique(AllRecipeRows(a[..n]), RecipeRows(v, a[n].recipes), AllRecipeRows(b[..m]), RecipeRows(v, b[m].recipes),
      (r: RecipeRow) => r.npc == v);
    SplitIsUnique(AllMaterialRows(a[..n]), NpcMaterialRows(v, a[n].recipes), AllMaterialRows(b[..m]), NpcMaterialRows(v, b[m].recipes),
      (r: MaterialRow) => r.npc == v);
    SplitIsUnique(AllOptionRows(a[..n]), NpcOptionRows(v, a[n].recipes), AllOptionRows(b[..m]), NpcOptionRows(v, b[m].recipes),
      (r: OptionRow) => r.npc == v);
  }

  /** Two snapshots in normal order with the same four tables are the same snapshot. */
  lemma {:induction false} FlattenInjective(a: seq<NpcRecipes>, b: seq<NpcRecipes>)
    requires Sorted(a, VnumOf) && Sorted(b, VnumOf)
    requires WellGrouped(a) && WellGrouped(b)
    requires Flatten(a) == Flatten(b)
    ensures a == b
    decreases |a|
  {
    assert |Vnums(a)| == |Vnums(b)|;
    hide RecipeRows, NpcMaterialRows, NpcOptionRows, AllRecipeRows, AllMaterialRows, AllOptionRows;
    if a != [] {
      var n := |a| - 1;
      LastNpcRows(a, b);
      FlattenInjective(a[..n], b[..n]);
      RecipesDetermined(a[n].npcVnum, a[n].recipes, b[n].recipes);
      assert a == a[..n] + [a[n]] && b == b[..n] + [b[n]];
    }
  }
}
