/** The loops of the cube quarantine that put rows into nested maps, each accepting exactly the rows it should. */
module CubeIndex {
  import opened Results
  import opened Ordered
  import opened Integers
  import opened CubeModel
  import opened CubeFlatten
  import opened CubeQuarantine

  type Slot = (Uint32, int)
  type RecipeIndex = map<Uint32, map<int, RecipeRow>>
  type MaterialIndex = map<Slot, map<int, MaterialRow>>
  type OptionIndex = map<Slot, map<int, map<int, OptionRow>>>

  // ---------------------------------------------------------------------------------------------
  // Rows into maps. The source keys recipes by the text "npc:position"; the pair stands for it.
  // ---------------------------------------------------------------------------------------------

  ghost predicate IndexesRecipes(index: RecipeIndex, rows: seq<RecipeRow>) {
    && (forall r | r in rows :: r.npc in index && r.position in index[r.npc] && index[r.npc][r.position] == r)
    && (forall n, p | n in index && p in index[n] :: index[n][p] in rows && index[n][p].npc == n && index[n][p].position == p)
  }

  ghost predicate IndexesMaterials(index: MaterialIndex, rows: seq<MaterialRow>) {
    && (forall r | r in rows :: (r.npc, r.recipe) in index && r.position in index[(r.npc, r.recipe)]
          && index[(r.npc, r.recipe)][r.position] == r)
    && (forall s, p | s in index && p in index[s] ::
          index[s][p] in rows && (index[s][p].npc, index[s][p].recipe) == s && index[s][p].position == p)
  }

  function Lookup(index: OptionIndex, s: Slot, option: int, position: int): Option<OptionRow> {
    if s in index && option in index[s] && position in index[s][option] then Some(index[s][option][position]) else None
  }

  /** No empty map at any level: a map is only made to hold a row. */
  ghost predicate Inhabited(index: OptionIndex) {
    && (forall s | s in index :: index[s] != map[])
    && (forall s, o | s in index && o in index[s] :: index[s][o] != map[])
  }

  ghost predicate IndexesOptions(index: OptionIndex, rows: seq<OptionRow>) {
    && (forall r | r in rows :: Lookup(index, (r.npc, r.recipe), r.option, r.position) == Some(r))
    && (forall s, o, p | Lookup(index, s, o, p).Some? ::
          var r := Lookup(index, s, o, p).value;
          r in rows && (r.npc, r.recipe) == s && r.option == o && r.position == p)
    && Inhabited(index)
  }

  ghost predicate KnowsRecipes(byKey: map<Slot, RecipeRow>, rows: seq<RecipeRow>) {
    forall n: Uint32, p: int :: (n, p) in byKey <==> HasRecipe(rows, n, p)
  }

  function PutRecipe(index: RecipeIndex, row: RecipeRow): RecipeIndex {
    index[row.npc := (if row.npc in index then index[row.npc] else map[])[row.position := row]]
  }

  /** One more recipe row under a key that is free. */
  lemma InsertRecipe(byKey: map<Slot, RecipeRow>, byNpc: RecipeIndex, rows: seq<RecipeRow>, row: RecipeRow)
    requires IndexesRecipes(byNpc, rows) && KnowsRecipes(byKey, rows) && (row.npc, row.position) !in byKey
    ensures IndexesRecipes(PutRecipe(byNpc, row), rows + [row])
    ensures KnowsRecipes(byKey[(row.npc, row.position) := row], rows + [row])
    ensures forall r | r in rows :: RecipeKey(r) != RecipeKey(row)
  {
    forall r | r in rows ensures r.npc != row.npc || r.position != row.position {
      assert HasRecipe(rows, r.npc, r.position);
    }
    forall n: Uint32, p: int ensures HasRecipe(rows + [row], n, p) <==> HasRecipe(rows, n, p) || (n == row.npc && p == row.position) {
      if HasRecipe(rows, n, p) {
        var r :| r in rows && r.npc == n && r.position == p;
        assert r in rows + [row];
      }
      assert row in rows + [row];
    }
  }

  method IndexRecipes(t: Tables, npcs: set<Uint32>) returns (ok: bool, byKey: map<Slot, RecipeRow>, byNpc: RecipeIndex)
    requires forall v :: v in npcs <==> v in t.npcs
    ensures ok <==> AcceptsRecipes(t)
    ensures ok ==> IndexesRecipes(byNpc, t.recipes)
    ensures ok ==> KnowsRecipes(byKey, t.recipes)
  {
    hide IndexesRecipes, KnowsRecipes, DistinctKeys;
    ok, byKey, byNpc := true, map[], map[];
    var rows := t.recipes;
    NoRecipes();
    for i := 0 to |rows|
      invariant ok && IndexesRecipes(byNpc, rows[..i]) && KnowsRecipes(byKey, rows[..i])
      invariant DistinctKeys(rows[..i], RecipeKey)
      invariant forall r | r in rows[..i] :: r.npc in t.npcs && ValidRecipeRow(r)
    {
      var row := rows[i];
      assert rows[..i + 1] == rows[..i] + [row] && row in rows;
      if row.npc !in npcs || row.position < 0 || row.rewardVnum == 0 || row.rewardCount == 0
         || row.percent > 100 || row.gold > MAX_INT64 {
        return false, byKey, byNpc;
      }
      if (row.npc, row.position) in byKey {
        KnownRecipe(byKey, rows[..i], row);
        RecipeTwice(rows, i);
        return false, byKey, byNpc;
      }
      InsertRecipe(byKey, byNpc, rows[..i], row);
      DistinctKeysAppend(rows[..i], row, RecipeKey);
      byKey := byKey[(row.npc, row.position) := row];
      byNpc := PutRecipe(byNpc, row);
    }
    assert rows[..|rows|] == rows;
  }

  lemma NoRecipes()
    ensures IndexesRecipes(map[], []) && KnowsRecipes(map[], []) && DistinctKeys<RecipeRow>([], RecipeKey)
  {
  }

  lemma KnownRecipe(byKey: map<Slot, RecipeRow>, rows: seq<RecipeRow>, row: RecipeRow)
    requires KnowsRecipes(byKey, rows) && (row.npc, row.position) in byKey
    ensures HasRecipe(rows, row.npc, row.position)
  {
  }

  lemma RecipeTwice(rows: seq<RecipeRow>, i: nat)
    requires i < |rows| && HasRecipe(rows[..i], rows[i].npc, rows[i].position)
    ensures !DistinctKeys(rows, RecipeKey)
  {
    var r :| r in rows[..i] && r.npc == rows[i].npc && r.position == rows[i].position;
    var k :| 0 <= k < i && rows[k] == r;
    assert RecipeKey(rows[k]) == RecipeKey(rows[i]);
  }

  lemma DistinctKeysAppend<R>(rows: seq<R>, row: R, key: R -> Key)
    requires DistinctKeys(rows, key) && forall r | r in rows :: key(r) != key(row)
    ensures DistinctKeys(rows + [row], key)
  {
  }

  lemma MaterialTwice(index: MaterialIndex, rows: seq<MaterialRow>, i: nat)
    requires i < |rows| && IndexesMaterials(index, rows[..i])
    requires (rows[i].npc, rows[i].recipe) in index && rows[i].position in index[(rows[i].npc, rows[i].recipe)]
    ensures !DistinctKeys(rows, MaterialKey)
  {
    var r := index[(rows[i].npc, rows[i].recipe)][rows[i].position];
    var k :| 0 <= k < i && rows[k] == r;
    assert MaterialKey(rows[k]) == MaterialKey(rows[i]);
  }

  lemma InsertMaterial(index: MaterialIndex, rows: seq<MaterialRow>, row: MaterialRow)
    requires IndexesMaterials(index, rows)
    requires (row.npc, row.recipe) in index ==> row.position !in index[(row.npc, row.recipe)]
    ensures var slot := (row.npc, row.recipe);
      var positions := if slot in index then index[slot] else map[];
      IndexesMaterials(index[slot := positions[row.position := row]], rows + [row])
    ensures forall r | r in rows :: MaterialKey(r) != MaterialKey(row)
  {
  }

  method IndexMaterials(t: Tables, byKey: map<Slot, RecipeRow>) returns (ok: bool, index: MaterialIndex)
    requires KnowsRecipes(byKey, t.recipes)
    ensures ok <==> AcceptsMaterials(t)
    ensures ok ==> IndexesMaterials(index, t.materials)
  {
    ok, index := true, map[];
    assert IndexesMaterials(index, []);
    hide HasRecipe, IndexesMaterials, DistinctKeys;
    var rows := t.materials;
    for i := 0 to |rows|
      invariant ok && IndexesMaterials(index, rows[..i])
      invariant DistinctKeys(rows[..i], MaterialKey)
      invariant forall r | r in rows[..i] :: HasRecipe(t.recipes, r.npc, r.recipe) && ValidMaterialRow(r)
    {
      var row := rows[i];
      var slot := (row.npc, row.recipe);
      assert rows[..i + 1] == rows[..i] + [row] && row in rows;
      if slot !in byKey || row.position < 0 || row.item == 0 || row.count == 0 {
        return false, index;
      }
      var positions := if slot in index then index[slot] else map[];
      if row.position in positions {
        MaterialTwice(index, rows, i);
        return false, index;
      }
      InsertMaterial(index, rows[..i], row);
      DistinctKeysAppend(rows[..i], row, MaterialKey);
      index := index[slot := positions[row.position := row]];
    }
    assert rows[..|rows|] == rows;
  }

  function WithOption(index: OptionIndex, row: OptionRow): OptionIndex {
    var slot := (row.npc, row.recipe);
    var options := if slot in index then index[slot] else map[];
    var group := if row.option in options then options[row.option] else map[];
    index[slot := options[row.option := group[row.position := row]]]
  }

  lemma LookupWithOption(index: OptionIndex, row: OptionRow, s: Slot, o: int, p: int)
    ensures Lookup(WithOption(index, row), s, o, p) ==
      if s == (row.npc, row.recipe) && o == row.option && p == row.position then Some(row) else Lookup(index, s, o, p)
  {
  }

  lemma InhabitedWithOption(index: OptionIndex, row: OptionRow)
    requires Inhabited(index)
    ensures Inhabited(WithOption(index, row))
  {
    var slot := (row.npc, row.recipe);
    var index' := WithOption(index, row);
    assert row.option in index'[slot] && row.position in index'[slot][row.option];
  }

  lemma InsertOption(index: OptionIndex, rows: seq<OptionRow>, row: OptionRow)
    requires IndexesOptions(index, rows)
    requires Lookup(index, (row.npc, row.recipe), row.option, row.position).None?
    ensures IndexesOptions(WithOption(index, row), rows + [row])
  {
    hide Lookup, WithOption, Inhabited;
    InhabitedWithOption(index, row);
    forall s, o, p { LookupWithOption(index, row, s, o, p); }
  }

  lemma OptionTwice(index: OptionIndex, rows: seq<OptionRow>, i: nat)
    requires i < |rows| && IndexesOptions(index, rows[..i])
    requires Lookup(index, (rows[i].npc, rows[i].recipe), rows[i].option, rows[i].position).Some?
    ensures !DistinctKeys(rows, OptionKey)
  {
    var r := Lookup(index, (rows[i].npc, rows[i].recipe), rows[i].option, rows[i].position).value;
    var k :| 0 <= k < i && rows[k] == r;
    assert OptionKey(rows[k]) == OptionKey(rows[i]);
  }

  lemma NotYetAnOption(index: OptionIndex, rows: seq<OptionRow>, row: OptionRow)
    requires IndexesOptions(index, rows)
    requires Lookup(index, (row.npc, row.recipe), row.option, row.position).None?
    ensures forall r | r in rows :: OptionKey(r) != OptionKey(row)
  {
    hide Lookup, Inhabited;
  }

  method IndexOptions(t: Tables, byKey: map<Slot, RecipeRow>) returns (ok: bool, index: OptionIndex)
    requires KnowsRecipes(byKey, t.recipes)
    ensures ok <==> AcceptsOptions(t)
    ensures ok ==> IndexesOptions(index, t.options)
  {
    ok, index := true, map[];
    assert IndexesOptions(index, []);
    hide HasRecipe, IndexesOptions, DistinctKeys;
    var rows := t.options;
    for i := 0 to |rows|
      invariant ok && IndexesOptions(index, rows[..i])
      invariant DistinctKeys(rows[..i], OptionKey)
      invariant forall r | r in rows[..i] :: HasRecipe(t.recipes, r.npc, r.recipe) && ValidOptionRow(r)
    {
      var row := rows[i];
      var slot := (row.npc, row.recipe);
      assert rows[..i + 1] == rows[..i] + [row] && row in rows;
      if slot !in byKey || row.option < 0 || row.position < 0 || row.item == 0 || row.count == 0 {
        return false, index;
      }
      var options := if slot in index then index[slot] else map[];
      var group := if row.option in options then options[row.option] else map[];
      if row.position in group {
        OptionTwice(index, rows, i);
        return false, index;
      }
      NotYetAnOption(index, rows[..i], row);
      DistinctKeysAppend(rows[..i], row, OptionKey);
      InsertOption(index, rows[..i], row);
      index := index[slot := options[row.option := group[row.position := row]]];
    }
    assert rows[..|rows|] == rows;
  }
}
