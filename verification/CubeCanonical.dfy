/** The quarantine of a cube export. */
module CubeCanonical {
  import opened Results
  import opened Ordered
  import opened Integers
  import opened Ids
  import opened CubeModel
  import opened CubeFlatten
  import opened CubeQuarantine
  import opened CubeIndex

  // ---------------------------------------------------------------------------------------------
  // Option groups.
  // ---------------------------------------------------------------------------------------------

  /** Same positions, and at each position the same item and count. */
  predicate MaterialsMatch(group: map<int, OptionRow>, materials: map<int, MaterialRow>) {
    && group.Keys == materials.Keys
    && forall p | p in group :: group[p].item == materials[p].item && group[p].count == materials[p].count
  }

  lemma SameKeys<K, V, W>(a: map<K, V>, b: map<K, W>)
    requires (forall k | k in a :: k in b) && |a| == |b|
    ensures a.Keys == b.Keys
  {
    assert a.Keys <= b.Keys && |a.Keys| == |a| && |b.Keys| == |b|;
    assert b.Keys == a.Keys + (b.Keys - a.Keys);
    assert |b.Keys - a.Keys| == 0;
  }

  method MaterialMapsEqual(group: map<int, OptionRow>, materials: map<int, MaterialRow>) returns (equal: bool)
    ensures equal <==> MaterialsMatch(group, materials)
  {
    if |group| != |materials| {
      assert |group.Keys| != |materials.Keys|;
      return false;
    }
    var positions := AnyOrder(group.Keys);
    for i := 0 to |positions|
      invariant forall k | 0 <= k < i :: var p := positions[k];
        p in materials && group[p].item == materials[p].item && group[p].count == materials[p].count
    {
      var p := positions[i];
      assert p in positions && p in group.Keys;
      if p !in materials {
        return false;
      }
      if group[p].item != materials[p].item || group[p].count != materials[p].count {
        return false;
      }
    }
    assert forall p | p in group :: p in positions;
    SameKeys(group, materials);
    return true;
  }

  /** Every smaller index from zero on is there too. */
  predicate Gapless(indexes: set<int>) {
    forall i, j | i in indexes && 0 <= j < i :: j in indexes
  }

  /** What the source asks of the options of one recipe. */
  predicate ValidGroups(options: map<int, map<int, OptionRow>>, materials: map<int, MaterialRow>) {
    Gapless(options.Keys) && 1 in options && 0 in options && MaterialsMatch(options[0], materials)
  }

  lemma {:induction false} GaplessCounts(indexes: set<int>, sorted: seq<int>, i: nat)
    requires Gapless(indexes) && (forall v :: v in sorted <==> v in indexes) && (forall v | v in indexes :: v >= 0)
    requires forall k, l | 0 <= k < l < |sorted| :: sorted[k] < sorted[l]
    requires i < |sorted| && forall k | 0 <= k < i :: sorted[k] == k
    ensures sorted[i] == i
  {
    assert sorted[i] in sorted && sorted[i] in indexes;
    assert i > 0 ==> sorted[i - 1] < sorted[i];
    if sorted[i] > i {
      assert i in sorted;
      var k :| 0 <= k < |sorted| && sorted[k] == i;
      assert false;
    }
  }

  lemma CountedIsGapless(indexes: set<int>, sorted: seq<int>)
    requires (forall v :: v in sorted <==> v in indexes) && forall k | 0 <= k < |sorted| :: sorted[k] == k
    ensures Gapless(indexes)
  {
    forall i, j | i in indexes && 0 <= j < i ensures j in indexes {
      assert i in sorted;
      assert sorted[j] in sorted;
    }
  }

  method ValidateGroups(options: map<int, map<int, OptionRow>>, materials: map<int, MaterialRow>) returns (ok: bool)
    requires options != map[] && forall o | o in options :: o >= 0 && options[o] != map[]
    ensures ok <==> ValidGroups(options, materials)
  {
    var indexes := SortedInts(options.Keys);
    assert |indexes| == |options.Keys| == |options|;
    if |options| < 2 {
      TwoIndexes(options.Keys);
      return false;
    }
    for i := 0 to |indexes|
      invariant forall k | 0 <= k < i :: indexes[k] == k
    {
      assert indexes[i] in indexes && indexes[i] in options.Keys;
      if Gapless(options.Keys) {
        GaplessCounts(options.Keys, indexes, i);
      }
      if indexes[i] != i {
        return false;
      }
      if |options[indexes[i]]| == 0 {
        return false;
      }
    }
    assert forall k | 0 <= k < |indexes| :: indexes[k] in indexes && indexes[k] in options.Keys;
    assert indexes[0] == 0 && indexes[1] == 1;
    CountedIsGapless(options.Keys, indexes);
    ok := MaterialMapsEqual(options[0], materials);
  }

  lemma SubsetIsSmaller<T>(a: set<T>, b: set<T>)
    requires a <= b
    ensures |a| <= |b|
  {
    assert b == a + (b - a);
  }

  lemma TwoIndexes(indexes: set<int>)
    requires |indexes| < 2
    ensures !(0 in indexes && 1 in indexes)
  {
    if {0, 1} <= indexes {
      SubsetIsSmaller({0, 1}, indexes);
      assert false;
    }
  }

  function MaterialsAt(index: MaterialIndex, slot: Slot): map<int, MaterialRow> {
    if slot in index then index[slot] else map[]
  }

  lemma SomeKey<K, V>(m: map<K, V>) returns (k: K)
    requires m != map[]
    ensures k in m
  {
    k :| k in m;
  }

  lemma OptionsAt(t: Tables, index: OptionIndex, slot: Slot, option: int)
    requires IndexesOptions(index, t.options) && slot in index
    ensures option in index[slot] <==> HasOption(t.options, slot.0, slot.1, option)
  {
    if option in index[slot] {
      var position := SomeKey(index[slot][option]);
      assert Lookup(index, slot, option, position).Some?;
    }
    if HasOption(t.options, slot.0, slot.1, option) {
      var r :| r in t.options && r.npc == slot.0 && r.recipe == slot.1 && r.option == option;
      assert (r.npc, r.recipe) == slot;
      assert Lookup(index, slot, option, r.position) == Some(r);
    }
  }

  lemma FirstOptionAgrees(t: Tables, materials: MaterialIndex, options: OptionIndex, slot: Slot)
    requires IndexesMaterials(materials, t.materials) && IndexesOptions(options, t.options)
    requires slot in options && 0 in options[slot]
    ensures MaterialsMatch(options[slot][0], MaterialsAt(materials, slot)) <==>
      && (forall r | r in t.options && r.npc == slot.0 && r.recipe == slot.1 && r.option == 0 :: AsMaterial(r) in t.materials)
      && (forall r | r in t.materials && r.npc == slot.0 && r.recipe == slot.1 :: AsFirstOption(r) in t.options)
  {
    var group, mats := options[slot][0], MaterialsAt(materials, slot);
    if MaterialsMatch(group, mats) {
      forall r | r in t.options && r.npc == slot.0 && r.recipe == slot.1 && r.option == 0 ensures AsMaterial(r) in t.materials {
        assert (r.npc, r.recipe) == slot && Lookup(options, slot, 0, r.position) == Some(r);
        assert mats[r.position] == AsMaterial(r);
      }
      forall r | r in t.materials && r.npc == slot.0 && r.recipe == slot.1 ensures AsFirstOption(r) in t.options {
        assert (r.npc, r.recipe) == slot && r.position in mats && mats[r.position] == r;
        assert r.position in group;
        assert Lookup(options, slot, 0, r.position) == Some(AsFirstOption(r));
      }
    }
    if && (forall r | r in t.options && r.npc == slot.0 && r.recipe == slot.1 && r.option == 0 :: AsMaterial(r) in t.materials)
       && (forall r | r in t.materials && r.npc == slot.0 && r.recipe == slot.1 :: AsFirstOption(r) in t.options) {
      forall p | p in group ensures p in mats && group[p].item == mats[p].item && group[p].count == mats[p].count {
        var r := group[p];
        assert Lookup(options, slot, 0, p) == Some(r);
        assert AsMaterial(r) in t.materials;
      }
      forall p | p in mats ensures p in group {
        var r := mats[p];
        assert r in t.materials && AsFirstOption(r) in t.options;
        assert Lookup(options, slot, 0, p) == Some(AsFirstOption(r));
      }
    }
  }

  lemma GroupsAgree(t: Tables, materials: MaterialIndex, options: OptionIndex, slot: Slot)
    requires IndexesMaterials(materials, t.materials) && IndexesOptions(options, t.options) && AcceptsOptions(t)
    requires slot in options
    ensures ValidGroups(options[slot], MaterialsAt(materials, slot)) <==> AcceptsGroup(t, slot.0, slot.1)
    ensures options[slot] != map[] && forall o | o in options[slot] :: o >= 0 && options[slot][o] != map[]
  {
    hide IndexesMaterials, MaterialsMatch, MaterialsAt, HasRecipe;
    forall o { OptionsAt(t, options, slot, o); }
    if 0 in options[slot] {
      FirstOptionAgrees(t, materials, options, slot);
    }
    forall r, j | r in t.options && r.npc == slot.0 && r.recipe == slot.1 && 0 <= j < r.option && Gapless(options[slot].Keys)
      ensures HasOption(t.options, slot.0, slot.1, j)
    {
      assert HasOption(t.options, slot.0, slot.1, r.option);
      assert r.option in options[slot].Keys && j in options[slot].Keys;
    }
  }

  method CheckGroups(t: Tables, materials: MaterialIndex, options: OptionIndex) returns (ok: bool)
    requires IndexesMaterials(materials, t.materials) && IndexesOptions(options, t.options) && AcceptsOptions(t)
    ensures ok <==> AcceptsGroups(t)
  {
    hide IndexesMaterials, AcceptsGroup, ValidGroups, AcceptsOptions;
    var slots := AnyOrder(options.Keys);
    for i := 0 to |slots|
      invariant forall k | 0 <= k < i :: AcceptsGroup(t, slots[k].0, slots[k].1)
    {
      var slot := slots[i];
      assert slot in slots && slot in options;
      GroupsAgree(t, materials, options, slot);
      var valid := ValidateGroups(options[slot], MaterialsAt(materials, slot));
      if !valid {
        SomeRowAt(t, options, slot);
        return false;
      }
    }
    forall r | r in t.options ensures AcceptsGroup(t, r.npc, r.recipe) {
      assert Lookup(options, (r.npc, r.recipe), r.option, r.position).Some?;
      assert (r.npc, r.recipe) in slots;
    }
    return true;
  }

  lemma SomeRowAt(t: Tables, options: OptionIndex, slot: Slot)
    requires IndexesOptions(options, t.options) && slot in options
    ensures exists r | r in t.options :: r.npc == slot.0 && r.recipe == slot.1
  {
    var o := SomeKey(options[slot]);
    var p := SomeKey(options[slot][o]);
    assert Lookup(options, slot, o, p).Some?;
  }

  // ---------------------------------------------------------------------------------------------
  // Rows out of the maps, in key order.
  // ---------------------------------------------------------------------------------------------

  /** Appends the values of a map in the order of their positions. */
  method EmitSorted<R>(index: map<int, R>, key: R -> Key) returns (rows: seq<R>)
    requires forall p, q | p in index && q in index && p < q :: Less(key(index[p]), key(index[q]))
    ensures Sorted(rows, key)
    ensures forall r :: r in rows <==> exists p :: p in index && index[p] == r
  {
    var positions := SortedInts(index.Keys);
    rows := [];
    for i := 0 to |positions|
      invariant |rows| == i && forall k | 0 <= k < i :: positions[k] in index && rows[k] == index[positions[k]]
    {
      assert positions[i] in positions;
      rows := rows + [index[positions[i]]];
    }
    forall r, p | p in index && index[p] == r ensures r in rows {
      assert p in positions;
    }
  }

  /** The accepted tables and the maps that hold their rows. */
  ghost predicate Indexed(t: Tables, recipes: RecipeIndex, materials: MaterialIndex, options: OptionIndex) {
    && AcceptsTables(t)
    && IndexesRecipes(recipes, t.recipes) && IndexesMaterials(materials, t.materials) && IndexesOptions(options, t.options)
  }

  method EmitMaterials(ghost t: Tables, materials: MaterialIndex, slot: Slot) returns (rows: seq<MaterialRow>)
    requires IndexesMaterials(materials, t.materials)
    ensures Sorted(rows, MaterialKey)
    ensures forall r :: r in rows <==> r in t.materials && r.npc == slot.0 && r.recipe == slot.1
  {
    rows := [];
    if slot in materials && |materials[slot]| > 0 {
      rows := EmitSorted(materials[slot], MaterialKey);
    }
    forall r: MaterialRow ensures r in rows <==> r in t.materials && r.npc == slot.0 && r.recipe == slot.1 {
      if r in t.materials && r.npc == slot.0 && r.recipe == slot.1 {
        assert (r.npc, r.recipe) == slot && materials[slot][r.position] == r;
      }
    }
  }

  method EmitOptions(ghost t: Tables, options: OptionIndex, slot: Slot) returns (rows: seq<OptionRow>)
    requires IndexesOptions(options, t.options)
    ensures Sorted(rows, OptionKey)
    ensures forall r :: r in rows <==> r in t.options && r.npc == slot.0 && r.recipe == slot.1
  {
    rows := [];
    if slot !in options {
      return;
    }
    var indexes := SortedInts(options[slot].Keys);
    for i := 0 to |indexes|
      invariant Sorted(rows, OptionKey)
      invariant forall r :: r in rows <==> r in t.options && r.npc == slot.0 && r.recipe == slot.1 && r.option in indexes[..i]
    {
      var o := indexes[i];
      assert o in indexes && o in options[slot];
      assert indexes[..i + 1] == indexes[..i] + [o];
      GroupRows(t, options, slot, o);
      var group := EmitSorted(options[slot][o], OptionKey);
      SortedConcat(rows, group, OptionKey);
      rows := rows + group;
    }
    forall r: OptionRow | r in t.options && r.npc == slot.0 && r.recipe == slot.1 ensures r in rows {
      assert (r.npc, r.recipe) == slot && r.option in indexes;
    }
  }

  lemma GroupRows(t: Tables, options: OptionIndex, slot: Slot, o: int)
    requires IndexesOptions(options, t.options) && slot in options && o in options[slot]
    ensures forall p | p in options[slot][o] ::
      var r := options[slot][o][p]; OptionKey(r) == Key(slot.0, slot.1, o, p)
    ensures forall r :: (exists p :: p in options[slot][o] && options[slot][o][p] == r) <==>
      r in t.options && r.npc == slot.0 && r.recipe == slot.1 && r.option == o
  {
    forall p | p in options[slot][o] ensures OptionKey(options[slot][o][p]) == Key(slot.0, slot.1, o, p) {
      assert Lookup(options, slot, o, p).Some?;
    }
    forall r: OptionRow
      ensures (exists p :: p in options[slot][o] && options[slot][o][p] == r) <==>
        r in t.options && r.npc == slot.0 && r.recipe == slot.1 && r.option == o
    {
      if r in t.options && r.npc == slot.0 && r.recipe == slot.1 && r.option == o {
        assert (r.npc, r.recipe) == slot && Lookup(options, slot, o, r.position) == Some(r);
      }
      forall p | p in options[slot][o] && options[slot][o][p] == r ensures r in t.options && r.npc == slot.0 && r.recipe == slot.1 && r.option == o {
        assert Lookup(options, slot, o, p) == Some(r);
      }
    }
  }

  lemma RecipeOf(t: Tables, recipes: RecipeIndex, npc: Uint32, position: int)
    requires IndexesRecipes(recipes, t.recipes) && HasRecipe(t.recipes, npc, position)
    ensures npc in recipes && position in recipes[npc]
  {
    var r :| r in t.recipes && r.npc == npc && r.position == position;
  }

  /** Everything of one NPC: its recipes by position, and the rows under each of them. */
  method EmitNpc(ghost t: Tables, recipes: RecipeIndex, materials: MaterialIndex, options: OptionIndex, npc: Uint32)
    returns (rs: seq<RecipeRow>, ms: seq<MaterialRow>, os: seq<OptionRow>)
    requires Indexed(t, recipes, materials, options)
    ensures Sorted(rs, RecipeKey) && Sorted(ms, MaterialKey) && Sorted(os, OptionKey)
    ensures forall r :: r in rs <==> r in t.recipes && r.npc == npc
    ensures forall r :: r in ms <==> r in t.materials && r.npc == npc
    ensures forall r :: r in os <==> r in t.options && r.npc == npc
  {
    hide AcceptsGroups, IndexesMaterials, IndexesOptions, HasRecipe;
    var positions := if npc in recipes then recipes[npc] else map[];
    var order := SortedInts(positions.Keys);
    rs, ms, os := [], [], [];
    for j := 0 to |order|
      invariant Sorted(rs, RecipeKey) && Sorted(ms, MaterialKey) && Sorted(os, OptionKey)
      invariant forall r :: r in rs <==> r in t.recipes && r.npc == npc && r.position in order[..j]
      invariant forall r :: r in ms <==> r in t.materials && r.npc == npc && r.recipe in order[..j]
      invariant forall r :: r in os <==> r in t.options && r.npc == npc && r.recipe in order[..j]
    {
      var position := order[j];
      assert position in order && position in positions;
      assert order[..j + 1] == order[..j] + [position];
      var row := positions[position];
      var materialRows := EmitMaterials(t, materials, (npc, position));
      var optionRows := EmitOptions(t, options, (npc, position));
      SortedConcat(rs, [row], RecipeKey);
      SortedConcat(ms, materialRows, MaterialKey);
      SortedConcat(os, optionRows, OptionKey);
      rs, ms, os := rs + [row], ms + materialRows, os + optionRows;
    }
    assert order[..|order|] == order;
    forall r: RecipeRow | r in t.recipes && r.npc == npc ensures r.position in order {
      assert r.position in positions;
    }
    forall r: MaterialRow | r in t.materials && r.npc == npc ensures r.recipe in order {
      RecipeOf(t, recipes, npc, r.recipe);
    }
    forall r: OptionRow | r in t.options && r.npc == npc ensures r.recipe in order {
      RecipeOf(t, recipes, npc, r.recipe);
    }
  }

  /** The rows of the NPCs emitted so far. */
  ghost predicate EmittedUpTo(t: Tables, out: Tables, npcs: seq<Uint32>) {
    && SortedTables(out)
    && (forall v :: v in out.npcs <==> v in t.npcs && v in npcs)
    && (forall r :: r in out.recipes <==> r in t.recipes && r.npc in npcs)
    && (forall r :: r in out.materials <==> r in t.materials && r.npc in npcs)
    && (forall r :: r in out.options <==> r in t.options && r.npc in npcs)
  }

  /** Appending one more NPC, greater than all before it. */
  lemma EmitOneMore(t: Tables, out: Tables, npcs: seq<Uint32>, npc: Uint32, rs: seq<RecipeRow>, ms: seq<MaterialRow>, os: seq<OptionRow>)
    requires EmittedUpTo(t, out, npcs) && (forall v | v in npcs :: Less(IdKey(v), IdKey(npc))) && npc in t.npcs
    requires Sorted(rs, RecipeKey) && Sorted(ms, MaterialKey) && Sorted(os, OptionKey)
    requires forall r :: r in rs <==> r in t.recipes && r.npc == npc
    requires forall r :: r in ms <==> r in t.materials && r.npc == npc
    requires forall r :: r in os <==> r in t.options && r.npc == npc
    ensures EmittedUpTo(t, Tables(out.npcs + [npc], out.recipes + rs, out.materials + ms, out.options + os), npcs + [npc])
  {
    SortedConcat(out.npcs, [npc], IdKey);
    SortedConcat(out.recipes, rs, RecipeKey);
    SortedConcat(out.materials, ms, MaterialKey);
    SortedConcat(out.options, os, OptionKey);
  }

  lemma ParentsKnown(t: Tables)
    requires AcceptsTables(t)
    ensures forall r | r in t.recipes :: r.npc in t.npcs
    ensures forall r | r in t.materials :: r.npc in t.npcs
    ensures forall r | r in t.options :: r.npc in t.npcs
  {
  }

  method EmitAll(ghost t: Tables, npcs: set<Uint32>, scope: seq<Uint32>,
                 recipes: RecipeIndex, materials: MaterialIndex, options: OptionIndex)
    returns (out: Tables)
    requires Indexed(t, recipes, materials, options)
    requires Sorted(scope, IdKey) && (forall v :: v in npcs <==> v in t.npcs) && (forall v | v in npcs :: v in scope)
    ensures SortedTables(out) && Permutes(out, t)
  {
    hide AcceptsTables, IndexesRecipes, IndexesMaterials, IndexesOptions;
    ParentsKnown(t);
    out := Tables([], [], [], []);
    for i := 0 to |scope|
      invariant EmittedUpTo(t, out, scope[..i])
    {
      var npc := scope[i];
      assert scope[..i + 1] == scope[..i] + [npc];
      if npc in npcs {
        var rs, ms, os := EmitNpc(t, recipes, materials, options, npc);
        EmitOneMore(t, out, scope[..i], npc, rs, ms, os);
        out := Tables(out.npcs + [npc], out.recipes + rs, out.materials + ms, out.options + os);
      }
    }
    assert scope[..|scope|] == scope;
    AllEmitted(t, out, scope);
  }

  lemma AllEmitted(t: Tables, out: Tables, scope: seq<Uint32>)
    requires AcceptsTables(t) && EmittedUpTo(t, out, scope) && forall v | v in t.npcs :: v in scope
    ensures Permutes(out, t)
  {
    ParentsKnown(t);
    SortedHasDistinctKeys(out.npcs, IdKey);
    SortedHasDistinctKeys(out.recipes, RecipeKey);
    SortedHasDistinctKeys(out.materials, MaterialKey);
    SortedHasDistinctKeys(out.options, OptionKey);
    SameRows(out.npcs, t.npcs, IdKey);
    SameRows(out.recipes, t.recipes, RecipeKey);
    SameRows(out.materials, t.materials, MaterialKey);
    SameRows(out.options, t.options, OptionKey);
  }

  datatype QuarantineError = InvalidCubeRecipeStateExport

  /** Validates a retained export and returns its canonical form. */
  method Canonicalize(e: CubeExport) returns (r: Result<Canonical, QuarantineError>)
    ensures r.Ok? <==> Accepts(e)
    ensures r.Ok? ==> CanonicalOf(e, r.value)
  {
    hide IndexesRecipes, IndexesMaterials, IndexesOptions, AcceptsRecipes, AcceptsMaterials, AcceptsOptions, AcceptsGroups, ValidIds;
    if e.migrationVersion != MIGRATION_VERSION || e.migrationName != MIGRATION_NAME {
      return Err(InvalidCubeRecipeStateExport);
    }
    if e.npcs.None? || e.recipes.None? || e.materials.None? || e.options.None? {
      return Err(InvalidCubeRecipeStateExport);
    }
    var t := TablesOf(e);
    var ok, declared := CollectIds(e.npcVnums);
    if !ok {
      return Err(InvalidCubeRecipeStateExport);
    }
    var npcs;
    ok, npcs := CollectIds(t.npcs);
    if !ok {
      return Err(InvalidCubeRecipeStateExport);
    }
    var byKey, recipes;
    ok, byKey, recipes := IndexRecipes(t, npcs);
    if !ok {
      return Err(InvalidCubeRecipeStateExport);
    }
    var materials, options;
    ok, materials := IndexMaterials(t, byKey);
    if !ok {
      return Err(InvalidCubeRecipeStateExport);
    }
    ok, options := IndexOptions(t, byKey);
    if !ok {
      return Err(InvalidCubeRecipeStateExport);
    }
    ok := CheckGroups(t, materials, options);
    if !ok {
      return Err(InvalidCubeRecipeStateExport);
    }
    var scope := SortedIds(declared + npcs);
    var tables := EmitAll(t, npcs, scope, recipes, materials, options);
    return Ok(Canonical(scope, tables));
  }
}
