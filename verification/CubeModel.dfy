/** Cube recipes, their row tables, the export. */
module CubeModel {
  import opened Results
  import opened Ordered
  import opened Integers

  // ---------------------------------------------------------------------------------------------
  // The authored snapshot.
  // ---------------------------------------------------------------------------------------------

  datatype Reward = Reward(vnum: Uint32, count: Uint16)
  datatype Material = Material(vnum: Uint32, count: Uint16)

  /** `options` are the alternative material groups of an OR-recipe; a simple recipe has none. */
  datatype Recipe = Recipe(reward: Reward, materials: seq<Material>, options: seq<seq<Material>>, gold: Uint64, percent: Uint8)

  datatype NpcRecipes = NpcRecipes(npcVnum: Uint32, recipes: seq<Recipe>)
  datatype Snapshot = Snapshot(npcs: seq<NpcRecipes>)

  predicate ValidMaterials(materials: seq<Material>) {
    forall k | 0 <= k < |materials| :: materials[k].vnum != 0 && materials[k].count != 0
  }

  predicate ValidOptions(recipe: Recipe) {
    recipe.options != [] ==>
      && |recipe.options| >= 2
      && (forall o | 0 <= o < |recipe.options| :: recipe.options[o] != [] && ValidMaterials(recipe.options[o]))
      && (recipe.materials != [] ==> recipe.materials == recipe.options[0])
  }

  predicate ValidRecipe(recipe: Recipe) {
    && recipe.reward.vnum != 0 && recipe.reward.count != 0 && recipe.percent <= 100
    && ValidMaterials(recipe.materials) && ValidOptions(recipe)
  }

  predicate ValidNpc(npc: NpcRecipes) {
    npc.npcVnum != 0 && forall j | 0 <= j < |npc.recipes| :: ValidRecipe(npc.recipes[j])
  }

  function VnumOf(npc: NpcRecipes): Key {
    Key(npc.npcVnum, 0, 0, 0)
  }

  predicate ValidSnapshot(snapshot: Snapshot) {
    && DistinctKeys(snapshot.npcs, VnumOf)
    && forall i | 0 <= i < |snapshot.npcs| :: ValidNpc(snapshot.npcs[i])
  }

  /** Every gold amount fits the signed SQL column. */
  predicate GoldFits(snapshot: Snapshot) {
    forall i, j | 0 <= i < |snapshot.npcs| && 0 <= j < |snapshot.npcs[i].recipes| ::
      snapshot.npcs[i].recipes[j].gold <= MAX_INT64
  }

  // ---------------------------------------------------------------------------------------------
  // Normalisation.
  // ---------------------------------------------------------------------------------------------

  /** An OR-recipe authored without materials takes those of its first option. */
  function FillMaterials(recipe: Recipe): Recipe {
    if recipe.options != [] && recipe.materials == [] then recipe.(materials := recipe.options[0]) else recipe
  }

  function FillRecipes(recipes: seq<Recipe>): (filled: seq<Recipe>)
    ensures |filled| == |recipes|
    ensures forall j | 0 <= j < |recipes| :: filled[j] == FillMaterials(recipes[j])
  {
    if recipes == [] then [] else FillRecipes(recipes[..|recipes| - 1]) + [FillMaterials(recipes[|recipes| - 1])]
  }

  function FillNpc(npc: NpcRecipes): NpcRecipes {
    npc.(recipes := FillRecipes(npc.recipes))
  }

  function FillNpcs(npcs: seq<NpcRecipes>): (filled: seq<NpcRecipes>)
    ensures |filled| == |npcs|
    ensures forall i | 0 <= i < |npcs| :: filled[i] == FillNpc(npcs[i])
  {
    if npcs == [] then [] else FillNpcs(npcs[..|npcs| - 1]) + [FillNpc(npcs[|npcs| - 1])]
  }

  /** `normal` is the snapshot with materials filled in and NPCs in ascending order. */
  predicate Normalizes(snapshot: Snapshot, normal: Snapshot) {
    && multiset(normal.npcs) == multiset(FillNpcs(snapshot.npcs))
    && Ascending(normal.npcs, VnumOf)
  }

  /** Only the materials of an OR-recipe without any change. */
  lemma FilledIn(npcs: seq<NpcRecipes>, i: nat, j: nat)
    requires i < |npcs| && j < |npcs[i].recipes|
    ensures FillNpcs(npcs)[i].npcVnum == npcs[i].npcVnum && |FillNpcs(npcs)[i].recipes| == |npcs[i].recipes|
    ensures var r, filled := npcs[i].recipes[j], FillNpcs(npcs)[i].recipes[j];
      && filled.reward == r.reward && filled.options == r.options && filled.gold == r.gold && filled.percent == r.percent
      && filled.materials == if r.materials == [] && r.options != [] then r.options[0] else r.materials
  {
  }

  method NormalizeSnapshot(snapshot: Snapshot) returns (normal: Snapshot)
    ensures Normalizes(snapshot, normal)
  {
    var npcs := snapshot.npcs;
    for i := 0 to |npcs|
      invariant |npcs| == |snapshot.npcs|
      invariant forall k | 0 <= k < i :: npcs[k] == FillNpc(snapshot.npcs[k])
      invariant forall k | i <= k < |npcs| :: npcs[k] == snapshot.npcs[k]
    {
      var recipes := npcs[i].recipes;
      for j := 0 to |recipes|
        invariant |recipes| == |npcs[i].recipes|
        invariant forall k | 0 <= k < j :: recipes[k] == FillMaterials(npcs[i].recipes[k])
        invariant forall k | j <= k < |recipes| :: recipes[k] == npcs[i].recipes[k]
      {
        if |recipes[j].options| > 0 && |recipes[j].materials| == 0 {
          recipes := recipes[j := recipes[j].(materials := recipes[j].options[0])];
        }
      }
      assert recipes == FillRecipes(npcs[i].recipes);
      npcs := npcs[i := npcs[i].(recipes := recipes)];
    }
    assert npcs == FillNpcs(snapshot.npcs);
    var sorted := SortBy(npcs, VnumOf);
    normal := Snapshot(sorted);
  }

  method ValidateMaterials(materials: seq<Material>) returns (ok: bool)
    ensures ok <==> ValidMaterials(materials)
  {
    for k := 0 to |materials|
      invariant forall l | 0 <= l < k :: materials[l].vnum != 0 && materials[l].count != 0
    {
      if materials[k].vnum == 0 || materials[k].count == 0 {
        return false;
      }
    }
    return true;
  }

  method ValidateOptions(recipe: Recipe) returns (ok: bool)
    ensures ok <==> ValidOptions(recipe)
  {
    if |recipe.options| == 0 {
      return true;
    }
    if |recipe.options| < 2 {
      return false;
    }
    for o := 0 to |recipe.options|
      invariant forall l | 0 <= l < o :: recipe.options[l] != [] && ValidMaterials(recipe.options[l])
    {
      if |recipe.options[o]| == 0 {
        return false;
      }
      var valid := ValidateMaterials(recipe.options[o]);
      if !valid {
        return false;
      }
    }
    return !(|recipe.materials| > 0 && recipe.materials != recipe.options[0]);
  }

  method ValidateNpc(npc: NpcRecipes) returns (ok: bool)
    requires npc.npcVnum != 0
    ensures ok <==> ValidNpc(npc)
  {
    hide ValidMaterials, ValidOptions;
    for j := 0 to |npc.recipes|
      invariant forall l | 0 <= l < j :: ValidRecipe(npc.recipes[l])
    {
      var recipe := npc.recipes[j];
      if recipe.reward.vnum == 0 || recipe.reward.count == 0 || recipe.percent > 100 {
        return false;
      }
      var materials := ValidateMaterials(recipe.materials);
      if !materials {
        return false;
      }
      var options := ValidateOptions(recipe);
      if !options {
        return false;
      }
    }
    return true;
  }

  method ValidateSnapshot(snapshot: Snapshot) returns (ok: bool)
    ensures ok <==> ValidSnapshot(snapshot)
  {
    var seen: set<Uint32> := {};
    for i := 0 to |snapshot.npcs|
      invariant forall v :: v in seen <==> exists l :: 0 <= l < i && snapshot.npcs[l].npcVnum == v
      invariant DistinctKeys(snapshot.npcs[..i], VnumOf)
      invariant forall l | 0 <= l < i :: ValidNpc(snapshot.npcs[l])
    {
      var npc := snapshot.npcs[i];
      if npc.npcVnum == 0 {
        return false;
      }
      if npc.npcVnum in seen {
        return false;
      }
      seen := seen + {npc.npcVnum};
      var valid := ValidateNpc(npc);
      if !valid {
        return false;
      }
    }
    assert snapshot.npcs[..|snapshot.npcs|] == snapshot.npcs;
    return true;
  }

  // ---------------------------------------------------------------------------------------------
  // The row tables.
  // ---------------------------------------------------------------------------------------------

  datatype RecipeRow = RecipeRow(npc: Uint32, position: int, rewardVnum: Uint32, rewardCount: Uint16, gold: Uint64, percent: Uint8)
  datatype MaterialRow = MaterialRow(npc: Uint32, recipe: int, position: int, item: Uint32, count: Uint16)
  datatype OptionRow = OptionRow(npc: Uint32, recipe: int, option: int, position: int, item: Uint32, count: Uint16)

  /** An NPC row holds nothing but its number. */
  datatype Tables = Tables(npcs: seq<Uint32>, recipes: seq<RecipeRow>, materials: seq<MaterialRow>, options: seq<OptionRow>)

  // The primary keys of the recipe, material and option tables; an NPC row is its own key.

  function RecipeKey(row: RecipeRow): Key {
    Key(row.npc, row.position, 0, 0)
  }

  function MaterialKey(row: MaterialRow): Key {
    Key(row.npc, row.recipe, row.position, 0)
  }

  function OptionKey(row: OptionRow): Key {
    Key(row.npc, row.recipe, row.option, row.position)
  }

  // ---------------------------------------------------------------------------------------------
  // Flattening.
  // ---------------------------------------------------------------------------------------------

  function RecipeRowOf(npc: Uint32, position: nat, recipe: Recipe): RecipeRow {
    RecipeRow(npc, position, recipe.reward.vnum, recipe.reward.count, recipe.gold, recipe.percent)
  }

  function Vnums(npcs: seq<NpcRecipes>): (rows: seq<Uint32>)
    ensures |rows| == |npcs| && forall i | 0 <= i < |npcs| :: rows[i] == npcs[i].npcVnum
  {
    if npcs == [] then [] else Vnums(npcs[..|npcs| - 1]) + [npcs[|npcs| - 1].npcVnum]
  }

  function RecipeRows(npc: Uint32, recipes: seq<Recipe>): seq<RecipeRow> {
    if recipes == [] then []
    else
      var last := |recipes| - 1;
      RecipeRows(npc, recipes[..last]) + [RecipeRowOf(npc, last, recipes[last])]
  }

  function MaterialRows(npc: Uint32, recipe: nat, materials: seq<Material>): seq<MaterialRow> {
    if materials == [] then []
    else
      var last := |materials| - 1;
      MaterialRows(npc, recipe, materials[..last])
        + [MaterialRow(npc, recipe, last, materials[last].vnum, materials[last].count)]
  }

  function NpcMaterialRows(npc: Uint32, recipes: seq<Recipe>): seq<MaterialRow> {
    if recipes == [] then []
    else
      var last := |recipes| - 1;
      NpcMaterialRows(npc, recipes[..last]) + MaterialRows(npc, last, recipes[last].materials)
  }

  function OptionRows(npc: Uint32, recipe: nat, option: nat, materials: seq<Material>): seq<OptionRow> {
    if materials == [] then []
    else
      var last := |materials| - 1;
      OptionRows(npc, recipe, option, materials[..last])
        + [OptionRow(npc, recipe, option, last, materials[last].vnum, materials[last].count)]
  }

  function RecipeOptionRows(npc: Uint32, recipe: nat, options: seq<seq<Material>>): seq<OptionRow> {
    if options == [] then []
    else
      var last := |options| - 1;
      RecipeOptionRows(npc, recipe, options[..last]) + OptionRows(npc, recipe, last, options[last])
  }

  function NpcOptionRows(npc: Uint32, recipes: seq<Recipe>): seq<OptionRow> {
    if recipes == [] then []
    else
      var last := |recipes| - 1;
      NpcOptionRows(npc, recipes[..last]) + RecipeOptionRows(npc, last, recipes[last].options)
  }

  function AllRecipeRows(npcs: seq<NpcRecipes>): seq<RecipeRow> {
    if npcs == [] then []
    else
      var last := npcs[|npcs| - 1];
      AllRecipeRows(npcs[..|npcs| - 1]) + RecipeRows(last.npcVnum, last.recipes)
  }

  function AllMaterialRows(npcs: seq<NpcRecipes>): seq<MaterialRow> {
    if npcs == [] then []
    else
      var last := npcs[|npcs| - 1];
      AllMaterialRows(npcs[..|npcs| - 1]) + NpcMaterialRows(last.npcVnum, last.recipes)
  }

  function AllOptionRows(npcs: seq<NpcRecipes>): seq<OptionRow> {
    if npcs == [] then []
    else
      var last := npcs[|npcs| - 1];
      AllOptionRows(npcs[..|npcs| - 1]) + NpcOptionRows(last.npcVnum, last.recipes)
  }

  /** The rows of a normalised snapshot, table by table. */
  function Flatten(npcs: seq<NpcRecipes>): Tables {
    Tables(Vnums(npcs), AllRecipeRows(npcs), AllMaterialRows(npcs), AllOptionRows(npcs))
  }

  /** The export's inner loops: the rows of one recipe. */
  method ExportRecipe(npc: Uint32, position: nat, recipe: Recipe) returns (materials: seq<MaterialRow>, options: seq<OptionRow>)
    ensures materials == MaterialRows(npc, position, recipe.materials)
    ensures options == RecipeOptionRows(npc, position, recipe.options)
  {
    materials, options := [], [];
    for k := 0 to |recipe.materials|
      invariant materials == MaterialRows(npc, position, recipe.materials[..k])
    {
      assert recipe.materials[..k + 1][..k] == recipe.materials[..k];
      materials := materials + [MaterialRow(npc, position, k, recipe.materials[k].vnum, recipe.materials[k].count)];
    }
    assert recipe.materials[..|recipe.materials|] == recipe.materials;
    for o := 0 to |recipe.options|
      invariant options == RecipeOptionRows(npc, position, recipe.options[..o])
    {
      var group := recipe.options[o];
      var rows := [];
      for k := 0 to |group|
        invariant rows == OptionRows(npc, position, o, group[..k])
      {
        assert group[..k + 1][..k] == group[..k];
        rows := rows + [OptionRow(npc, position, o, k, group[k].vnum, group[k].count)];
      }
      assert group[..|group|] == group;
      assert recipe.options[..o + 1][..o] == recipe.options[..o];
      options := options + rows;
    }
    assert recipe.options[..|recipe.options|] == recipe.options;
  }

  method ExportNpc(npc: NpcRecipes) returns (recipes: seq<RecipeRow>, materials: seq<MaterialRow>, options: seq<OptionRow>)
    ensures recipes == RecipeRows(npc.npcVnum, npc.recipes)
    ensures materials == NpcMaterialRows(npc.npcVnum, npc.recipes)
    ensures options == NpcOptionRows(npc.npcVnum, npc.recipes)
  {
    hide MaterialRows, RecipeOptionRows;
    recipes, materials, options := [], [], [];
    for j := 0 to |npc.recipes|
      invariant recipes == RecipeRows(npc.npcVnum, npc.recipes[..j])
      invariant materials == NpcMaterialRows(npc.npcVnum, npc.recipes[..j])
      invariant options == NpcOptionRows(npc.npcVnum, npc.recipes[..j])
    {
      assert npc.recipes[..j + 1][..j] == npc.recipes[..j];
      recipes := recipes + [RecipeRowOf(npc.npcVnum, j, npc.recipes[j])];
      var m, o := ExportRecipe(npc.npcVnum, j, npc.recipes[j]);
      materials, options := materials + m, options + o;
    }
    assert npc.recipes[..|npc.recipes|] == npc.recipes;
  }

  datatype ExportError = InvalidSnapshot | GoldTooLarge

  method CheckGold(snapshot: Snapshot) returns (ok: bool)
    ensures ok <==> GoldFits(snapshot)
  {
    for i := 0 to |snapshot.npcs|
      invariant forall k, j | 0 <= k < i && 0 <= j < |snapshot.npcs[k].recipes| :: snapshot.npcs[k].recipes[j].gold <= MAX_INT64
    {
      var recipes := snapshot.npcs[i].recipes;
      for j := 0 to |recipes|
        invariant forall l | 0 <= l < j :: recipes[l].gold <= MAX_INT64
      {
        if recipes[j].gold > MAX_INT64 {
          return false;
        }
      }
    }
    return true;
  }

  /** What exporting a snapshot comes to once it is normalised. */
  ghost predicate ExportOf(normal: Snapshot, r: Result<Tables, ExportError>) {
    r == if !ValidSnapshot(normal) then Err(InvalidSnapshot)
         else if !GoldFits(normal) then Err(GoldTooLarge)
         else Ok(Flatten(normal.npcs))
  }

  /**
   * Exports the normalised snapshot, which the ghost result names. The declared NPC scope of an export is
   * its NPC table.
   */
  method ExportCubeRecipeState(snapshot: Snapshot) returns (r: Result<Tables, ExportError>, ghost normal: Snapshot)
    ensures Normalizes(snapshot, normal) && ExportOf(normal, r)
    ensures exists n :: Normalizes(snapshot, n) && ExportOf(n, r)
  {
    hide ValidSnapshot, GoldFits, Normalizes, RecipeRows, NpcMaterialRows, NpcOptionRows;
    var normalized := NormalizeSnapshot(snapshot);
    normal := normalized;
    var valid := ValidateSnapshot(normalized);
    if !valid {
      return Err(InvalidSnapshot), normal;
    }
    var fits := CheckGold(normalized);
    if !fits {
      return Err(GoldTooLarge), normal;
    }
    var t := Tables([], [], [], []);
    var npcs := normalized.npcs;
    for i := 0 to |npcs|
      invariant t == Flatten(npcs[..i])
    {
      var npc := npcs[i];
      assert npcs[..i + 1][..i] == npcs[..i];
      var recipes, materials, options := ExportNpc(npc);
      t := Tables(t.npcs + [npc.npcVnum], t.recipes + recipes, t.materials + materials, t.options + options);
    }
    assert npcs[..|npcs|] == npcs;
    return Ok(t), normal;
  }
}
