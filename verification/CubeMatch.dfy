/** Which recipe the bound cells make. */
module CubeMatch {
  import opened Results
  import opened Ordered
  import opened Integers
  import opened CubeModel

  const WRAP := 0x1_0000_0000
  const MAX_CELLS := 65537

  /** The exact sum of the counts of one item; items and counts of zero do not take part. */
  function Total(cells: seq<Material>, vnum: Uint32): nat {
    if cells == [] then 0
    else
      var last := cells[|cells| - 1];
      Total(cells[..|cells| - 1], vnum) + if last.vnum == vnum && vnum != 0 then last.count else 0
  }

  /** The sum as the uint32 map entry holds it. */
  function Wrapped(cells: seq<Material>, vnum: Uint32): Uint32 {
    Total(cells, vnum) % WRAP
  }

  predicate Live(cell: Material) {
    cell.vnum != 0 && cell.count != 0
  }

  predicate HasCell(cells: seq<Material>, vnum: Uint32) {
    exists i :: 0 <= i < |cells| && cells[i].vnum == vnum && Live(cells[i])
  }

  predicate AnyLive(cells: seq<Material>) {
    exists i :: 0 <= i < |cells| && Live(cells[i])
  }

  // ---------------------------------------------------------------------------------------------
  // The count maps.
  // ---------------------------------------------------------------------------------------------

  ghost predicate Counts(counts: map<Uint32, Uint32>, cells: seq<Material>) {
    forall v: Uint32 :: (v in counts <==> HasCell(cells, v)) && (v in counts ==> counts[v] == Wrapped(cells, v))
  }

  lemma {:induction false} TotalOfAbsent(cells: seq<Material>, vnum: Uint32)
    ensures Total(cells, vnum) > 0 <==> HasCell(cells, vnum)
  {
    if cells != [] {
      var n := |cells| - 1;
      TotalOfAbsent(cells[..n], vnum);
      if HasCell(cells, vnum) && !HasCell(cells[..n], vnum) {
        var i :| 0 <= i < |cells| && cells[i].vnum == vnum && Live(cells[i]);
        assert i < n ==> cells[..n][i] == cells[i];
      }
      if HasCell(cells[..n], vnum) {
        var i :| 0 <= i < n && cells[..n][i].vnum == vnum && Live(cells[..n][i]);
        assert cells[i] == cells[..n][i];
      }
      assert cells[n].vnum == vnum && Live(cells[n]) ==> HasCell(cells, vnum);
    }
  }

  /** Adding to a wrapped sum wraps to the same as adding first. */
  lemma WrapAdd(sum: nat, count: nat)
    ensures (sum % WRAP + count) % WRAP == (sum + count) % WRAP
  {
    assert sum == sum / WRAP * WRAP + sum % WRAP;
  }

  lemma WrappedAppend(cells: seq<Material>, cell: Material, v: Uint32)
    requires Live(cell)
    ensures Wrapped(cells + [cell], v) == if v == cell.vnum then (Wrapped(cells, v) + cell.count) % WRAP else Wrapped(cells, v)
  {
    assert (cells + [cell])[..|cells|] == cells;
    WrapAdd(Total(cells, v), cell.count);
  }

  lemma WrappedOfAbsent(cells: seq<Material>, v: Uint32)
    requires !HasCell(cells, v)
    ensures Wrapped(cells, v) == 0
  {
    TotalOfAbsent(cells, v);
  }

  /** One more live cell in the map. */
  lemma CountOneMore(counts: map<Uint32, Uint32>, cells: seq<Material>, cell: Material)
    requires Counts(counts, cells) && Live(cell)
    ensures var before := if cell.vnum in counts then counts[cell.vnum] else 0;
      Counts(counts[cell.vnum := (before + cell.count) % WRAP], cells + [cell])
  {
    if cell.vnum !in counts {
      WrappedOfAbsent(cells, cell.vnum);
    }
    hide Wrapped, HasCell;
    forall v: Uint32
      ensures HasCell(cells + [cell], v) <==> HasCell(cells, v) || v == cell.vnum
      ensures Wrapped(cells + [cell], v) == if v == cell.vnum then (Wrapped(cells, v) + cell.count) % WRAP else Wrapped(cells, v)
    {
      HasCellAppend(cells, cell, v);
      WrappedAppend(cells, cell, v);
    }
  }

  lemma HasCellAppend(cells: seq<Material>, cell: Material, v: Uint32)
    ensures HasCell(cells + [cell], v) <==> HasCell(cells, v) || (v == cell.vnum && Live(cell))
  {
    if HasCell(cells, v) {
      var i :| 0 <= i < |cells| && cells[i].vnum == v && Live(cells[i]);
      assert (cells + [cell])[i] == cells[i];
    }
    assert (cells + [cell])[|cells|] == cell;
  }

  lemma CountSkipped(counts: map<Uint32, Uint32>, cells: seq<Material>, cell: Material)
    requires Counts(counts, cells) && !Live(cell)
    ensures Counts(counts, cells + [cell])
  {
    assert (cells + [cell])[..|cells|] == cells;
    forall v: Uint32 ensures HasCell(cells + [cell], v) <==> HasCell(cells, v) {
      HasCellAppend(cells, cell, v);
    }
  }

  method AggregateMaterialCounts(bound: seq<Material>) returns (counts: map<Uint32, Uint32>)
    ensures Counts(counts, bound)
  {
    hide Counts;
    counts := map[];
    NothingCounted();
    for i := 0 to |bound|
      invariant Counts(counts, bound[..i])
    {
      var cell := bound[i];
      assert bound[..i + 1] == bound[..i] + [cell];
      if cell.vnum == 0 || cell.count == 0 {
        CountSkipped(counts, bound[..i], cell);
      } else {
        CountOneMore(counts, bound[..i], cell);
        var before := if cell.vnum in counts then counts[cell.vnum] else 0;
        counts := counts[cell.vnum := (before + cell.count) % WRAP];
      }
    }
    assert bound[..|bound|] == bound;
  }

  lemma NothingCounted()
    ensures Counts(map[], [])
  {
  }

  /** None when a material is not authored properly, or there is none. */
  method MaterialSetNeedCounts(materials: seq<Material>) returns (need: Option<map<Uint32, Uint32>>)
    ensures need.Some? <==> materials != [] && ValidMaterials(materials)
    ensures need.Some? ==> Counts(need.value, materials)
  {
    hide Counts;
    var counts: map<Uint32, Uint32> := map[];
    NothingCounted();
    for i := 0 to |materials|
      invariant Counts(counts, materials[..i]) && ValidMaterials(materials[..i])
      invariant i > 0 <==> |counts| > 0
    {
      var material := materials[i];
      if material.vnum == 0 || material.count == 0 {
        return None;
      }
      assert materials[..i + 1] == materials[..i] + [material];
      CountOneMore(counts, materials[..i], material);
      var before := if material.vnum in counts then counts[material.vnum] else 0;
      counts := counts[material.vnum := (before + material.count) % WRAP];
      assert material.vnum in counts;
    }
    assert materials[..|materials|] == materials;
    if |counts| == 0 {
      return None;
    }
    return Some(counts);
  }

  // ---------------------------------------------------------------------------------------------
  // Covering and matching.
  // ---------------------------------------------------------------------------------------------

  /** Every needed item is there in the needed count. */
  predicate Covers(bound: seq<Material>, need: seq<Material>) {
    && AnyLive(bound) && need != [] && ValidMaterials(need)
    && forall i | 0 <= i < |need| :: Wrapped(need, need[i].vnum) <= Wrapped(bound, need[i].vnum)
  }

  method MaterialCountsCover(bound: map<Uint32, Uint32>, need: map<Uint32, Uint32>) returns (covered: bool)
    ensures covered <==> need != map[] && forall v | v in need :: need[v] <= if v in bound then bound[v] else 0
  {
    if |need| == 0 {
      return false;
    }
    var vnums := AnyOrder(need.Keys);
    for i := 0 to |vnums|
      invariant forall k | 0 <= k < i :: need[vnums[k]] <= if vnums[k] in bound then bound[vnums[k]] else 0
    {
      assert vnums[i] in vnums;
      var had := if vnums[i] in bound then bound[vnums[i]] else 0;
      if had < need[vnums[i]] {
        return false;
      }
    }
    return true;
  }

  lemma CountsCover(bound: seq<Material>, need: seq<Material>, b: map<Uint32, Uint32>, n: map<Uint32, Uint32>)
    requires Counts(b, bound) && Counts(n, need) && ValidMaterials(need) && need != [] && AnyLive(bound)
    ensures n != map[]
    ensures (forall v | v in n :: n[v] <= if v in b then b[v] else 0) <==> Covers(bound, need)
  {
    forall v: Uint32 ensures Wrapped(bound, v) == if v in b then b[v] else 0 {
      TotalOfAbsent(bound, v);
    }
    forall i | 0 <= i < |need| ensures need[i].vnum in n {
      assert HasCell(need, need[i].vnum);
    }
    assert need[0].vnum in n;
    if Covers(bound, need) {
      forall v | v in n ensures n[v] <= if v in b then b[v] else 0 {
        var i :| 0 <= i < |need| && need[i].vnum == v && Live(need[i]);
      }
    }
  }

  /** The alternative AND-groups of a recipe. */
  function MaterialSets(recipe: Recipe): seq<seq<Material>> {
    if recipe.options != [] then recipe.options else if recipe.materials == [] then [] else [recipe.materials]
  }

  predicate MatchesAt(recipes: seq<Recipe>, bound: seq<Material>, i: int, o: int) {
    0 <= i < |recipes| && 0 <= o < |MaterialSets(recipes[i])| && Covers(bound, MaterialSets(recipes[i])[o])
  }

  predicate Before(i: int, o: int, j: int, p: int) {
    i < j || (i == j && o < p)
  }

  /** No recipe and group in front of this one is covered. */
  ghost predicate NoneBefore(recipes: seq<Recipe>, bound: seq<Material>, i: int, o: int) {
    forall j, p | MatchesAt(recipes, bound, j, p) :: !Before(j, p, i, o)
  }

  datatype Position = Position(recipe: nat, group: nat)

  /** Where the first match is, if anywhere. */
  ghost predicate FirstMatch(recipes: seq<Recipe>, bound: seq<Material>, at: Option<Position>) {
    match at
    case None => forall i, o :: !MatchesAt(recipes, bound, i, o)
    case Some(p) => MatchesAt(recipes, bound, p.recipe, p.group) && NoneBefore(recipes, bound, p.recipe, p.group)
  }

  lemma CountsOfLive(bound: seq<Material>, counts: map<Uint32, Uint32>)
    requires Counts(counts, bound)
    ensures counts != map[] <==> AnyLive(bound)
  {
    if AnyLive(bound) {
      var i :| 0 <= i < |bound| && Live(bound[i]);
      assert HasCell(bound, bound[i].vnum);
    }
    if counts != map[] {
      var v :| v in counts.Keys;
      assert HasCell(bound, v);
    }
  }

  /** The loop over the groups of one recipe. */
  method MatchGroups(sets: seq<seq<Material>>, bound: seq<Material>, counts: map<Uint32, Uint32>) returns (group: Option<nat>)
    requires Counts(counts, bound) && AnyLive(bound)
    ensures match group
      case None => forall o | 0 <= o < |sets| :: !Covers(bound, sets[o])
      case Some(g) => g < |sets| && Covers(bound, sets[g]) && forall o | 0 <= o < g :: !Covers(bound, sets[o])
  {
    hide Covers, Counts;
    for o := 0 to |sets|
      invariant forall p | 0 <= p < o :: !Covers(bound, sets[p])
    {
      var need := MaterialSetNeedCounts(sets[o]);
      if need.None? {
        NotCovered(bound, sets[o]);
        continue;
      }
      CountsCover(bound, sets[o], counts, need.value);
      var covered := MaterialCountsCover(counts, need.value);
      if covered {
        return Some(o);
      }
    }
    return None;
  }

  lemma NotCovered(bound: seq<Material>, need: seq<Material>)
    requires need == [] || !ValidMaterials(need)
    ensures !Covers(bound, need)
  {
  }

  /** The first match, with the covering group as its materials. */
  ghost predicate IsFirst(recipes: seq<Recipe>, bound: seq<Material>, p: Position, recipe: Recipe) {
    && FirstMatch(recipes, bound, Some(p))
    && recipe == recipes[p.recipe].(materials := MaterialSets(recipes[p.recipe])[p.group])
  }

  method MatchSimpleRecipe(recipes: seq<Recipe>, bound: seq<Material>) returns (r: Option<Recipe>)
    ensures r.None? <==> FirstMatch(recipes, bound, None)
    ensures r.None? <==> forall i | 0 <= i < |recipes| ::
      if recipes[i].options == [] then !Covers(bound, recipes[i].materials)
      else forall o | 0 <= o < |recipes[i].options| :: !Covers(bound, recipes[i].options[o])
    ensures r.Some? ==> exists p :: IsFirst(recipes, bound, p, r.value)
    ensures r.Some? ==> exists i: nat | i < |recipes| ::
      if recipes[i].options == [] then r.value == recipes[i] && Covers(bound, recipes[i].materials)
      else exists o: nat | o < |recipes[i].options| :: r.value == recipes[i].(materials := recipes[i].options[o]) && Covers(bound, recipes[i].options[o])
  {
    hide Covers, Counts;
    NoSetCovered(recipes, bound);
    var counts := AggregateMaterialCounts(bound);
    CountsOfLive(bound, counts);
    if |counts| == 0 {
      NothingCovers(bound);
      return None;
    }
    for i := 0 to |recipes|
      invariant forall j, p | 0 <= j < i :: !MatchesAt(recipes, bound, j, p)
    {
      var sets := MaterialSets(recipes[i]);
      var group := MatchGroups(sets, bound, counts);
      if group.Some? {
        var recipe := recipes[i].(materials := sets[group.value]);
        assert IsFirst(recipes, bound, Position(i, group.value), recipe);
        SetCovered(recipes[i], bound, group.value);
        return Some(recipe);
      }
    }
    return None;
  }

  /** In the recipe's own fields: an OR-recipe is matched by one of its options, any other by its materials. */
  lemma SetCovered(recipe: Recipe, bound: seq<Material>, o: nat)
    requires o < |MaterialSets(recipe)| && Covers(bound, MaterialSets(recipe)[o])
    ensures recipe.options == [] ==> MaterialSets(recipe)[o] == recipe.materials
    ensures recipe.options != [] ==> o < |recipe.options| && MaterialSets(recipe)[o] == recipe.options[o]
  {
  }

  lemma NoSetCovered(recipes: seq<Recipe>, bound: seq<Material>)
    ensures FirstMatch(recipes, bound, None) <==> forall i | 0 <= i < |recipes| ::
      if recipes[i].options == [] then !Covers(bound, recipes[i].materials)
      else forall o | 0 <= o < |recipes[i].options| :: !Covers(bound, recipes[i].options[o])
  {
    NotCovered(bound, []);
    hide Covers;
    forall i | 0 <= i < |recipes|
      ensures (forall o :: !MatchesAt(recipes, bound, i, o)) <==>
        if recipes[i].options == [] then !Covers(bound, recipes[i].materials)
        else forall o | 0 <= o < |recipes[i].options| :: !Covers(bound, recipes[i].options[o])
    {
      if recipes[i].options == [] && recipes[i].materials != [] {
        assert MaterialSets(recipes[i])[0] == recipes[i].materials;
        assert MatchesAt(recipes, bound, i, 0) <==> Covers(bound, recipes[i].materials);
      } else if recipes[i].options != [] {
        assert forall o :: MatchesAt(recipes, bound, i, o) <==> 0 <= o < |recipes[i].options| && Covers(bound, recipes[i].options[o]);
      }
    }
  }

  lemma NothingCovers(bound: seq<Material>)
    requires !AnyLive(bound)
    ensures forall need :: !Covers(bound, need)
  {
  }

  method MatchSimpleRecipeGold(recipes: seq<Recipe>, bound: seq<Material>) returns (gold: Option<Uint64>)
    ensures gold.None? <==> FirstMatch(recipes, bound, None)
    ensures gold.Some? ==> exists p, recipe :: IsFirst(recipes, bound, p, recipe) && gold.value == recipe.gold
  {
    var recipe := MatchSimpleRecipe(recipes, bound);
    if recipe.None? {
      return None;
    }
    return Some(recipe.value.gold);
  }

  lemma FirstMatchIsUnique(recipes: seq<Recipe>, bound: seq<Material>, a: Option<Position>, b: Option<Position>)
    requires FirstMatch(recipes, bound, a) && FirstMatch(recipes, bound, b)
    ensures a == b
  {
    hide Covers, MatchesAt;
  }

  // ---------------------------------------------------------------------------------------------
  // Only the totals matter.
  // ---------------------------------------------------------------------------------------------

  ghost predicate SameTotals(a: seq<Material>, b: seq<Material>) {
    forall v: Uint32 :: Total(a, v) == Total(b, v)
  }

  lemma LiveTotals(cells: seq<Material>)
    ensures AnyLive(cells) <==> exists v: Uint32 :: Total(cells, v) > 0
  {
    if AnyLive(cells) {
      var i :| 0 <= i < |cells| && Live(cells[i]);
      assert HasCell(cells, cells[i].vnum);
      TotalOfAbsent(cells, cells[i].vnum);
    }
    if v: Uint32 :| Total(cells, v) > 0 {
      TotalOfAbsent(cells, v);
    }
  }

  lemma TotalIsLive(cells: seq<Material>, v: Uint32)
    requires Total(cells, v) > 0
    ensures AnyLive(cells)
  {
    LiveTotals(cells);
  }

  lemma SameTotalsLive(a: seq<Material>, b: seq<Material>)
    requires SameTotals(a, b)
    ensures AnyLive(a) <==> AnyLive(b)
  {
    hide AnyLive;
    LiveTotals(a);
    LiveTotals(b);
    if AnyLive(a) {
      var v: Uint32 :| Total(a, v) > 0;
      TotalIsLive(b, v);
    }
    if AnyLive(b) {
      var v: Uint32 :| Total(b, v) > 0;
      TotalIsLive(a, v);
    }
  }

  lemma {:induction false} SameTotalsCover(a: seq<Material>, b: seq<Material>, need: seq<Material>)
    requires SameTotals(a, b)
    ensures Covers(a, need) <==> Covers(b, need)
  {
    hide AnyLive;
    SameTotalsLive(a, b);
    assert forall v: Uint32 :: Wrapped(a, v) == Wrapped(b, v);
  }

  /** Cells that add up to the same find the same match. */
  lemma SameTotalsSameMatch(recipes: seq<Recipe>, a: seq<Material>, b: seq<Material>, at: Option<Position>)
    requires SameTotals(a, b)
    ensures FirstMatch(recipes, a, at) <==> FirstMatch(recipes, b, at)
  {
    forall need: seq<Material> ensures Covers(a, need) <==> Covers(b, need) {
      SameTotalsCover(a, b, need);
    }
    hide Covers;
    forall i, o ensures MatchesAt(recipes, a, i, o) <==> MatchesAt(recipes, b, i, o) {
    }
  }

  lemma {:induction false} TotalConcat(a: seq<Material>, b: seq<Material>, vnum: Uint32)
    ensures Total(a + b, vnum) == Total(a, vnum) + Total(b, vnum)
  {
    if b == [] {
      assert a + b == a;
    } else {
      assert (a + b)[..|a + b| - 1] == a + b[..|b| - 1];
      TotalConcat(a, b[..|b| - 1], vnum);
    }
  }

  /** Cells in another order. */
  lemma {:induction false} PermutedTotals(a: seq<Material>, b: seq<Material>, vnum: Uint32)
    requires multiset(a) == multiset(b)
    ensures Total(a, vnum) == Total(b, vnum)
    decreases |a|
  {
    InMultiset(a, b);
    if a != [] {
      var n := |a| - 1;
      assert a[n] in b;
      var i :| 0 <= i < |b| && b[i] == a[n];
      assert a == a[..n] + [a[n]];
      WithoutOne(b, i, vnum);
      assert multiset(a[..n]) == multiset(a) - multiset{a[n]};
      PermutedTotals(a[..n], b[..i] + b[i + 1..], vnum);
    }
  }

  lemma WithoutOne(b: seq<Material>, i: nat, vnum: Uint32)
    requires i < |b|
    ensures multiset(b[..i] + b[i + 1..]) == multiset(b) - multiset{b[i]}
    ensures Total(b, vnum) == Total(b[..i] + b[i + 1..], vnum) + Total([b[i]], vnum)
    ensures [b[i]][..0] == []
  {
    assert b == b[..i] + ([b[i]] + b[i + 1..]);
    TotalConcat(b[..i], b[i + 1..], vnum);
    TotalConcat(b[..i], [b[i]] + b[i + 1..], vnum);
    TotalConcat([b[i]], b[i + 1..], vnum);
  }

  /** A cell split in two, or two cells of one item merged. */
  lemma SplitTotals(front: seq<Material>, back: seq<Material>, item: Uint32, x: Uint16, y: Uint16, vnum: Uint32)
    requires x + y < 0x1_0000
    ensures Total(front + [Material(item, x), Material(item, y)] + back, vnum) == Total(front + [Material(item, x + y)] + back, vnum)
  {
    var two, one := [Material(item, x), Material(item, y)], [Material(item, x + y)];
    assert two[..1] == [Material(item, x)] && two[..1][..0] == [] && one[..0] == [];
    TotalConcat(front + two, back, vnum);
    TotalConcat(front, two, vnum);
    TotalConcat(front + one, back, vnum);
    TotalConcat(front, one, vnum);
  }

  /** Permuting the bound cells, then splitting one of them, changes no match. */
  lemma MatchIgnoresArrangement(recipes: seq<Recipe>, a: seq<Material>, front: seq<Material>, back: seq<Material>,
                                item: Uint32, x: Uint16, y: Uint16, at: Option<Position>)
    requires x + y < 0x1_0000 && multiset(a) == multiset(front + [Material(item, x + y)] + back)
    ensures FirstMatch(recipes, a, at) <==> FirstMatch(recipes, front + [Material(item, x), Material(item, y)] + back, at)
  {
    var b := front + [Material(item, x), Material(item, y)] + back;
    forall v: Uint32 ensures Total(a, v) == Total(b, v) {
      PermutedTotals(a, front + [Material(item, x + y)] + back, v);
      SplitTotals(front, back, item, x, y, v);
    }
    SameTotalsSameMatch(recipes, a, b, at);
  }

  // ---------------------------------------------------------------------------------------------
  // More cells: never a later match, unless a uint32 count wraps.
  // ---------------------------------------------------------------------------------------------

  /** A match found with fewer cells is still there with more, at the same place or earlier. */
  ghost predicate NotLater(now: Option<Position>, before: Option<Position>) {
    before.Some? ==> now.Some? && !Before(before.value.recipe, before.value.group, now.value.recipe, now.value.group)
  }

  ghost predicate NeverWorse(bound: seq<Material>, more: seq<Material>) {
    forall recipes, before, now | FirstMatch(recipes, bound, before) && FirstMatch(recipes, more, now) :: NotLater(now, before)
  }

  ghost predicate WrappedGrow(bound: seq<Material>, more: seq<Material>) {
    forall v: Uint32 :: Wrapped(bound, v) <= Wrapped(more, v)
  }

  lemma CoverGrows(bound: seq<Material>, extra: seq<Material>, need: seq<Material>)
    requires WrappedGrow(bound, bound + extra) && Covers(bound, need)
    ensures Covers(bound + extra, need)
  {
    var i :| 0 <= i < |bound| && Live(bound[i]);
    assert (bound + extra)[i] == bound[i];
  }

  lemma GrownMatch(recipes: seq<Recipe>, bound: seq<Material>, extra: seq<Material>, before: Option<Position>, now: Option<Position>)
    requires WrappedGrow(bound, bound + extra)
    requires FirstMatch(recipes, bound, before) && FirstMatch(recipes, bound + extra, now)
    ensures NotLater(now, before)
  {
    hide Covers, WrappedGrow;
    if before.Some? {
      var p := before.value;
      CoverGrows(bound, extra, MaterialSets(recipes[p.recipe])[p.group]);
      assert MatchesAt(recipes, bound + extra, p.recipe, p.group);
    }
  }

  /** Materials of one item that add up to n. */
  function NeedOf(vnum: Uint32, n: nat): seq<Material> {
    if n == 0 then []
    else
      var count: Uint16 := if n < 0x1_0000 then n else 0xFFFF;
      NeedOf(vnum, n - count) + [Material(vnum, count)]
  }

  lemma {:induction false} NeedTotals(vnum: Uint32, n: nat)
    requires vnum != 0
    ensures Total(NeedOf(vnum, n), vnum) == n && ValidMaterials(NeedOf(vnum, n))
    ensures forall i | 0 <= i < |NeedOf(vnum, n)| :: NeedOf(vnum, n)[i].vnum == vnum
  {
    if n != 0 {
      var count: Uint16 := if n < 0x1_0000 then n else 0xFFFF;
      NeedTotals(vnum, n - count);
      assert NeedOf(vnum, n)[..|NeedOf(vnum, n)| - 1] == NeedOf(vnum, n - count);
    }
  }

  lemma CoversNeed(bound: seq<Material>, vnum: Uint32, n: nat)
    requires vnum != 0 && 0 < n < WRAP
    ensures Covers(bound, NeedOf(vnum, n)) <==> n <= Wrapped(bound, vnum)
  {
    NeedTotals(vnum, n);
    var need := NeedOf(vnum, n);
    assert need[0].vnum == vnum;
    if n <= Wrapped(bound, vnum) {
      TotalOfAbsent(bound, vnum);
    }
  }

  lemma OneRecipe(recipe: Recipe, bound: seq<Material>)
    requires recipe.options == [] && recipe.materials != []
    ensures FirstMatch([recipe], bound, if Covers(bound, recipe.materials) then Some(Position(0, 0)) else None)
  {
    hide Covers;
    assert forall i, o | MatchesAt([recipe], bound, i, o) :: i == 0 && o == 0;
    if Covers(bound, recipe.materials) {
      assert MatchesAt([recipe], bound, 0, 0);
    }
  }

  /** The recipe that a wrapped count loses. */
  lemma LostRecipe(bound: seq<Material>, more: seq<Material>, vnum: Uint32) returns (recipe: Recipe)
    requires Wrapped(bound, vnum) > Wrapped(more, vnum)
    ensures FirstMatch([recipe], bound, Some(Position(0, 0))) && FirstMatch([recipe], more, None)
  {
    hide Covers, NeedOf, Wrapped, FirstMatch, HasCell;
    var n := Wrapped(bound, vnum);
    ItemIsReal(bound, vnum);
    CoversNeed(bound, vnum, n);
    CoversNeed(more, vnum, n);
    recipe := Recipe(Reward(1, 1), NeedOf(vnum, n), [], 0, 100);
    NeedNotEmpty(vnum, n);
    OneRecipe(recipe, bound);
    OneRecipe(recipe, more);
  }

  lemma ItemIsReal(cells: seq<Material>, vnum: Uint32)
    ensures Wrapped(cells, vnum) > 0 ==> vnum != 0
  {
    TotalOfAbsent(cells, vnum);
  }

  lemma NeedNotEmpty(vnum: Uint32, n: nat)
    requires n > 0
    ensures NeedOf(vnum, n) != []
  {
  }

  /** Adding cells never loses a match or moves it later exactly when no item's uint32 count becomes smaller. */
  lemma NeverWorseExactly(bound: seq<Material>, extra: seq<Material>)
    ensures NeverWorse(bound, bound + extra) <==> WrappedGrow(bound, bound + extra)
  {
    if WrappedGrow(bound, bound + extra) {
      forall recipes, before, now | FirstMatch(recipes, bound, before) && FirstMatch(recipes, bound + extra, now)
        ensures NotLater(now, before)
      {
        GrownMatch(recipes, bound, extra, before, now);
      }
    } else {
      var v: Uint32 :| Wrapped(bound, v) > Wrapped(bound + extra, v);
      var recipe := LostRecipe(bound, bound + extra, v);
      assert !NotLater(None, Some(Position(0, 0)));
    }
  }

  lemma {:induction false} TotalBound(cells: seq<Material>, vnum: Uint32)
    ensures Total(cells, vnum) <= |cells| * 0xFFFF
  {
    if cells != [] {
      TotalBound(cells[..|cells| - 1], vnum);
    }
  }

  /** Up to 65537 cells no count wraps. */
  lemma NoWrap(cells: seq<Material>, vnum: Uint32)
    requires |cells| <= MAX_CELLS
    ensures Wrapped(cells, vnum) == Total(cells, vnum)
  {
    hide Total;
    TotalBound(cells, vnum);
  }

  /** So more cells never hurt. */
  lemma FewCellsNeverWorse(bound: seq<Material>, extra: seq<Material>)
    requires |bound + extra| <= MAX_CELLS
    ensures NeverWorse(bound, bound + extra)
  {
    hide NeverWorse, Wrapped, Total;
    forall v: Uint32 ensures Wrapped(bound, v) <= Wrapped(bound + extra, v) {
      NoWrap(bound, v);
      NoWrap(bound + extra, v);
      TotalConcat(bound, extra, v);
    }
    NeverWorseExactly(bound, extra);
  }

  function Repeat(cell: Material, n: nat): (cells: seq<Material>)
    ensures |cells| == n
  {
    if n == 0 then [] else Repeat(cell, n - 1) + [cell]
  }

  lemma {:induction false} RepeatTotal(cell: Material, n: nat)
    requires Live(cell)
    ensures Total(Repeat(cell, n), cell.vnum) == n * cell.count
  {
    if n > 0 {
      RepeatTotal(cell, n - 1);
      assert Repeat(cell, n)[..n - 1] == Repeat(cell, n - 1);
    }
  }

  /** The bound is sharp: 65537 full cells hold 4294967295 items, and one more item makes the count zero. */
  lemma OneCellTooMany(vnum: Uint32) returns (recipe: Recipe)
    requires vnum != 0
    ensures var full := Repeat(Material(vnum, 0xFFFF), MAX_CELLS);
      && FirstMatch([recipe], full, Some(Position(0, 0)))
      && FirstMatch([recipe], full + [Material(vnum, 1)], None)
  {
    var full := Repeat(Material(vnum, 0xFFFF), MAX_CELLS);
    RepeatTotal(Material(vnum, 0xFFFF), MAX_CELLS);
    TotalConcat(full, [Material(vnum, 1)], vnum);
    assert [Material(vnum, 1)][..0] == [];
    recipe := LostRecipe(full, full + [Material(vnum, 1)], vnum);
  }
}
