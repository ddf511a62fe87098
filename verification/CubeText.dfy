/** The cube m_info text and its decoding. */
module CubeText {
  import opened Results
  import opened Decimals
  import opened Integers
  import opened CubeModel
  import opened CubeMatch

  const CHAT_MAX_LEN := 512
  const TEXT_OVERHEAD_RESERVE := 20

  // ---------------------------------------------------------------------------------------------
  // Joining with a separator.
  // ---------------------------------------------------------------------------------------------

  function Join(parts: seq<string>, sep: char): string {
    if parts == [] then ""
    else if |parts| == 1 then parts[0]
    else Join(parts[..|parts| - 1], sep) + [sep] + parts[|parts| - 1]
  }

  lemma SplitAtLast(x: string, p: string, y: string, q: string, sep: char)
    requires x + [sep] + p == y + [sep] + q && sep !in p && sep !in q
    ensures x == y && p == q
  {
    var s, t := x + [sep] + p, y + [sep] + q;
    assert s[|x|] == sep && t[|y|] == sep;
    assert forall i | |x| < i < |s| :: s[i] == p[i - |x| - 1];
    assert forall i | |y| < i < |t| :: t[i] == q[i - |y| - 1];
    assert |x| == |y|;
    assert x == s[..|x|] && y == t[..|x|] && p == s[|x| + 1..] && q == t[|x| + 1..];
  }

  lemma SplitAtFirst(p: string, x: string, q: string, y: string, sep: char)
    requires p + [sep] + x == q + [sep] + y && sep !in p && sep !in q
    ensures p == q && x == y
  {
    var s, t := p + [sep] + x, q + [sep] + y;
    assert s[|p|] == sep && t[|q|] == sep;
    assert forall i | 0 <= i < |p| :: s[i] == p[i];
    assert forall i | 0 <= i < |q| :: t[i] == q[i];
    assert |p| == |q|;
    assert p == s[..|p|] && q == t[..|p|] && x == s[|p| + 1..] && y == t[|p| + 1..];
  }

  /** No part contains the character. */
  predicate Free(parts: seq<string>, c: char) {
    forall i | 0 <= i < |parts| :: c !in parts[i]
  }

  lemma {:induction false} JoinIsFree(parts: seq<string>, sep: char, c: char)
    requires Free(parts, c) && c != sep
    ensures c !in Join(parts, sep)
  {
    if |parts| > 1 {
      JoinIsFree(parts[..|parts| - 1], sep, c);
    }
  }

  lemma JoinHasSeparator(parts: seq<string>, sep: char)
    requires |parts| > 1
    ensures sep in Join(parts, sep)
  {
    var front := Join(parts[..|parts| - 1], sep);
    assert Join(parts, sep)[|front|] == sep;
  }

  lemma {:induction false} JoinInjective(a: seq<string>, b: seq<string>, sep: char)
    requires a != [] && b != [] && Free(a, sep) && Free(b, sep) && Join(a, sep) == Join(b, sep)
    ensures a == b
    decreases |a|
  {
    var n, m := |a| - 1, |b| - 1;
    if n > 0 {
      JoinHasSeparator(a, sep);
    }
    if m > 0 {
      JoinHasSeparator(b, sep);
    }
    if n > 0 && m > 0 {
      SplitAtLast(Join(a[..n], sep), a[n], Join(b[..m], sep), b[m], sep);
      JoinInjective(a[..n], b[..m], sep);
      assert a == a[..n] + [a[n]] && b == b[..m] + [b[m]];
    }
  }

  /** The texts of the items of a list. */
  function TextsOf<T>(items: seq<T>, text: T -> string): (texts: seq<string>)
    ensures |texts| == |items| && forall i | 0 <= i < |items| :: texts[i] == text(items[i])
  {
    if items == [] then [] else TextsOf(items[..|items| - 1], text) + [text(items[|items| - 1])]
  }

  lemma TextsOfOneMore<T>(items: seq<T>, i: nat, text: T -> string)
    requires i < |items|
    ensures TextsOf(items[..i + 1], text) == TextsOf(items[..i], text) + [text(items[i])]
  {
    assert items[..i + 1][..i] == items[..i];
  }

  lemma TextsFree<T>(items: seq<T>, text: T -> string, c: char)
    requires forall i | 0 <= i < |items| :: c !in text(items[i])
    ensures Free(TextsOf(items, text), c)
  {
  }

  /** Two joined lists of separator-free texts agree item by item. */
  lemma JoinedTexts<T>(a: seq<T>, b: seq<T>, text: T -> string, sep: char)
    requires a != [] && b != [] && Join(TextsOf(a, text), sep) == Join(TextsOf(b, text), sep)
    requires forall i | 0 <= i < |a| :: sep !in text(a[i])
    requires forall i | 0 <= i < |b| :: sep !in text(b[i])
    ensures |a| == |b| && forall i | 0 <= i < |a| :: text(a[i]) == text(b[i])
  {
    hide Join, TextsOf, Free;
    TextsFree(a, text, sep);
    TextsFree(b, text, sep);
    JoinInjective(TextsOf(a, text), TextsOf(b, text), sep);
    SameTexts(a, b, text);
  }

  lemma SameTexts<T>(a: seq<T>, b: seq<T>, text: T -> string)
    requires TextsOf(a, text) == TextsOf(b, text)
    ensures |a| == |b| && forall i | 0 <= i < |a| :: text(a[i]) == text(b[i])
  {
    hide TextsOf;
    var x, y := TextsOf(a, text), TextsOf(b, text);
    assert |x| == |a| && |y| == |b|;
    forall i | 0 <= i < |a| ensures text(a[i]) == text(b[i]) {
      assert x[i] == y[i];
    }
  }

  lemma DigitsAreFree(n: nat, c: char)
    requires !IsDigit(c)
    ensures c !in Decimal(n)
  {
  }

  // ---------------------------------------------------------------------------------------------
  // The text of one recipe.
  // ---------------------------------------------------------------------------------------------

  function MaterialText(m: Material): string {
    Decimal(m.vnum) + [','] + Decimal(m.count)
  }

  function SetText(materials: seq<Material>): string {
    Join(TextsOf(materials, MaterialText), '&')
  }

  function SetsText(sets: seq<seq<Material>>): string {
    Join(TextsOf(sets, SetText), '|')
  }

  function GoldText(gold: nat): string {
    if gold > 0 then ['/'] + Decimal(gold) else ""
  }

  function RecipeText(recipe: Recipe): string {
    SetsText(MaterialSets(recipe)) + GoldText(recipe.gold)
  }

  function WindowText(recipes: seq<Recipe>): string {
    Join(TextsOf(recipes, RecipeText), '@')
  }

  predicate DescribableSet(materials: seq<Material>) {
    materials != [] && ValidMaterials(materials)
  }

  predicate Describable(recipe: Recipe) {
    MaterialSets(recipe) != [] && forall o | 0 <= o < |MaterialSets(recipe)| :: DescribableSet(MaterialSets(recipe)[o])
  }

  method FormatMaterialSetText(materials: seq<Material>) returns (text: Option<string>)
    ensures text.Some? <==> DescribableSet(materials)
    ensures text.Some? ==> text.value == SetText(materials)
  {
    hide Join;
    if |materials| == 0 {
      return None;
    }
    var parts: seq<string> := [];
    for i := 0 to |materials|
      invariant parts == TextsOf(materials[..i], MaterialText)
      invariant ValidMaterials(materials[..i])
    {
      var material := materials[i];
      TextsOfOneMore(materials, i, MaterialText);
      if material.vnum == 0 || material.count == 0 {
        return None;
      }
      parts := parts + [Decimal(material.vnum) + "," + Decimal(material.count)];
    }
    assert materials[..|materials|] == materials;
    return Some(Join(parts, '&'));
  }

  method FormatRecipeMaterialInfoText(recipe: Recipe) returns (text: Option<string>)
    ensures text.Some? <==> Describable(recipe)
    ensures text.Some? ==> text.value == RecipeText(recipe)
  {
    hide Join, SetText, DescribableSet;
    var sets := MaterialSets(recipe);
    if |sets| == 0 {
      return None;
    }
    var encoded: seq<string> := [];
    for o := 0 to |sets|
      invariant encoded == TextsOf(sets[..o], SetText)
      invariant forall p | 0 <= p < o :: DescribableSet(sets[p])
    {
      TextsOfOneMore(sets, o, SetText);
      var part := FormatMaterialSetText(sets[o]);
      if part.None? {
        return None;
      }
      encoded := encoded + [part.value];
    }
    assert sets[..|sets|] == sets;
    var joined := Join(encoded, '|');
    if recipe.gold > 0 {
      joined := joined + "/" + Decimal(recipe.gold);
      assert joined == SetsText(sets) + GoldText(recipe.gold);
    }
    return Some(joined);
  }

  // ---------------------------------------------------------------------------------------------
  // The window.
  // ---------------------------------------------------------------------------------------------

  /** What the call comes to; it panics when the end of the window has overflowed. */
  datatype Outcome = Command(text: string) | Refused | Panic

  /** The recipes a request selects. */
  function Window(start: nat, count: nat, recipes: seq<Recipe>): seq<Recipe>
    requires start <= |recipes|
  {
    recipes[start..if start + count > |recipes| then |recipes| else start + count]
  }

  /** Go's addition of two non-negative ints. */
  function AddInt64(a: int, b: int): int {
    if a + b > MAX_INT64 then a + b - 0x1_0000_0000_0000_0000 else a + b
  }

  predicate InWindow(start: int, count: int, recipes: seq<Recipe>) {
    count > 0 && 0 <= start < |recipes|
  }

  /**
   * A command exactly when the window is there, every recipe in it can be described and the text is short enough;
   * the sum of start and count is an int64, and a count so large that it overflows makes the call panic.
   */
  method FormatMaterialInfoCommand(start: int, count: int, recipes: seq<Recipe>) returns (r: Outcome)
    requires |recipes| <= MAX_INT64 && count <= MAX_INT64
    ensures r.Panic? <==> InWindow(start, count, recipes) && start + count > MAX_INT64
    ensures r.Command? <==>
      && InWindow(start, count, recipes) && start + count <= MAX_INT64
      && (forall k | 0 <= k < |Window(start, count, recipes)| :: Describable(Window(start, count, recipes)[k]))
      && |WindowText(Window(start, count, recipes))| < CHAT_MAX_LEN + TEXT_OVERHEAD_RESERVE
    ensures r.Command? ==> r.text == "cube m_info " + Decimal(start) + " " + Decimal(count) + " " + WindowText(Window(start, count, recipes))
  {
    hide Join, RecipeText, Describable;
    if count <= 0 || start < 0 || start >= |recipes| {
      return Refused;
    }
    var end := AddInt64(start, count);
    if end > |recipes| {
      end := |recipes|;
    }
    if end < start {
      // The capacity end - start wraps back to the count, and no slice of texts can be that long.
      return Panic;
    }
    var window := recipes[start..end];
    var entries: seq<string> := [];
    for k := 0 to |window|
      invariant entries == TextsOf(window[..k], RecipeText)
      invariant forall l | 0 <= l < k :: Describable(window[l])
    {
      TextsOfOneMore(window, k, RecipeText);
      var info := FormatRecipeMaterialInfoText(window[k]);
      if info.None? {
        return Refused;
      }
      entries := entries + [info.value];
    }
    assert window[..|window|] == window;
    if |entries| == 0 {
      return Refused;
    }
    var text := Join(entries, '@');
    if |text| >= CHAT_MAX_LEN + TEXT_OVERHEAD_RESERVE {
      return Refused;
    }
    return Command("cube m_info " + Decimal(start) + " " + Decimal(count) + " " + text);
  }

  // ---------------------------------------------------------------------------------------------
  // What the texts say.
  // ---------------------------------------------------------------------------------------------

  /** A material is its item, a comma and its count. */
  lemma MaterialTextReads(m: Material)
    ensures exists item, count | AllDigits(item) && AllDigits(count) && Value(item) == m.vnum && Value(count) == m.count ::
      MaterialText(m) == item + [','] + count
  {
    ValueOfDecimal(m.vnum);
    ValueOfDecimal(m.count);
    assert MaterialText(m) == Decimal(m.vnum) + [','] + Decimal(m.count);
  }

  /** Materials are joined by &, alternatives by |, recipes by @, and gold follows a slash when there is any. */
  lemma TextsGrow(materials: seq<Material>, m: Material, sets: seq<seq<Material>>, recipes: seq<Recipe>, recipe: Recipe)
    ensures SetText([m]) == MaterialText(m) && SetsText([materials]) == SetText(materials) && WindowText([recipe]) == RecipeText(recipe)
    ensures materials != [] ==> SetText(materials + [m]) == SetText(materials) + "&" + MaterialText(m)
    ensures sets != [] ==> SetsText(sets + [materials]) == SetsText(sets) + "|" + SetText(materials)
    ensures recipes != [] ==> WindowText(recipes + [recipe]) == WindowText(recipes) + "@" + RecipeText(recipe)
  {
    hide MaterialText, RecipeText;
    JoinGrows(materials, m, MaterialText, '&');
    JoinGrows(sets, materials, SetText, '|');
    JoinGrows(recipes, recipe, RecipeText, '@');
    JoinOne(m, MaterialText, '&');
    JoinOne(materials, SetText, '|');
    JoinOne(recipe, RecipeText, '@');
  }

  lemma JoinGrows<T>(items: seq<T>, item: T, text: T -> string, sep: char)
    ensures items != [] ==>
      Join(TextsOf(items + [item], text), sep) == Join(TextsOf(items, text), sep) + [sep] + text(item)
  {
    if items != [] {
      assert (items + [item])[..|items|] == items;
      var texts := TextsOf(items + [item], text);
      assert texts == TextsOf(items, text) + [text(item)];
      assert texts[..|texts| - 1] == TextsOf(items, text);
    }
  }

  lemma JoinOne<T>(item: T, text: T -> string, sep: char)
    ensures Join(TextsOf([item], text), sep) == text(item)
  {
    assert [item][..0] == [];
  }

  /** The text of a recipe: its options when it has any, else its materials, and its gold. */
  lemma RecipeTextReads(recipe: Recipe)
    requires Describable(recipe)
    ensures RecipeText(recipe) ==
      SetsText(if recipe.options != [] then recipe.options else [recipe.materials]) + if recipe.gold > 0 then "/" + Decimal(recipe.gold) else ""
  {
    hide SetsText, Decimal;
  }

  /** The window: from start on, as many as asked for and there are. */
  lemma WindowReads(start: nat, count: nat, recipes: seq<Recipe>)
    requires start <= |recipes|
    ensures |Window(start, count, recipes)| == if count <= |recipes| - start then count else |recipes| - start
    ensures forall k | 0 <= k < |Window(start, count, recipes)| :: Window(start, count, recipes)[k] == recipes[start + k]
  {
  }

  // ---------------------------------------------------------------------------------------------
  // Decoding.
  // ---------------------------------------------------------------------------------------------

  lemma MaterialTextFree(m: Material, c: char)
    requires !IsDigit(c) && c != ','
    ensures c !in MaterialText(m)
  {
    DigitsAreFree(m.vnum, c);
    DigitsAreFree(m.count, c);
  }

  lemma MaterialTextInjective(a: Material, b: Material)
    requires MaterialText(a) == MaterialText(b)
    ensures a == b
  {
    DigitsAreFree(a.vnum, ',');
    DigitsAreFree(b.vnum, ',');
    SplitAtFirst(Decimal(a.vnum), Decimal(a.count), Decimal(b.vnum), Decimal(b.count), ',');
    DecimalInjective(a.vnum, b.vnum);
    DecimalInjective(a.count, b.count);
  }

  lemma SetTextFree(materials: seq<Material>, c: char)
    requires !IsDigit(c) && c != ',' && c != '&'
    ensures c !in SetText(materials)
  {
    forall i | 0 <= i < |materials| ensures c !in TextsOf(materials, MaterialText)[i] {
      MaterialTextFree(materials[i], c);
    }
    JoinIsFree(TextsOf(materials, MaterialText), '&', c);
  }

  lemma SetTextInjective(a: seq<Material>, b: seq<Material>)
    requires a != [] && b != [] && SetText(a) == SetText(b)
    ensures a == b
  {
    hide Join, MaterialText;
    forall m: Material ensures '&' !in MaterialText(m) {
      MaterialTextFree(m, '&');
    }
    JoinedTexts(a, b, MaterialText, '&');
    forall i | 0 <= i < |a| ensures a[i] == b[i] {
      MaterialTextInjective(a[i], b[i]);
    }
  }

  lemma SetsTextFree(sets: seq<seq<Material>>, c: char)
    requires !IsDigit(c) && c != ',' && c != '&' && c != '|'
    ensures c !in SetsText(sets)
  {
    hide Join, SetText;
    forall o | 0 <= o < |sets| ensures c !in TextsOf(sets, SetText)[o] {
      SetTextFree(sets[o], c);
    }
    JoinIsFree(TextsOf(sets, SetText), '|', c);
  }

  lemma SetsTextInjective(a: seq<seq<Material>>, b: seq<seq<Material>>)
    requires a != [] && b != [] && SetsText(a) == SetsText(b)
    requires forall o | 0 <= o < |a| :: a[o] != []
    requires forall o | 0 <= o < |b| :: b[o] != []
    ensures a == b
  {
    hide Join, SetText;
    forall materials ensures '|' !in SetText(materials) {
      SetTextFree(materials, '|');
    }
    JoinedTexts(a, b, SetText, '|');
    forall o | 0 <= o < |a| ensures a[o] == b[o] {
      SetTextInjective(a[o], b[o]);
    }
  }

  lemma RecipeTextFree(recipe: Recipe, c: char)
    requires c == '@' || c == ' '
    ensures c !in RecipeText(recipe)
  {
    hide SetsText;
    SetsTextFree(MaterialSets(recipe), c);
    DigitsAreFree(recipe.gold, c);
  }

  lemma GoldMarked(a: string, gold: nat)
    requires '/' !in a
    ensures '/' in a + GoldText(gold) <==> gold > 0
  {
    if gold > 0 {
      assert (a + GoldText(gold))[|a|] == '/';
    } else {
      assert a + GoldText(gold) == a;
    }
  }

  /** The gold is zero exactly when nothing follows the materials. */
  lemma GoldDecodes(a: string, b: string, m: nat, n: nat)
    requires a + GoldText(m) == b + GoldText(n) && '/' !in a && '/' !in b
    ensures a == b && m == n
  {
    GoldMarked(a, m);
    GoldMarked(b, n);
    if m > 0 {
      assert a + GoldText(m) == a + ['/'] + Decimal(m) && b + GoldText(n) == b + ['/'] + Decimal(n);
      SplitAtFirst(a, Decimal(m), b, Decimal(n), '/');
      DecimalInjective(m, n);
    } else {
      assert a + GoldText(m) == a && b + GoldText(n) == b;
    }
  }

  /** In the recipes' own fields: the same options, or the same materials, or a single option that is the other's materials. */
  predicate SameNeeds(a: Recipe, b: Recipe) {
    && (a.options != [] && b.options != [] ==> a.options == b.options)
    && (a.options == [] && b.options == [] ==> a.materials == b.materials)
    && (a.options == [] && b.options != [] ==> b.options == [a.materials])
    && (a.options != [] && b.options == [] ==> a.options == [b.materials])
  }

  lemma SameSetsSameNeeds(a: Recipe, b: Recipe)
    requires MaterialSets(a) != []
    ensures MaterialSets(a) == MaterialSets(b) ==> SameNeeds(a, b)
  {
  }

  /** Two recipes with the same text need the same material sets and the same gold. */
  lemma RecipeTextDecodes(a: Recipe, b: Recipe)
    requires Describable(a) && Describable(b) && RecipeText(a) == RecipeText(b)
    ensures MaterialSets(a) == MaterialSets(b) && a.gold == b.gold
    ensures SameNeeds(a, b)
  {
    SameSetsSameNeeds(a, b);
    hide SetsText, MaterialSets, GoldText;
    SetsTextFree(MaterialSets(a), '/');
    SetsTextFree(MaterialSets(b), '/');
    GoldDecodes(SetsText(MaterialSets(a)), SetsText(MaterialSets(b)), a.gold, b.gold);
    SetsTextInjective(MaterialSets(a), MaterialSets(b));
  }

  /** The entry text of a window determines, recipe by recipe, the effective material sets and the gold. */
  lemma WindowTextDecodes(a: seq<Recipe>, b: seq<Recipe>)
    requires a != [] && b != [] && WindowText(a) == WindowText(b)
    requires forall k | 0 <= k < |a| :: Describable(a[k])
    requires forall k | 0 <= k < |b| :: Describable(b[k])
    ensures |a| == |b|
    ensures forall k | 0 <= k < |a| :: MaterialSets(a[k]) == MaterialSets(b[k]) && a[k].gold == b[k].gold && SameNeeds(a[k], b[k])
  {
    hide Join, RecipeText, Describable, MaterialSets, SameNeeds;
    forall recipe ensures '@' !in RecipeText(recipe) {
      RecipeTextFree(recipe, '@');
    }
    JoinedTexts(a, b, RecipeText, '@');
    forall k | 0 <= k < |a| ensures MaterialSets(a[k]) == MaterialSets(b[k]) && a[k].gold == b[k].gold && SameNeeds(a[k], b[k]) {
      RecipeTextDecodes(a[k], b[k]);
    }
  }

  function Request(start: nat, count: nat, entries: string): string {
    Decimal(start) + [' '] + (Decimal(count) + [' '] + entries)
  }

  lemma CommandIsRequest(start: nat, count: nat, entries: string)
    ensures "cube m_info " + Decimal(start) + " " + Decimal(count) + " " + entries == "cube m_info " + Request(start, count, entries)
  {
  }

  lemma SameRequest(head: string, x: string, y: string)
    requires head + x == head + y
    ensures x == y
  {
    assert x == (head + x)[|head|..] && y == (head + y)[|head|..];
  }

  /** The whole command determines the request as well. */
  lemma CommandDecodes(start: nat, count: nat, a: string, start': nat, count': nat, b: string)
    requires "cube m_info " + Decimal(start) + " " + Decimal(count) + " " + a == "cube m_info " + Decimal(start') + " " + Decimal(count') + " " + b
    ensures start == start' && count == count' && a == b
  {
    hide Decimal;
    CommandIsRequest(start, count, a);
    CommandIsRequest(start', count', b);
    SameRequest("cube m_info ", Request(start, count, a), Request(start', count', b));
    forall n: nat ensures ' ' !in Decimal(n) {
      DigitsAreFree(n, ' ');
    }
    SplitAtFirst(Decimal(start), Decimal(count) + [' '] + a, Decimal(start'), Decimal(count') + [' '] + b, ' ');
    SplitAtFirst(Decimal(count), a, Decimal(count'), b, ' ');
    DecimalInjective(start, start');
    DecimalInjective(count, count');
  }
}
