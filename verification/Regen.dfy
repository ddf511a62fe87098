/** Regen spawns: packs and rectangles. */
module Regen {
  import opened Results
  import opened Integers
  import opened Text
  import opened Decimals

  const MAX_SPAWN_COUNT := 8
  const MAX_RECTANGLE_EXTENT := 10000
  const MAX_INT32 := 0x7FFF_FFFF

  /** The columns that a spawn hands on to its groups unchanged. */
  datatype Payload = Payload(mapIndex: Uint32, raceNum: Uint32, combatProfile: string, reward: string)

  datatype RegenSpawn = RegenSpawn(
    ref: string, name: string, x: Int32, y: Int32, count: Uint16, packSpacing: Int32, formation: string,
    syncRespawn: bool, sharedHp: bool, sx: Int32, sy: Int32, payload: Payload)

  datatype SpawnGroup = SpawnGroup(ref: string, name: string, x: Int32, y: Int32, payload: Payload)

  datatype Point = Point(x: Int32, y: Int32)

  // ---------------------------------------------------------------------------------------------
  // int32 arithmetic, wrapping as Go's does.
  // ---------------------------------------------------------------------------------------------

  function ToInt32(n: int): Int32 {
    var low := n % 0x1_0000_0000;
    if low > MAX_INT32 then low - 0x1_0000_0000 else low
  }

  function AddInt32(a: Int32, b: Int32): Int32 {
    ToInt32(a + b)
  }

  // ---------------------------------------------------------------------------------------------
  // Packs.
  // ---------------------------------------------------------------------------------------------

  lemma QuotientBound(steps: int, spacing: int)
    requires steps >= 0 && spacing > 0
    ensures steps > MAX_INT32 / spacing <==> steps * spacing > MAX_INT32
  {
    var q := MAX_INT32 / spacing;
    assert q * spacing <= MAX_INT32 < (q + 1) * spacing;
    if steps > q {
      assert steps * spacing >= (q + 1) * spacing by { MulMonotone(q + 1, steps, spacing); }
    } else {
      assert steps * spacing <= q * spacing by { MulMonotone(steps, q, spacing); }
    }
  }

  lemma MulMonotone(a: int, b: int, m: int)
    requires a <= b && m > 0
    ensures a * m <= b * m
  {
  }

  /** Succeeds exactly when the product fits int32, and is that product. */
  method PackOffset(steps: int, spacing: Int32) returns (r: Option<Int32>)
    requires steps <= MAX_INT64
    ensures r.Some? <==> steps >= 0 && spacing > 0 && steps * spacing <= MAX_INT32
    ensures r.Some? ==> r.value == steps * spacing
  {
    if steps < 0 || spacing <= 0 {
      return None;
    }
    if steps == 0 {
      return Some(0);
    }
    QuotientBound(steps, spacing);
    if steps > MAX_INT32 / spacing {
      return None;
    }
    assert 0 <= steps * spacing by { MulMonotone(0, steps, spacing); }
    return Some(ToInt32(steps * spacing));
  }

  predicate Fits(n: int) {
    n <= MAX_INT32
  }

  /** Where the member in this column and row stands. */
  predicate PointFits(x: Int32, y: Int32, col: int, row: int, spacing: Int32) {
    && col >= 0 && row >= 0 && spacing > 0 && Fits(col * spacing) && Fits(row * spacing)
    && Fits(x + col * spacing) && Fits(y + row * spacing)
  }

  /** Succeeds exactly when both sums fit int32, and is these sums: the guards are exact. */
  method PackMemberPoint(originX: Int32, originY: Int32, col: int, row: int, spacing: Int32) returns (r: Option<Point>)
    requires col <= MAX_INT64 && row <= MAX_INT64
    ensures r.Some? <==> PointFits(originX, originY, col, row, spacing)
    ensures r.Some? ==> r.value.x == originX + col * spacing && r.value.y == originY + row * spacing
  {
    var dx := PackOffset(col, spacing);
    if dx.None? {
      return None;
    }
    var dy := PackOffset(row, spacing);
    if dy.None? {
      return None;
    }
    assert 0 <= dx.value && 0 <= dy.value by {
      MulMonotone(0, col, spacing);
      MulMonotone(0, row, spacing);
    }
    if dx.value > 0 && originX > MAX_INT32 - dx.value {
      return None;
    }
    if dy.value > 0 && originY > MAX_INT32 - dy.value {
      return None;
    }
    return Some(Point(AddInt32(originX, dx.value), AddInt32(originY, dy.value)));
  }

  /** The side of the smallest square of cells with room for this many members. */
  ghost predicate IsColumnCount(count: nat, cols: nat) {
    cols * cols >= count && forall c: nat | c < cols :: c * c < count
  }

  method PackColumnCount(count: nat) returns (cols: nat)
    requires count >= 1
    ensures cols >= 1 && IsColumnCount(count, cols)
  {
    cols := 1;
    while cols <= count
      invariant 1 <= cols <= count + 1
      invariant forall c: nat | c < cols :: c * c < count
    {
      if cols * cols >= count {
        return;
      }
      cols := cols + 1;
    }
    assert count * count < count;
    SquareAtLeast(count);
    assert false;
  }

  lemma SquareAtLeast(n: nat)
    ensures n * n >= n
  {
    if n > 1 {
      MulMonotone(1, n, n);
    }
  }

  lemma ColumnCountIsUnique(count: nat, a: nat, b: nat)
    requires IsColumnCount(count, a) && IsColumnCount(count, b)
    ensures a == b
  {
  }

  datatype Formation = Grid | Line

  function FormationOf(formation: string): Option<Formation> {
    var trimmed := TrimSpace(formation);
    if trimmed == "" || trimmed == "grid" then Some(Grid) else if trimmed == "line" then Some(Line) else None
  }

  /** Column and row of a member of a pack with that many columns. */
  function Cell(formation: Formation, cols: nat, index: nat): (nat, nat)
    requires cols >= 1
  {
    if formation == Line then (0, index) else (index % cols, index / cols)
  }

  /** %02d of a member number. */
  function TwoDigits(n: nat): string {
    if n < 10 then "0" + Decimal(n) else Decimal(n)
  }

  predicate MemberFits(spawn: RegenSpawn, cols: nat, formation: Formation, member: nat)
    requires cols >= 1 && member >= 1
  {
    var (col, row) := Cell(formation, cols, member - 1);
    PointFits(spawn.x, spawn.y, col, row, spawn.packSpacing)
  }

  function MemberGroup(spawn: RegenSpawn, cols: nat, formation: Formation, member: nat): SpawnGroup
    requires cols >= 1 && member >= 1 && MemberFits(spawn, cols, formation, member)
  {
    var (col, row) := Cell(formation, cols, member - 1);
    MulMonotone(0, col, spawn.packSpacing);
    MulMonotone(0, row, spawn.packSpacing);
    SpawnGroup(spawn.ref + ".m" + TwoDigits(member), TrimSpace(spawn.name) + " " + Decimal(member),
      spawn.x + col * spawn.packSpacing, spawn.y + row * spawn.packSpacing, spawn.payload)
  }

  // ---------------------------------------------------------------------------------------------
  // The rectangle.
  // ---------------------------------------------------------------------------------------------

  /** The text that seeds the sample. */
  function RectangleSeed(spawn: RegenSpawn, member: nat): string {
    "regen_rectangle:" + TrimSpace(spawn.ref) + ":" + Decimal(spawn.payload.mapIndex) + ":" + SignedDecimal(spawn.x) + ":"
      + SignedDecimal(spawn.y) + ":" + SignedDecimal(spawn.sx) + ":" + SignedDecimal(spawn.sy) + ":" + Decimal(member)
  }

  predicate ValidExtent(n: int) {
    0 < n <= MAX_RECTANGLE_EXTENT
  }

  /** The offset of a slot, row by row. */
  function OffsetOf(slot: nat, sx: nat): (nat, nat)
    requires sx > 0
  {
    (slot % sx, slot / sx)
  }

  lemma AreaPositive(sx: int, sy: int)
    requires ValidExtent(sx) && ValidExtent(sy)
    ensures 0 < sx * sy <= 100_000_000
  {
    MulMonotone(1, sx, sy);
    MulMonotone(sx, MAX_RECTANGLE_EXTENT, sy);
  }

  /** Slots below the area and offsets inside the rectangle correspond one to one. */
  lemma SlotInRectangle(slot: nat, sx: nat, sy: nat)
    requires sx > 0 && slot < sx * sy
    ensures var (dx, dy) := OffsetOf(slot, sx); dx < sx && dy < sy && slot == dy * sx + dx
  {
    var dx, dy := slot % sx, slot / sx;
    assert slot == dy * sx + dx;
    if dy >= sy {
      MulMonotone(sy, dy, sx);
    }
  }

  lemma OffsetHasSlot(dx: nat, dy: nat, sx: nat, sy: nat)
    requires dx < sx && dy < sy
    ensures dy * sx + dx < sx * sy && OffsetOf(dy * sx + dx, sx) == (dx, dy)
  {
    MulMonotone(dy, sy - 1, sx);
    assert (sy - 1) * sx + sx == sy * sx;
    DivMod(dy, dx, sx);
  }

  lemma QuotientUnique(q: nat, r: nat, q': nat, r': nat, d: nat)
    requires r < d && r' < d && q * d + r == q' * d + r'
    ensures q == q' && r == r'
  {
    if q < q' {
      MulGap(q, q', d);
    } else if q' < q {
      MulGap(q', q, d);
    }
  }

  /** Different multiples are at least one step apart. */
  lemma MulGap(a: int, b: int, m: int)
    requires a < b && m > 0
    ensures a * m + m <= b * m
  {
    MulMonotone(a + 1, b, m);
    assert (a + 1) * m == a * m + m;
  }

  lemma DivMod(q: nat, r: nat, d: nat)
    requires r < d
    ensures (q * d + r) / d == q && (q * d + r) % d == r
  {
    var n := q * d + r;
    assert n == n / d * d + n % d;
    QuotientUnique(q, r, n / d, n % d, d);
  }

  /** The sampled slot of a spawn. */
  function SampledSlot(spawn: RegenSpawn, member: nat, hash: string -> Uint64): nat
    requires ValidExtent(spawn.sx) && ValidExtent(spawn.sy)
  {
    AreaPositive(spawn.sx, spawn.sy);
    hash(RectangleSeed(spawn, member)) % (spawn.sx * spawn.sy)
  }

  predicate RectangleFits(spawn: RegenSpawn, member: nat, hash: string -> Uint64) {
    && member != 0 && ValidExtent(spawn.sx) && ValidExtent(spawn.sy)
    && var (dx, dy) := OffsetOf(SampledSlot(spawn, member, hash), spawn.sx);
    Fits(spawn.x + dx) && Fits(spawn.y + dy)
  }

  /** Go's uint64 product. */
  function MulUint64(a: Uint64, b: Uint64): Uint64 {
    (a * b) % 0x1_0000_0000_0000_0000
  }

  lemma AreaIsExact(sx: int, sy: int)
    requires ValidExtent(sx) && ValidExtent(sy)
    ensures 0 < sx * sy <= 100_000_000 && MulUint64(sx, sy) == sx * sy
  {
    AreaPositive(sx, sy);
  }

  /** The sampled offset; it lies inside the rectangle. */
  method SampleOffset(spawn: RegenSpawn, member: Uint16, hash: string -> Uint64) returns (dx: Int32, dy: Int32)
    requires ValidExtent(spawn.sx) && ValidExtent(spawn.sy)
    ensures (dx as int, dy as int) == OffsetOf(SampledSlot(spawn, member, hash), spawn.sx)
    ensures 0 <= dx < spawn.sx && 0 <= dy < spawn.sy
  {
    hide RectangleSeed, MulUint64;
    AreaIsExact(spawn.sx, spawn.sy);
    var area := MulUint64(spawn.sx, spawn.sy);
    var slot := hash(RectangleSeed(spawn, member)) % area;
    SlotInRectangle(slot, spawn.sx, spawn.sy);
    var column, row := slot % spawn.sx, slot / spawn.sx;
    dx, dy := ToInt32(column), ToInt32(row);
  }

  lemma SumFits(a: Int32, b: Int32)
    requires b >= 0
    ensures (b > 0 && a > MAX_INT32 - b) <==> !Fits(a + b)
    ensures Fits(a + b) ==> AddInt32(a, b) == a + b
  {
  }

  /** Succeeds exactly when the sampled point fits int32, and is that point, inside the rectangle. */
  method RectanglePoint(spawn: RegenSpawn, member: Uint16, hash: string -> Uint64) returns (r: Option<Point>)
    ensures r.Some? <==> RectangleFits(spawn, member, hash)
    ensures r.Some? ==>
      var (dx, dy) := OffsetOf(SampledSlot(spawn, member, hash), spawn.sx);
      r.value.x == spawn.x + dx && r.value.y == spawn.y + dy
    ensures r.Some? ==> spawn.x <= r.value.x < spawn.x + spawn.sx && spawn.y <= r.value.y < spawn.y + spawn.sy
  {
    hide SampledSlot, OffsetOf, AddInt32, MulUint64, Fits;
    if member == 0 || spawn.sx <= 0 || spawn.sy <= 0 || spawn.sx > MAX_RECTANGLE_EXTENT || spawn.sy > MAX_RECTANGLE_EXTENT {
      return None;
    }
    AreaIsExact(spawn.sx, spawn.sy);
    if MulUint64(spawn.sx, spawn.sy) == 0 {
      assert false;
    }
    var dx, dy := SampleOffset(spawn, member, hash);
    SumFits(spawn.x, dx);
    SumFits(spawn.y, dy);
    if dx > 0 && spawn.x > MAX_INT32 - dx {
      return None;
    }
    if dy > 0 && spawn.y > MAX_INT32 - dy {
      return None;
    }
    return Some(Point(AddInt32(spawn.x, dx), AddInt32(spawn.y, dy)));
  }

  // ---------------------------------------------------------------------------------------------
  // Expanding the spawns.
  // ---------------------------------------------------------------------------------------------

  predicate ValidSingle(spawn: RegenSpawn, hash: string -> Uint64) {
    && spawn.packSpacing == 0 && !spawn.syncRespawn && !spawn.sharedHp && TrimSpace(spawn.formation) == ""
    && (spawn.sx != 0 || spawn.sy != 0 ==> RectangleFits(spawn, 1, hash))
  }

  function SingleGroup(spawn: RegenSpawn, hash: string -> Uint64): SpawnGroup
    requires ValidSingle(spawn, hash)
  {
    if spawn.sx != 0 || spawn.sy != 0 then
      var (dx, dy) := OffsetOf(SampledSlot(spawn, 1, hash), spawn.sx);
      SpawnGroup(spawn.ref, spawn.name, spawn.x + dx, spawn.y + dy, spawn.payload)
    else SpawnGroup(spawn.ref, spawn.name, spawn.x, spawn.y, spawn.payload)
  }

  ghost predicate ValidPack(spawn: RegenSpawn, cols: nat) {
    && spawn.sx == 0 && spawn.sy == 0 && spawn.packSpacing > 0 && FormationOf(spawn.formation).Some?
    && cols >= 1 && IsColumnCount(spawn.count, cols)
    && forall member | 1 <= member <= spawn.count :: MemberFits(spawn, cols, FormationOf(spawn.formation).value, member)
  }

  /** The groups of one spawn. */
  ghost predicate Expands(spawn: RegenSpawn, groups: seq<SpawnGroup>, hash: string -> Uint64) {
    if spawn.count == 1 then ValidSingle(spawn, hash) && groups == [SingleGroup(spawn, hash)]
    else exists cols: nat :: PackGroups(spawn, cols, groups)
  }

  ghost predicate PackGroups(spawn: RegenSpawn, cols: nat, groups: seq<SpawnGroup>) {
    && ValidPack(spawn, cols) && |groups| == spawn.count
    && forall k | 0 <= k < |groups| :: groups[k] == MemberGroup(spawn, cols, FormationOf(spawn.formation).value, k + 1)
  }

  ghost predicate ValidSpawn(spawn: RegenSpawn, overlays: RegenSpawn -> bool, hash: string -> Uint64) {
    && overlays(spawn) && 1 <= spawn.count <= MAX_SPAWN_COUNT
    && if spawn.count == 1 then ValidSingle(spawn, hash) else exists cols: nat :: ValidPack(spawn, cols)
  }

  method ExpandSingle(spawn: RegenSpawn, hash: string -> Uint64) returns (r: Option<SpawnGroup>)
    ensures r.Some? <==> ValidSingle(spawn, hash)
    ensures r.Some? ==> r.value == SingleGroup(spawn, hash)
  {
    hide RectangleSeed, TrimSpace;
    if spawn.packSpacing != 0 || spawn.syncRespawn || spawn.sharedHp || TrimSpace(spawn.formation) != "" {
      return None;
    }
    var x, y := spawn.x, spawn.y;
    if spawn.sx != 0 || spawn.sy != 0 {
      var point := RectanglePoint(spawn, 1, hash);
      if point.None? {
        return None;
      }
      x, y := point.value.x, point.value.y;
    }
    return Some(SpawnGroup(spawn.ref, spawn.name, x, y, spawn.payload));
  }

  method ExpandPack(spawn: RegenSpawn) returns (r: Option<seq<SpawnGroup>>)
    requires spawn.count >= 1
    ensures r.Some? <==> exists cols: nat :: ValidPack(spawn, cols)
    ensures r.Some? ==> exists cols: nat :: PackGroups(spawn, cols, r.value)
  {
    hide TrimSpace, TwoDigits, PointFits;
    if spawn.sx != 0 || spawn.sy != 0 || spawn.packSpacing <= 0 {
      return None;
    }
    var formation := FormationOf(spawn.formation);
    if formation.None? {
      return None;
    }
    var cols := PackColumnCount(spawn.count);
    forall other: nat | ValidPack(spawn, other) ensures other == cols {
      ColumnCountIsUnique(spawn.count, other, cols);
    }
    var groups: seq<SpawnGroup> := [];
    for member := 1 to spawn.count + 1
      invariant |groups| == member - 1
      invariant forall m | 1 <= m < member :: MemberFits(spawn, cols, formation.value, m)
      invariant forall k | 0 <= k < |groups| :: groups[k] == MemberGroup(spawn, cols, formation.value, k + 1)
    {
      var index := member - 1;
      var col, row := index % cols, index / cols;
      if formation.value == Line {
        col, row := 0, index;
      }
      IndexBound(index, cols);
      var point := PackMemberPoint(spawn.x, spawn.y, col, row, spawn.packSpacing);
      assert MemberFits(spawn, cols, formation.value, member) <==> point.Some?;
      if point.None? {
        return None;
      }
      groups := groups + [SpawnGroup(spawn.ref + ".m" + TwoDigits(member), TrimSpace(spawn.name) + " " + Decimal(member),
        point.value.x, point.value.y, spawn.payload)];
    }
    assert ValidPack(spawn, cols) && PackGroups(spawn, cols, groups);
    return Some(groups);
  }

  lemma IndexBound(index: nat, cols: nat)
    requires cols >= 1
    ensures index % cols <= index && index / cols <= index
  {
    assert index == index / cols * cols + index % cols;
    MulMonotone(1, cols, if index / cols > 0 then index / cols else 1);
  }

  /** The blocks of groups, spawn by spawn. */
  ghost predicate AllExpand(spawns: seq<RegenSpawn>, blocks: seq<seq<SpawnGroup>>, hash: string -> Uint64) {
    |blocks| == |spawns| && forall i | 0 <= i < |spawns| :: Expands(spawns[i], blocks[i], hash)
  }

  function Flatten(blocks: seq<seq<SpawnGroup>>): seq<SpawnGroup> {
    if blocks == [] then [] else Flatten(blocks[..|blocks| - 1]) + blocks[|blocks| - 1]
  }

  method ExpandSpawn(spawn: RegenSpawn, overlays: RegenSpawn -> bool, hash: string -> Uint64) returns (r: Option<seq<SpawnGroup>>)
    ensures r.Some? <==> ValidSpawn(spawn, overlays, hash)
    ensures r.Some? ==> Expands(spawn, r.value, hash)
  {
    hide ValidSingle, ValidPack, PackGroups;
    if !overlays(spawn) || spawn.count == 0 || spawn.count > MAX_SPAWN_COUNT {
      return None;
    }
    if spawn.count == 1 {
      var single := ExpandSingle(spawn, hash);
      return if single.Some? then Some([single.value]) else None;
    }
    r := ExpandPack(spawn);
  }

  /** All spawns or none: the groups of every spawn, in order. */
  method SpawnGroupsFromRegenSpawns(spawns: seq<RegenSpawn>, overlays: RegenSpawn -> bool, hash: string -> Uint64)
    returns (r: Option<seq<SpawnGroup>>)
    ensures r.Some? <==> forall i | 0 <= i < |spawns| :: ValidSpawn(spawns[i], overlays, hash)
    ensures r.Some? ==> exists blocks :: AllExpand(spawns, blocks, hash) && r.value == Flatten(blocks)
  {
    hide ValidSpawn, Expands;
    ghost var blocks: seq<seq<SpawnGroup>> := [];
    var groups: seq<SpawnGroup> := [];
    for i := 0 to |spawns|
      invariant forall k | 0 <= k < i :: ValidSpawn(spawns[k], overlays, hash)
      invariant |blocks| == i && (forall k | 0 <= k < i :: Expands(spawns[k], blocks[k], hash)) && groups == Flatten(blocks)
    {
      var block := ExpandSpawn(spawns[i], overlays, hash);
      if block.None? {
        return None;
      }
      assert (blocks + [block.value])[..|blocks|] == blocks;
      blocks, groups := blocks + [block.value], groups + block.value;
    }
    return Some(groups);
  }

  // ---------------------------------------------------------------------------------------------
  // What a pack looks like.
  // ---------------------------------------------------------------------------------------------

  lemma DifferentCells(formation: Formation, cols: nat, i: nat, j: nat)
    requires cols >= 1 && Cell(formation, cols, i) == Cell(formation, cols, j)
    ensures i == j
  {
    assert i == i / cols * cols + i % cols && j == j / cols * cols + j % cols;
  }

  lemma SameOffset(a: int, b: int, spacing: int)
    requires spacing > 0 && a * spacing == b * spacing
    ensures a == b
  {
    if a < b {
      MulGap(a, b, spacing);
    } else if b < a {
      MulGap(b, a, spacing);
    }
  }

  /** No two members of a pack stand on the same point. */
  lemma MembersApart(spawn: RegenSpawn, cols: nat, groups: seq<SpawnGroup>, i: nat, j: nat)
    requires PackGroups(spawn, cols, groups) && i < |groups| && j < |groups| && i != j
    ensures groups[i].x != groups[j].x || groups[i].y != groups[j].y
  {
    hide TrimSpace, TwoDigits;
    var formation := FormationOf(spawn.formation).value;
    var (ci, ri) := Cell(formation, cols, i);
    var (cj, rj) := Cell(formation, cols, j);
    assert MemberFits(spawn, cols, formation, i + 1) && MemberFits(spawn, cols, formation, j + 1);
    if groups[i].x == groups[j].x && groups[i].y == groups[j].y {
      SameOffset(ci, cj, spawn.packSpacing);
      SameOffset(ri, rj, spawn.packSpacing);
      DifferentCells(formation, cols, i, j);
    }
  }

  /**
   * A grid pack fills the smallest square of cells row by row; a line pack goes down one column. Members carry their
   * number, and the payload of the spawn.
   */
  lemma PackShape(spawn: RegenSpawn, cols: nat, groups: seq<SpawnGroup>, i: nat)
    requires PackGroups(spawn, cols, groups) && i < |groups|
    ensures |groups| == spawn.count <= cols * cols && forall c: nat | c < cols :: c * c < spawn.count
    ensures TrimSpace(spawn.formation) in ["", "grid", "line"] && cols > 0
    ensures TrimSpace(spawn.formation) == "line" ==> groups[i].x == spawn.x && groups[i].y == spawn.y + i * spawn.packSpacing
    ensures TrimSpace(spawn.formation) != "line" ==>
      && groups[i].x == spawn.x + i % cols * spawn.packSpacing && groups[i].y == spawn.y + i / cols * spawn.packSpacing
      && i / cols < cols
    ensures groups[i].ref == spawn.ref + ".m" + (if i < 9 then "0" else "") + Decimal(i + 1)
    ensures groups[i].name == TrimSpace(spawn.name) + " " + Decimal(i + 1) && groups[i].payload == spawn.payload
  {
    hide TrimSpace, Decimal;
    var formation := FormationOf(spawn.formation).value;
    assert MemberFits(spawn, cols, formation, i + 1);
    if formation == Grid {
      SlotInRectangle(i, cols, cols);
    }
    assert i >= 9 ==> "" + Decimal(i + 1) == Decimal(i + 1);
    assert spawn.ref + ".m" + (if i < 9 then "0" else "") + Decimal(i + 1) == spawn.ref + ".m" + TwoDigits(i + 1);
  }

  /** Which packs expand: those of a known formation whose offsets and points all fit int32. */
  lemma PackIsValid(spawn: RegenSpawn, cols: nat)
    requires cols >= 1 && IsColumnCount(spawn.count, cols)
    ensures ValidPack(spawn, cols) <==>
      && spawn.sx == spawn.sy == 0 && spawn.packSpacing > 0 && TrimSpace(spawn.formation) in ["", "grid", "line"]
      && forall i: nat | i < spawn.count ::
        var col, row := if TrimSpace(spawn.formation) == "line" then 0 else i % cols, if TrimSpace(spawn.formation) == "line" then i else i / cols;
        && col * spawn.packSpacing <= MAX_INT32 && row * spawn.packSpacing <= MAX_INT32
        && spawn.x + col * spawn.packSpacing <= MAX_INT32 && spawn.y + row * spawn.packSpacing <= MAX_INT32
  {
    hide TrimSpace, IsColumnCount;
    if spawn.packSpacing > 0 && FormationOf(spawn.formation).Some? {
      forall i: nat | i < spawn.count
        ensures MemberFits(spawn, cols, FormationOf(spawn.formation).value, i + 1) <==>
          var col, row := if TrimSpace(spawn.formation) == "line" then 0 else i % cols, if TrimSpace(spawn.formation) == "line" then i else i / cols;
          && col * spawn.packSpacing <= MAX_INT32 && row * spawn.packSpacing <= MAX_INT32
          && spawn.x + col * spawn.packSpacing <= MAX_INT32 && spawn.y + row * spawn.packSpacing <= MAX_INT32
      {
      }
    }
  }

  /** A lone spawn stands at its origin, or in a rectangle at the slot that its own fields hash to. */
  lemma SingleStands(spawn: RegenSpawn, groups: seq<SpawnGroup>, hash: string -> Uint64)
    requires spawn.count == 1 && Expands(spawn, groups, hash)
    ensures |groups| == 1 && groups[0].ref == spawn.ref && groups[0].name == spawn.name && groups[0].payload == spawn.payload
    ensures spawn.sx == spawn.sy == 0 ==> groups[0].x == spawn.x && groups[0].y == spawn.y
    ensures spawn.sx != 0 || spawn.sy != 0 ==>
      && 0 < spawn.sx * spawn.sy && spawn.sx > 0
      && var slot := hash("regen_rectangle:" + TrimSpace(spawn.ref) + ":" + Decimal(spawn.payload.mapIndex) + ":" + SignedDecimal(spawn.x) + ":"
          + SignedDecimal(spawn.y) + ":" + SignedDecimal(spawn.sx) + ":" + SignedDecimal(spawn.sy) + ":" + Decimal(1)) % (spawn.sx * spawn.sy);
      groups[0].x == spawn.x + slot % spawn.sx && groups[0].y == spawn.y + slot / spawn.sx
  {
    hide TrimSpace, SignedDecimal, Decimal;
    if spawn.sx != 0 || spawn.sy != 0 {
      AreaPositive(spawn.sx, spawn.sy);
    }
  }

  /** Block by block, nothing between them and nothing left out. */
  lemma {:induction false} BlocksInOrder(blocks: seq<seq<SpawnGroup>>, i: nat)
    requires i < |blocks|
    ensures Flatten(blocks) == Flatten(blocks[..i]) + blocks[i] + Flatten(blocks[i + 1..]) && Flatten([]) == []
  {
    var n := |blocks| - 1;
    if i < n {
      BlocksInOrder(blocks[..n], i);
      assert blocks[..n][..i] == blocks[..i] && blocks[i + 1..][..n - i - 1] == blocks[..n][i + 1..];
    } else {
      assert blocks[i + 1..] == [];
    }
  }
}
