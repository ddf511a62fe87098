/** Quarantine of character point vectors. */
module Points {
  import opened Results
  import opened Ordered
  import opened Integers
  import opened Ids
  import Accounts

  const POINT_COUNT := Accounts.POINT_COUNT
  const HP_INDEX: Uint8 := 1
  const MIGRATION_VERSION := 11
  const MIGRATION_NAME := "character_point_state"

  datatype PointRow = PointRow(character: Uint32, index: Uint8, value: Int32)

  /** A retained export; a table that the JSON leaves out is None. */
  datatype PointExport = PointExport(migrationVersion: int, migrationName: string, characterIds: seq<Uint32>, points: Option<seq<PointRow>>)
  datatype CanonicalPoints = CanonicalPoints(characterIds: seq<Uint32>, points: seq<PointRow>)

  function PointKey(row: PointRow): Key {
    Key(row.character, row.index, 0, 0)
  }

  // ---------------------------------------------------------------------------------------------
  // Counting is enough.
  // ---------------------------------------------------------------------------------------------

  /** As many different indexes below n as there are leave none out. */
  lemma {:induction false} Pigeonhole(indexes: set<Uint8>, n: nat)
    requires forall i | i in indexes :: i < n
    ensures |indexes| <= n
    ensures |indexes| == n ==> forall i: Uint8 | i < n :: i in indexes
  {
    if n > 0 && n - 1 < 0x100 {
      var last: Uint8 := n - 1;
      Pigeonhole(indexes - {last}, n - 1);
    } else if n > 0 {
      Pigeonhole(indexes, n - 1);
    }
  }

  predicate HasPoint(rows: seq<PointRow>, character: Uint32, index: int) {
    exists j :: 0 <= j < |rows| && rows[j].character == character && rows[j].index == index
  }

  predicate Complete(rows: seq<PointRow>) {
    forall j, i | 0 <= j < |rows| && 0 <= i < POINT_COUNT :: HasPoint(rows, rows[j].character, i)
  }

  predicate ValidPoints(rows: seq<PointRow>) {
    DistinctKeys(rows, PointKey) && forall j | 0 <= j < |rows| :: rows[j].character != 0 && rows[j].index < POINT_COUNT
  }

  /** Every character that has a point row has all 255, each once. */
  predicate Accepts(e: PointExport) {
    && e.migrationVersion == MIGRATION_VERSION && e.migrationName == MIGRATION_NAME
    && e.points.Some? && ValidIds(e.characterIds) && ValidPoints(e.points.value) && Complete(e.points.value)
  }

  /** Rows sorted by character and index, the declared ids sorted and merged with those of the rows. */
  predicate CanonicalOf(e: PointExport, c: CanonicalPoints)
    requires e.points.Some?
  {
    && Sorted(c.points, PointKey) && multiset(c.points) == multiset(e.points.value)
    && Sorted(c.characterIds, IdKey)
    && (forall v | v in c.characterIds :: v in e.characterIds || HasCharacter(e.points.value, v))
    && (forall v | v in e.characterIds :: v in c.characterIds)
    && forall j | 0 <= j < |e.points.value| :: e.points.value[j].character in c.characterIds
  }

  predicate HasCharacter(rows: seq<PointRow>, character: Uint32) {
    exists j :: 0 <= j < |rows| && rows[j].character == character
  }

  // ---------------------------------------------------------------------------------------------
  // The nested map.
  // ---------------------------------------------------------------------------------------------

  type PointIndex = map<Uint32, map<Uint8, Int32>>

  predicate InIndex(byId: PointIndex, character: Uint32, index: Uint8) {
    character in byId && index in byId[character]
  }

  ghost predicate Indexes(byId: PointIndex, rows: seq<PointRow>) {
    && (forall c: Uint32, i: Uint8 :: InIndex(byId, c, i) <==> HasPoint(rows, c, i))
    && (forall j | 0 <= j < |rows| :: InIndex(byId, rows[j].character, rows[j].index) && byId[rows[j].character][rows[j].index] == rows[j].value)
    && (forall c | c in byId :: HasCharacter(rows, c))
  }

  function Put(byId: PointIndex, row: PointRow): PointIndex {
    byId[row.character := (if row.character in byId then byId[row.character] else map[])[row.index := row.value]]
  }

  lemma HasPointAppend(rows: seq<PointRow>, row: PointRow, c: Uint32, i: int)
    ensures HasPoint(rows + [row], c, i) <==> HasPoint(rows, c, i) || (row.character == c && row.index == i)
    ensures HasCharacter(rows + [row], c) <==> HasCharacter(rows, c) || row.character == c
  {
    var more := rows + [row];
    assert more[|rows|] == row;
    if HasPoint(rows, c, i) {
      var j :| 0 <= j < |rows| && rows[j].character == c && rows[j].index == i;
      assert more[j] == rows[j];
    }
    if HasCharacter(rows, c) {
      var j :| 0 <= j < |rows| && rows[j].character == c;
      assert more[j] == rows[j];
    }
  }

  lemma IndexOneMore(byId: PointIndex, rows: seq<PointRow>, row: PointRow)
    requires Indexes(byId, rows) && !InIndex(byId, row.character, row.index)
    ensures Indexes(Put(byId, row), rows + [row])
  {
    hide HasPoint, HasCharacter;
    var more, byId' := rows + [row], Put(byId, row);
    forall c: Uint32, i: Uint8 ensures HasPoint(more, c, i) <==> HasPoint(rows, c, i) || (row.character == c && row.index == i) {
      HasPointAppend(rows, row, c, i);
    }
    forall c: Uint32 ensures HasCharacter(more, c) <==> HasCharacter(rows, c) || row.character == c {
      HasPointAppend(rows, row, c, 0);
    }
    forall c: Uint32, i: Uint8 ensures InIndex(byId', c, i) <==> InIndex(byId, c, i) || (row.character == c && row.index == i) {
    }
    forall j | 0 <= j < |more|
      ensures InIndex(byId', more[j].character, more[j].index) && byId'[more[j].character][more[j].index] == more[j].value
    {
      assert j < |rows| ==> more[j] == rows[j];
    }
  }

  lemma DistinctOneMore(rows: seq<PointRow>, row: PointRow)
    requires DistinctKeys(rows, PointKey)
    ensures DistinctKeys(rows + [row], PointKey) <==> !HasPoint(rows, row.character, row.index)
  {
    var more := rows + [row];
    assert more[|rows|] == row && forall j | 0 <= j < |rows| :: more[j] == rows[j];
    if HasPoint(rows, row.character, row.index) {
      var j :| 0 <= j < |rows| && rows[j].character == row.character && rows[j].index == row.index;
      assert PointKey(more[j]) == PointKey(more[|rows|]);
    }
  }

  lemma ValidPrefix(rows: seq<PointRow>, j: nat)
    requires ValidPoints(rows) && j <= |rows|
    ensures DistinctKeys(rows[..j], PointKey)
  {
  }

  lemma NothingIndexed()
    ensures Indexes(map[], []) && DistinctKeys<PointRow>([], PointKey)
  {
  }

  /** The loop over the point rows. */
  method IndexPoints(rows: seq<PointRow>) returns (ok: bool, byId: PointIndex)
    ensures ok <==> ValidPoints(rows)
    ensures ok ==> Indexes(byId, rows)
  {
    hide Indexes, DistinctKeys;
    byId := map[];
    NothingIndexed();
    for j := 0 to |rows|
      invariant Indexes(byId, rows[..j]) && DistinctKeys(rows[..j], PointKey)
      invariant forall l | 0 <= l < j :: rows[l].character != 0 && rows[l].index < POINT_COUNT
    {
      var row := rows[j];
      assert rows[..j + 1] == rows[..j] + [row];
      DistinctOneMore(rows[..j], row);
      InIndexMeans(byId, rows[..j], row);
      if row.character == 0 || row.index >= POINT_COUNT {
        return false, byId;
      }
      if row.character in byId && row.index in byId[row.character] {
        if ValidPoints(rows) {
          ValidPrefix(rows, j + 1);
        }
        return false, byId;
      }
      IndexOneMore(byId, rows[..j], row);
      byId := Put(byId, row);
    }
    assert rows[..|rows|] == rows;
    return true, byId;
  }

  lemma InIndexMeans(byId: PointIndex, rows: seq<PointRow>, row: PointRow)
    requires Indexes(byId, rows)
    ensures (row.character in byId && row.index in byId[row.character]) <==> HasPoint(rows, row.character, row.index)
  {
    assert InIndex(byId, row.character, row.index) <==> HasPoint(rows, row.character, row.index);
  }

  // ---------------------------------------------------------------------------------------------
  // Completeness.
  // ---------------------------------------------------------------------------------------------

  predicate Full(points: map<Uint8, Int32>) {
    forall i: Uint8 | i < POINT_COUNT :: i in points
  }

  /** A full count rules a missing index out: the branch for it is never taken. */
  method CheckVector(points: map<Uint8, Int32>) returns (ok: bool)
    requires forall i | i in points :: i < POINT_COUNT
    ensures ok <==> Full(points)
  {
    Pigeonhole(points.Keys, POINT_COUNT);
    assert |points.Keys| == |points|;
    if |points| != POINT_COUNT {
      if Full(points) {
        AllIndexes(points.Keys, POINT_COUNT);
      }
      return false;
    }
    for i := 0 to POINT_COUNT {
      var index: Uint8 := i;
      if !(index in points) {
        assert false;
      }
    }
    return true;
  }

  lemma {:induction false} AllIndexes(indexes: set<Uint8>, n: nat)
    requires n <= 0x100 && forall i: Uint8 | i < n :: i in indexes
    ensures |indexes| >= n
  {
    if n > 0 {
      var last: Uint8 := n - 1;
      AllIndexes(indexes - {last}, n - 1);
    }
  }

  lemma FullIsComplete(byId: PointIndex, rows: seq<PointRow>)
    requires Indexes(byId, rows)
    ensures Complete(rows) <==> forall c | c in byId :: Full(byId[c])
  {
    if Complete(rows) {
      forall c | c in byId ensures Full(byId[c]) {
        var j :| 0 <= j < |rows| && rows[j].character == c;
        forall i: Uint8 | i < POINT_COUNT ensures i in byId[c] {
          assert HasPoint(rows, rows[j].character, i) && InIndex(byId, c, i);
        }
      }
    }
    if forall c | c in byId :: Full(byId[c]) {
      forall j, i: Uint8 | 0 <= j < |rows| && 0 <= i < POINT_COUNT ensures HasPoint(rows, rows[j].character, i) {
        assert InIndex(byId, rows[j].character, rows[j].index);
        assert InIndex(byId, rows[j].character, i);
      }
    }
  }

  lemma IndexInRange(byId: PointIndex, rows: seq<PointRow>, c: Uint32)
    requires Indexes(byId, rows) && ValidPoints(rows) && c in byId
    ensures forall i | i in byId[c] :: i < POINT_COUNT
  {
    forall i | i in byId[c] ensures i < POINT_COUNT {
      assert InIndex(byId, c, i) && HasPoint(rows, c, i);
      var j :| 0 <= j < |rows| && rows[j].character == c && rows[j].index == i;
    }
  }

  method CheckComplete(ghost rows: seq<PointRow>, byId: PointIndex) returns (ok: bool)
    requires Indexes(byId, rows) && ValidPoints(rows)
    ensures ok <==> Complete(rows)
  {
    hide Indexes, ValidPoints, Full;
    FullIsComplete(byId, rows);
    var characters := AnyOrder(byId.Keys);
    for k := 0 to |characters|
      invariant forall l | 0 <= l < k :: Full(byId[characters[l]])
    {
      assert characters[k] in characters;
      IndexInRange(byId, rows, characters[k]);
      var full := CheckVector(byId[characters[k]]);
      if !full {
        return false;
      }
    }
    forall c | c in byId ensures Full(byId[c]) {
      assert c in characters;
    }
    return true;
  }

  // ---------------------------------------------------------------------------------------------
  // The canonical rows.
  // ---------------------------------------------------------------------------------------------

  /** The 255 rows of one character. */
  function VectorRows(character: Uint32, points: seq<Int32>): (rows: seq<PointRow>)
    requires |points| <= 0x100
    ensures |rows| == |points| && forall i | 0 <= i < |points| :: rows[i] == PointRow(character, i, points[i])
  {
    if points == [] then []
    else
      var last := |points| - 1;
      VectorRows(character, points[..last]) + [PointRow(character, last, points[last])]
  }

  method EmitVector(character: Uint32, points: map<Uint8, Int32>) returns (rows: seq<PointRow>)
    requires Full(points)
    ensures |rows| == POINT_COUNT && forall i: Uint8 | i < POINT_COUNT :: rows[i] == PointRow(character, i, points[i])
  {
    rows := [];
    for i := 0 to POINT_COUNT
      invariant |rows| == i && forall l: Uint8 | l < i :: rows[l] == PointRow(character, l, points[l])
    {
      rows := rows + [PointRow(character, i, points[i])];
    }
  }

  /** The rows of the characters so far, sorted. */
  ghost predicate EmittedUpTo(rows: seq<PointRow>, out: seq<PointRow>, characters: seq<Uint32>) {
    Sorted(out, PointKey) && forall r :: r in out <==> r in rows && r.character in characters
  }

  lemma VectorOf(byId: PointIndex, rows: seq<PointRow>, c: Uint32, vector: seq<PointRow>)
    requires Indexes(byId, rows) && ValidPoints(rows) && c in byId && |vector| == POINT_COUNT && Full(byId[c])
    requires forall i: Uint8 | i < POINT_COUNT :: vector[i] == PointRow(c, i, byId[c][i])
    ensures Sorted(vector, PointKey) && forall r :: r in vector <==> r in rows && r.character == c
  {
    forall r ensures r in vector <==> r in rows && r.character == c {
      if r in vector {
        var i :| 0 <= i < |vector| && vector[i] == r;
        assert InIndex(byId, c, i) && HasPoint(rows, c, i);
        var j :| 0 <= j < |rows| && rows[j].character == c && rows[j].index == i;
        assert rows[j] == r;
      }
      if r in rows && r.character == c {
        var j :| 0 <= j < |rows| && rows[j] == r;
        assert vector[rows[j].index] == r;
      }
    }
  }

  lemma EmitOneMore(rows: seq<PointRow>, out: seq<PointRow>, characters: seq<Uint32>, c: Uint32, vector: seq<PointRow>)
    requires EmittedUpTo(rows, out, characters) && forall v | v in characters :: v < c
    requires Sorted(vector, PointKey) && forall r :: r in vector <==> r in rows && r.character == c
    ensures EmittedUpTo(rows, out + vector, characters + [c])
  {
    SortedConcat(out, vector, PointKey);
  }

  lemma NoVector(rows: seq<PointRow>, out: seq<PointRow>, byId: PointIndex, characters: seq<Uint32>, c: Uint32)
    requires EmittedUpTo(rows, out, characters) && Indexes(byId, rows) && c !in byId
    ensures EmittedUpTo(rows, out, characters + [c])
  {
    forall r | r in rows ensures r.character != c {
      var j :| 0 <= j < |rows| && rows[j] == r;
      assert InIndex(byId, rows[j].character, rows[j].index);
    }
  }

  method EmitAll(ghost rows: seq<PointRow>, byId: PointIndex, characters: seq<Uint32>) returns (out: seq<PointRow>)
    requires Indexes(byId, rows) && ValidPoints(rows) && Complete(rows)
    requires Sorted(characters, IdKey) && forall r | r in rows :: r.character in characters
    ensures Sorted(out, PointKey) && multiset(out) == multiset(rows)
  {
    hide Indexes, ValidPoints, Full, EmittedUpTo;
    FullIsComplete(byId, rows);
    out := [];
    NothingEmitted(rows);
    for k := 0 to |characters|
      invariant EmittedUpTo(rows, out, characters[..k])
    {
      var c := characters[k];
      assert characters[..k + 1] == characters[..k] + [c];
      if c in byId {
        var vector := EmitVector(c, byId[c]);
        VectorOf(byId, rows, c, vector);
        BelowNext(characters, k);
        EmitOneMore(rows, out, characters[..k], c, vector);
        out := out + vector;
      } else {
        NoVector(rows, out, byId, characters[..k], c);
      }
    }
    assert characters[..|characters|] == characters;
    AllEmitted(rows, out, characters);
  }

  lemma NothingEmitted(rows: seq<PointRow>)
    ensures EmittedUpTo(rows, [], [])
  {
  }

  lemma BelowNext(characters: seq<Uint32>, k: nat)
    requires Sorted(characters, IdKey) && k < |characters|
    ensures forall v | v in characters[..k] :: v < characters[k]
  {
    forall i | 0 <= i < k ensures characters[i] < characters[k] {
      assert Less(IdKey(characters[i]), IdKey(characters[k]));
    }
  }

  lemma AllEmitted(rows: seq<PointRow>, out: seq<PointRow>, characters: seq<Uint32>)
    requires EmittedUpTo(rows, out, characters) && ValidPoints(rows) && forall r | r in rows :: r.character in characters
    ensures Sorted(out, PointKey) && multiset(out) == multiset(rows)
  {
    SortedHasDistinctKeys(out, PointKey);
    SameRows(out, rows, PointKey);
  }

  datatype QuarantineError = InvalidCharacterPointStateExport

  method Canonicalize(e: PointExport) returns (r: Result<CanonicalPoints, QuarantineError>)
    ensures r.Ok? <==> Accepts(e)
    ensures r.Ok? ==> CanonicalOf(e, r.value)
  {
    hide ValidIds, ValidPoints, Complete, Sorted;
    if e.migrationVersion != MIGRATION_VERSION || e.migrationName != MIGRATION_NAME || e.points.None? {
      return Err(InvalidCharacterPointStateExport);
    }
    var rows := e.points.value;
    var ok, declared := CollectIds(e.characterIds);
    if !ok {
      return Err(InvalidCharacterPointStateExport);
    }
    var byId;
    ok, byId := IndexPoints(rows);
    if !ok {
      return Err(InvalidCharacterPointStateExport);
    }
    ok := CheckComplete(rows, byId);
    if !ok {
      return Err(InvalidCharacterPointStateExport);
    }
    var characters := SortedIds(declared + byId.Keys);
    forall j | 0 <= j < |rows| ensures rows[j].character in characters {
      assert InIndex(byId, rows[j].character, rows[j].index);
    }
    var points := EmitAll(rows, byId, characters);
    return Ok(CanonicalPoints(characters, points));
  }

  // ---------------------------------------------------------------------------------------------
  // What quarantine guarantees.
  // ---------------------------------------------------------------------------------------------

  lemma HasPointPermutes(a: seq<PointRow>, b: seq<PointRow>, c: Uint32, i: int)
    requires multiset(a) == multiset(b) && HasPoint(a, c, i)
    ensures HasPoint(b, c, i)
  {
    InMultiset(a, b);
    var j :| 0 <= j < |a| && a[j].character == c && a[j].index == i;
    assert a[j] in b;
  }

  lemma PointsPermute(a: seq<PointRow>, b: seq<PointRow>)
    requires multiset(a) == multiset(b) && ValidPoints(a) && Complete(a)
    ensures ValidPoints(b) && Complete(b)
  {
    InMultiset(a, b);
    DistinctKeysPermute(a, b, PointKey);
    forall j | 0 <= j < |b| ensures b[j].character != 0 && b[j].index < POINT_COUNT {
      assert b[j] in a;
    }
    forall j, i | 0 <= j < |b| && 0 <= i < POINT_COUNT ensures HasPoint(b, b[j].character, i) {
      assert b[j] in a;
      var l :| 0 <= l < |a| && a[l] == b[j];
      assert HasPoint(a, a[l].character, i);
      HasPointPermutes(a, b, b[j].character, i);
    }
  }

  /** Success and result do not depend on the order of the rows; the canonical form is its own. */
  lemma QuarantineIgnoresOrder(e: PointExport, f: PointExport, c: CanonicalPoints, d: CanonicalPoints)
    requires Accepts(e) && f == e.(points := f.points) && f.points.Some?
    requires multiset(e.points.value) == multiset(f.points.value)
    ensures Accepts(f)
    ensures CanonicalOf(e, c) && CanonicalOf(f, d) ==> c == d
    ensures CanonicalOf(e, c) ==> CanonicalOf(e.(points := Some(c.points)), c)
  {
    PointsPermute(e.points.value, f.points.value);
    InMultiset(e.points.value, f.points.value);
    if CanonicalOf(e, c) {
      InMultiset(e.points.value, c.points);
      SameCharacters(e.points.value, c.points);
      forall j | 0 <= j < |c.points| ensures c.points[j].character in c.characterIds {
        assert c.points[j] in e.points.value;
      }
    }
    if CanonicalOf(e, c) && CanonicalOf(f, d) {
      SortIsUnique(c.points, d.points, PointKey);
      SameCharacters(e.points.value, f.points.value);
      SortedHasDistinctKeys(c.characterIds, IdKey);
      SortedHasDistinctKeys(d.characterIds, IdKey);
      SameRows(c.characterIds, d.characterIds, IdKey);
      SortIsUnique(c.characterIds, d.characterIds, IdKey);
    }
  }

  lemma SameCharacters(a: seq<PointRow>, b: seq<PointRow>)
    requires forall r :: r in a <==> r in b
    ensures forall c :: HasCharacter(a, c) <==> HasCharacter(b, c)
  {
    forall c ensures HasCharacter(a, c) <==> HasCharacter(b, c) {
      if HasCharacter(a, c) {
        var j :| 0 <= j < |a| && a[j].character == c;
        assert a[j] in b;
      }
      if HasCharacter(b, c) {
        var j :| 0 <= j < |b| && b[j].character == c;
        assert b[j] in a;
      }
    }
  }
}
