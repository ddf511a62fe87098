/** The point table: replacing the 255 rows of a character, and filling the vectors of the roster in place. */
module PointStore {
  import opened Results
  import opened Ordered
  import opened Integers
  import opened Ids
  import opened SqlTables
  import opened Points
  import A = Accounts
  import opened TextOrder

  datatype PointCharacter = PointCharacter(id: Uint32, points: seq<Int32>)

  /** One row of the query that joins accounts and characters. */
  datatype RosterEntry = RosterEntry(login: string, empire: int, id: int, slot: int, name: string)

  /** The roster is what the query returns, in its order. */
  datatype PointDb = PointDb(ledger: seq<Applied>, roster: seq<RosterEntry>, points: Table<PointRow>)

  const POINT_SCHEMA := Applied(MIGRATION_VERSION, MIGRATION_NAME)

  predicate HasEntry(roster: seq<RosterEntry>, id: int) {
    exists j :: 0 <= j < |roster| && roster[j].id == id
  }

  /** Two rows of one account, whatever the case of its letters, agree on the account and differ in their slots. */
  predicate Compatible(a: RosterEntry, b: RosterEntry) {
    a.id != b.id && (ToLower(a.login) == ToLower(b.login) ==> a.login == b.login && a.empire == b.empire && a.slot != b.slot)
  }

  /** The CHECK constraints, keys and unique indexes of the roster tables. */
  predicate LegalRoster(roster: seq<RosterEntry>) {
    && (forall j | 0 <= j < |roster| :: 0 <= roster[j].slot < A.PLAYER_SLOTS && roster[j].empire >= 0)
    && forall j, k | 0 <= j < k < |roster| :: Compatible(roster[j], roster[k])
  }

  /** The CHECK constraints and the foreign key of the table. */
  predicate LegalPoint(roster: seq<RosterEntry>, row: PointRow) {
    row.character != 0 && row.index < POINT_COUNT && HasEntry(roster, row.character)
  }

  ghost predicate Integrity(db: PointDb) {
    && LegalRoster(db.roster)
    && forall k | k in db.points :: PointKey(db.points[k]) == k && LegalPoint(db.roster, db.points[k])
  }

  /** The stored value, zero where there is no row. */
  function PointAt(points: Table<PointRow>, character: int, index: int): Int32 {
    if Key(character, index, 0, 0) in points then points[Key(character, index, 0, 0)].value else 0
  }

  /** Every character has all 255 rows or none. */
  ghost predicate CompleteTable(points: Table<PointRow>) {
    forall k: Key, i | k in points && 0 <= i < POINT_COUNT :: Key(k.a, i, 0, 0) in points
  }

  /** These are the points of the character: its 255 rows and no others. */
  ghost predicate HasVector(points: Table<PointRow>, c: PointCharacter) {
    && A.IsVector(c.points)
    && (forall i: Uint8 | i < POINT_COUNT :: Key(c.id, i, 0, 0) in points && points[Key(c.id, i, 0, 0)] == PointRow(c.id, i, c.points[i]))
    && forall k: Key | k in points && k.a == c.id :: 0 <= k.b < POINT_COUNT && k == Key(c.id, k.b, 0, 0)
  }

  /** The rows of everyone else are what they were. */
  ghost predicate OthersKept(before: Table<PointRow>, after: Table<PointRow>, ids: set<Uint32>) {
    forall k: Key | k.a !in ids :: (k in after <==> k in before) && (k in before ==> after[k] == before[k])
  }

  // ---------------------------------------------------------------------------------------------
  // Saving.
  // ---------------------------------------------------------------------------------------------

  /** The characters of an account, empty slots left out. */
  function OccupiedIn(characters: seq<A.Character>): seq<PointCharacter> {
    if characters == [] then []
    else
      var last := characters[|characters| - 1];
      OccupiedIn(characters[..|characters| - 1]) + if A.IsEmptySlot(last) then [] else [PointCharacter(last.id, last.points)]
  }

  function Occupied(accounts: seq<A.Account>): seq<PointCharacter> {
    if accounts == [] then []
    else Occupied(accounts[..|accounts| - 1]) + OccupiedIn(accounts[|accounts| - 1].characters)
  }

  function SavedIds(characters: seq<PointCharacter>): set<Uint32> {
    set i | 0 <= i < |characters| :: characters[i].id
  }

  function IdOf(c: PointCharacter): Key {
    Key(c.id, 0, 0, 0)
  }

  /** What the export of the accounts guarantees about the characters: distinct ids, none of them zero, and full arrays. */
  predicate Savable(characters: seq<PointCharacter>) {
    DistinctKeys(characters, IdOf) && forall i | 0 <= i < |characters| :: characters[i].id != 0 && A.IsVector(characters[i].points)
  }

  ghost predicate Saved(before: Table<PointRow>, after: Table<PointRow>, characters: seq<PointCharacter>) {
    && (forall i | 0 <= i < |characters| :: HasVector(after, characters[i]))
    && OthersKept(before, after, SavedIds(characters))
  }

  lemma {:induction false} SlotIsOccupied(characters: seq<A.Character>, slot: nat)
    requires slot < |characters| && !A.IsEmptySlot(characters[slot])
    ensures PointCharacter(characters[slot].id, characters[slot].points) in OccupiedIn(characters)
  {
    hide A.IsEmptySlot;
    var n := |characters| - 1;
    if slot < n {
      SlotIsOccupied(characters[..n], slot);
    }
  }

  lemma {:induction false} OccupiedIsSlot(characters: seq<A.Character>, c: PointCharacter) returns (slot: nat)
    requires c in OccupiedIn(characters)
    ensures slot < |characters| && !A.IsEmptySlot(characters[slot]) && characters[slot].id == c.id && characters[slot].points == c.points
  {
    hide A.IsEmptySlot;
    var n := |characters| - 1;
    if c in OccupiedIn(characters[..n]) {
      slot := OccupiedIsSlot(characters[..n], c);
    } else {
      slot := n;
    }
  }

  /** The occupied slots of all accounts, and nothing else. */
  lemma {:induction false} SlotsAreOccupied(accounts: seq<A.Account>, i: nat, slot: nat)
    requires i < |accounts| && slot < |accounts[i].characters| && !A.IsEmptySlot(accounts[i].characters[slot])
    ensures PointCharacter(accounts[i].characters[slot].id, accounts[i].characters[slot].points) in Occupied(accounts)
  {
    hide A.IsEmptySlot, OccupiedIn;
    var n := |accounts| - 1;
    if i < n {
      SlotsAreOccupied(accounts[..n], i, slot);
    } else {
      SlotIsOccupied(accounts[n].characters, slot);
    }
  }

  lemma {:induction false} OccupiedAreSlots(accounts: seq<A.Account>, c: PointCharacter) returns (i: nat, slot: nat)
    requires c in Occupied(accounts)
    ensures i < |accounts| && slot < |accounts[i].characters| && !A.IsEmptySlot(accounts[i].characters[slot])
    ensures accounts[i].characters[slot].id == c.id && accounts[i].characters[slot].points == c.points
  {
    hide A.IsEmptySlot, OccupiedIn;
    var n := |accounts| - 1;
    if c in OccupiedIn(accounts[n].characters) {
      i := n;
      slot := OccupiedIsSlot(accounts[n].characters, c);
    } else {
      i, slot := OccupiedAreSlots(accounts[..n], c);
    }
  }

  /** The id of an occupied slot. */
  predicate IsSlotId(accounts: seq<A.Account>, id: int) {
    exists i, slot :: 0 <= i < |accounts| && 0 <= slot < |accounts[i].characters| && !A.IsEmptySlot(accounts[i].characters[slot])
      && accounts[i].characters[slot].id == id
  }

  /** Every occupied slot has its 255 rows and no others; the rows of other characters are what they were. */
  ghost predicate SlotsSaved(before: Table<PointRow>, after: Table<PointRow>, accounts: seq<A.Account>) {
    && (forall i, slot, k: Uint8 | 0 <= i < |accounts| && 0 <= slot < |accounts[i].characters| && !A.IsEmptySlot(accounts[i].characters[slot]) && k < 255 ::
      var c := accounts[i].characters[slot];
      Key(c.id, k, 0, 0) in after && after[Key(c.id, k, 0, 0)] == PointRow(c.id, k, c.points[k]))
    && (forall k: Key | k in after && IsSlotId(accounts, k.a) :: 0 <= k.b < 255 && k.c == 0 && k.d == 0)
    && forall k: Key | !IsSlotId(accounts, k.a) :: (k in after <==> k in before) && (k in before ==> after[k] == before[k])
  }

  lemma SavedSlots(before: Table<PointRow>, after: Table<PointRow>, accounts: seq<A.Account>)
    requires Saved(before, after, Occupied(accounts))
    ensures SlotsSaved(before, after, accounts)
  {
    hide A.IsEmptySlot, Occupied;
    forall i, slot, k: Uint8 | 0 <= i < |accounts| && 0 <= slot < |accounts[i].characters| && !A.IsEmptySlot(accounts[i].characters[slot]) && k < 255
      ensures var c := accounts[i].characters[slot];
        Key(c.id, k, 0, 0) in after && after[Key(c.id, k, 0, 0)] == PointRow(c.id, k, c.points[k])
    {
      var c := accounts[i].characters[slot];
      SlotsAreOccupied(accounts, i, slot);
      assert HasVector(after, PointCharacter(c.id, c.points));
    }
    forall id ensures IsSlotId(accounts, id) <==> id in SavedIds(Occupied(accounts)) {
      if IsSlotId(accounts, id) {
        var i, slot :| 0 <= i < |accounts| && 0 <= slot < |accounts[i].characters| && !A.IsEmptySlot(accounts[i].characters[slot])
          && accounts[i].characters[slot].id == id;
        SlotsAreOccupied(accounts, i, slot);
      }
      if id in SavedIds(Occupied(accounts)) {
        var n :| 0 <= n < |Occupied(accounts)| && Occupied(accounts)[n].id == id;
        var i, slot := OccupiedAreSlots(accounts, Occupied(accounts)[n]);
      }
    }
  }

  lemma VectorFits(points: Table<PointRow>, c: PointCharacter)
    requires A.IsVector(c.points) && forall k | k in points :: PointKey(points[k]) == k
    ensures Insertable(Kept(points, Some(c.id)), VectorRows(c.id, c.points), PointKey)
  {
    var rows := VectorRows(c.id, c.points);
    assert forall i | 0 <= i < |rows| :: PointKey(rows[i]) == Key(c.id, i, 0, 0);
  }

  lemma VectorStored(points: Table<PointRow>, c: PointCharacter)
    requires A.IsVector(c.points) && forall k | k in points :: PointKey(points[k]) == k
    ensures var after := Added(Kept(points, Some(c.id)), VectorRows(c.id, c.points), PointKey);
      && HasVector(after, c) && OthersKept(points, after, {c.id})
      && forall k | k in after :: PointKey(after[k]) == k
  {
    hide Added, Insertable;
    var kept, rows := Kept(points, Some(c.id)), VectorRows(c.id, c.points);
    VectorFits(points, c);
    AddedContents(kept, rows, PointKey);
    var after := Added(kept, rows, PointKey);
    assert forall i | 0 <= i < |rows| :: PointKey(rows[i]) == Key(c.id, i, 0, 0);
    assert forall row | row in rows :: PointKey(row).a == c.id;
    forall i: Uint8 | i < POINT_COUNT
      ensures Key(c.id, i, 0, 0) in after && after[Key(c.id, i, 0, 0)] == PointRow(c.id, i, c.points[i])
    {
      assert PointKey(rows[i]) == Key(c.id, i, 0, 0);
    }
    forall k: Key | k in after && k.a == c.id ensures 0 <= k.b < POINT_COUNT && k == Key(c.id, k.b, 0, 0) {
      assert k !in kept;
      var i :| 0 <= i < |rows| && rows[i] == after[k];
    }
    forall k: Key | k.a != c.id ensures (k in after <==> k in points) && (k in points ==> after[k] == points[k]) {
      assert k in points <==> k in kept;
    }
  }

  lemma SaveOneMore(before: Table<PointRow>, mid: Table<PointRow>, after: Table<PointRow>, characters: seq<PointCharacter>, c: PointCharacter)
    requires Saved(before, mid, characters) && HasVector(after, c) && OthersKept(mid, after, {c.id})
    requires Savable(characters + [c])
    ensures Saved(before, after, characters + [c])
  {
    var more := characters + [c];
    assert more[|characters|] == c && forall i | 0 <= i < |characters| :: more[i] == characters[i];
    assert SavedIds(more) == SavedIds(characters) + {c.id};
    forall i | 0 <= i < |characters| ensures HasVector(after, characters[i]) {
      assert IdOf(more[i]) != IdOf(more[|characters|]);
      VectorKept(mid, after, characters[i], c.id);
    }
  }

  lemma VectorKept(mid: Table<PointRow>, after: Table<PointRow>, c: PointCharacter, other: Uint32)
    requires HasVector(mid, c) && OthersKept(mid, after, {other}) && c.id != other
    ensures HasVector(after, c)
  {
  }

  /** DELETE, then 255 INSERTs. */
  method ReplaceVector(roster: seq<RosterEntry>, points: Table<PointRow>, c: PointCharacter, faults: Faults) returns (r: Result<Table<PointRow>, SqlError>)
    requires A.IsVector(c.points) && c.id != 0 && forall k | k in points :: PointKey(points[k]) == k
    ensures r.Ok? ==> HasEntry(roster, c.id) && HasVector(r.value, c) && OthersKept(points, r.value, {c.id})
    ensures r.Ok? ==> forall k | k in r.value :: PointKey(r.value[k]) == k
    ensures Healthy(faults) && HasEntry(roster, c.id) ==> r.Ok?
    ensures Healthy(faults) && r.Err? ==> r.error == Constraint
  {
    hide Added, Insertable, HasVector, OthersKept, Kept;
    VectorFits(points, c);
    VectorStored(points, c);
    if faults(Delete(CharacterPoints, Some(c.id))) {
      return Err(Driver);
    }
    var rows := VectorRows(c.id, c.points);
    r := InsertRows(Kept(points, Some(c.id)), rows, PointKey, (row: PointRow) => LegalPoint(roster, row), CharacterPoints, faults);
    if r.Ok? {
      assert LegalPoint(roster, rows[0]);
    }
  }

  /** The statements of a save for one account, slot by slot; `done` are the characters saved before. */
  method ReplaceAccount(db: PointDb, points: Table<PointRow>, account: A.Account, faults: Faults,
                        ghost done: seq<PointCharacter>, ghost all: seq<PointCharacter>)
    returns (r: Result<Table<PointRow>, SqlError>)
    requires Savable(all) && done + OccupiedIn(account.characters) <= all
    requires Saved(db.points, points, done) && forall k | k in points :: PointKey(points[k]) == k
    ensures r.Ok? ==> Saved(db.points, r.value, done + OccupiedIn(account.characters)) && InRoster(db, OccupiedIn(account.characters))
    ensures r.Ok? ==> forall k | k in r.value :: PointKey(r.value[k]) == k
    ensures Healthy(faults) && InRoster(db, OccupiedIn(account.characters)) ==> r.Ok?
    ensures Healthy(faults) && r.Err? ==> r.error == Constraint
  {
    hide Saved, Savable, HasVector, OthersKept, OccupiedIn, A.IsEmptySlot, InRoster;
    var tx := points;
    var own := account.characters;
    NoSlots(done, own);
    NobodyInRoster(db);
    for slot := 0 to |own|
      invariant Saved(db.points, tx, done + OccupiedIn(own[..slot])) && InRoster(db, OccupiedIn(own[..slot]))
      invariant forall k | k in tx :: PointKey(tx[k]) == k
    {
      OccupiedInStep(own, slot);
      if A.IsEmptySlot(own[slot]) {
        assert OccupiedIn(own[..slot]) + [] == OccupiedIn(own[..slot]);
        continue;
      }
      var c := PointCharacter(own[slot].id, own[slot].points);
      ghost var front := done + OccupiedIn(own[..slot]);
      assert done + OccupiedIn(own[..slot + 1]) == front + [c];
      SavableFront(front, c, all);
      OneMoreInRoster(db, OccupiedIn(own[..slot]), c, OccupiedIn(own));
      r := ReplaceVector(db.roster, tx, c, faults);
      if r.Err? {
        return;
      }
      SaveOneMore(db.points, tx, r.value, front, c);
      tx := r.value;
    }
    assert own[..|own|] == own;
    return Ok(tx);
  }

  lemma NobodyInRoster(db: PointDb)
    ensures OccupiedIn([]) == [] && InRoster(db, [])
  {
  }

  lemma OneMoreInRoster(db: PointDb, front: seq<PointCharacter>, c: PointCharacter, all: seq<PointCharacter>)
    requires front + [c] <= all
    ensures InRoster(db, front + [c]) <==> InRoster(db, front) && HasEntry(db.roster, c.id)
    ensures InRoster(db, all) ==> HasEntry(db.roster, c.id)
  {
    assert all[|front|] == c;
  }

  predicate InRoster(db: PointDb, characters: seq<PointCharacter>) {
    forall c | c in characters :: HasEntry(db.roster, c.id)
  }

  /** The statements of a save, account by account. */
  method ReplaceSnapshot(db: PointDb, accounts: seq<A.Account>, faults: Faults) returns (r: Result<Table<PointRow>, SqlError>)
    requires Integrity(db) && Savable(Occupied(accounts))
    ensures r.Ok? ==> Saved(db.points, r.value, Occupied(accounts)) && InRoster(db, Occupied(accounts))
    ensures r.Ok? ==> forall k | k in r.value :: PointKey(r.value[k]) == k
    ensures Healthy(faults) && InRoster(db, Occupied(accounts)) ==> r.Ok?
    ensures Healthy(faults) && r.Err? ==> r.error == Constraint
  {
    hide Saved, Savable, OccupiedIn;
    var points := db.points;
    NothingSaved(points);
    for i := 0 to |accounts|
      invariant Saved(db.points, points, Occupied(accounts[..i])) && InRoster(db, Occupied(accounts[..i]))
      invariant forall k | k in points :: PointKey(points[k]) == k
    {
      assert accounts[..i + 1][..i] == accounts[..i];
      OccupiedPrefix(accounts, i + 1);
      r := ReplaceAccount(db, points, accounts[i], faults, Occupied(accounts[..i]), Occupied(accounts));
      if r.Err? {
        assert forall c | c in OccupiedIn(accounts[i].characters) :: c in Occupied(accounts[..i + 1]);
        return;
      }
      points := r.value;
    }
    assert accounts[..|accounts|] == accounts;
    return Ok(points);
  }

  lemma NothingSaved(points: Table<PointRow>)
    ensures Saved(points, points, [])
  {
  }

  lemma {:induction false} OccupiedInPrefix(characters: seq<A.Character>, k: nat)
    requires k <= |characters|
    ensures OccupiedIn(characters[..k]) <= OccupiedIn(characters)
  {
    hide A.IsEmptySlot;
    if k < |characters| {
      OccupiedInPrefix(characters[..|characters| - 1], k);
      assert characters[..|characters| - 1][..k] == characters[..k];
    } else {
      assert characters[..k] == characters;
    }
  }

  lemma OccupiedInStep(characters: seq<A.Character>, slot: nat)
    requires slot < |characters|
    ensures var c := characters[slot];
      OccupiedIn(characters[..slot + 1]) == OccupiedIn(characters[..slot]) + if A.IsEmptySlot(c) then [] else [PointCharacter(c.id, c.points)]
    ensures OccupiedIn(characters[..slot + 1]) <= OccupiedIn(characters)
  {
    hide A.IsEmptySlot;
    assert characters[..slot + 1][..slot] == characters[..slot];
    OccupiedInPrefix(characters, slot + 1);
  }

  lemma NoSlots(before: seq<PointCharacter>, characters: seq<A.Character>)
    ensures before + OccupiedIn(characters[..0]) == before
  {
  }

  lemma {:induction false} OccupiedPrefix(accounts: seq<A.Account>, i: nat)
    requires i <= |accounts|
    ensures Occupied(accounts[..i]) <= Occupied(accounts)
  {
    hide OccupiedIn;
    if i < |accounts| {
      OccupiedPrefix(accounts[..|accounts| - 1], i);
      assert accounts[..|accounts| - 1][..i] == accounts[..i];
    } else {
      assert accounts[..i] == accounts;
    }
  }

  lemma SavableFront(front: seq<PointCharacter>, c: PointCharacter, all: seq<PointCharacter>)
    requires front + [c] <= all && Savable(all)
    ensures Savable(front + [c]) && c in all && c.id != 0 && A.IsVector(c.points)
  {
    assert forall i | 0 <= i < |front + [c]| :: (front + [c])[i] == all[i];
    assert all[|front|] == c;
  }

  // ---------------------------------------------------------------------------------------------
  // Loading.
  // ---------------------------------------------------------------------------------------------

  /** Every id and every empire fits its Go type. */
  predicate ReadableRoster(roster: seq<RosterEntry>) {
    forall j | 0 <= j < |roster| :: 0 <= roster[j].id < 0x1_0000_0000 && roster[j].empire < 0x100
  }

  predicate IdsOf(roster: seq<RosterEntry>, ids: seq<Uint32>) {
    |ids| == |roster| && forall j | 0 <= j < |roster| :: ids[j] == roster[j].id
  }

  /** The ids, and where each roster row is. */
  method ReadRoster(roster: seq<RosterEntry>) returns (r: Option<(seq<Uint32>, map<Uint32, nat>)>)
    requires LegalRoster(roster)
    ensures r.Some? <==> ReadableRoster(roster)
    ensures r.Some? ==> IdsOf(roster, r.value.0) && DistinctKeys(r.value.0, IdKey)
    ensures r.Some? ==> (forall v :: v in r.value.1 <==> v in r.value.0)
    ensures r.Some? ==> forall v | v in r.value.1 :: r.value.1[v] < |roster| && r.value.0[r.value.1[v]] == v
  {
    hide ToLower;
    var ids: seq<Uint32>, slots: map<Uint32, nat> := [], map[];
    for j := 0 to |roster|
      invariant |ids| == j && forall k | 0 <= k < j :: ids[k] == roster[k].id && roster[k].empire < 0x100
      invariant forall v :: v in slots <==> v in ids
      invariant forall v | v in slots :: slots[v] < j && ids[slots[v]] == v
    {
      var id := roster[j].id;
      if id < 0 || id >= 0x1_0000_0000 || roster[j].slot < 0 || roster[j].slot >= A.PLAYER_SLOTS || roster[j].empire < 0 || roster[j].empire >= 0x100 {
        return None;
      }
      if id in slots {
        assert false;
      }
      ids, slots := ids + [id], slots[id := j];
    }
    forall j, k | 0 <= j < k < |ids| ensures IdKey(ids[j]) != IdKey(ids[k]) {
      assert Compatible(roster[j], roster[k]);
    }
    return Some((ids, slots));
  }

  /** Indexes of the rows so far, by character. */
  type SeenIndexes = map<Uint32, set<Uint8>>

  ghost predicate SeenRows(seen: SeenIndexes, rows: seq<PointRow>) {
    && (forall c: Uint32, i: Uint8 :: (c in seen && i in seen[c]) <==> HasPoint(rows, c, i))
    && (forall c | c in seen :: HasCharacter(rows, c))
  }

  lemma SeeOneMore(seen: SeenIndexes, rows: seq<PointRow>, row: PointRow)
    requires SeenRows(seen, rows)
    ensures SeenRows(seen[row.character := (if row.character in seen then seen[row.character] else {}) + {row.index}], rows + [row])
  {
    hide HasPoint, HasCharacter;
    forall c: Uint32, i: Uint8 ensures HasPoint(rows + [row], c, i) <==> HasPoint(rows, c, i) || (row.character == c && row.index == i) {
      HasPointAppend(rows, row, c, i);
    }
    forall c: Uint32 ensures HasCharacter(rows + [row], c) <==> HasCharacter(rows, c) || row.character == c {
      HasPointAppend(rows, row, c, 0);
    }
  }

  /** The value among the rows so far, zero without a row. */
  ghost predicate ValueAmong(rows: seq<PointRow>, c: Uint32, i: int, value: Int32) {
    if HasPoint(rows, c, i) then exists j :: 0 <= j < |rows| && rows[j] == PointRow(c, i, value) else value == 0
  }

  ghost predicate Filled(vectors: seq<seq<Int32>>, roster: seq<Uint32>, rows: seq<PointRow>) {
    && |vectors| == |roster|
    && (forall n | 0 <= n < |vectors| :: A.IsVector(vectors[n]))
    && forall n, i | 0 <= n < |vectors| && 0 <= i < POINT_COUNT :: ValueAmong(rows, roster[n], i, vectors[n][i])
  }

  function WithPoint(points: seq<Int32>, index: Uint8, value: Int32): seq<Int32>
    requires index < |points|
  {
    points[index := value]
  }

  lemma FillOneMore(vectors: seq<seq<Int32>>, roster: seq<Uint32>, rows: seq<PointRow>, row: PointRow, n: nat)
    requires Filled(vectors, roster, rows) && n < |roster| && roster[n] == row.character && row.index < POINT_COUNT
    requires DistinctKeys(roster, IdKey) && !HasPoint(rows, row.character, row.index)
    ensures Filled(vectors[n := WithPoint(vectors[n], row.index, row.value)], roster, rows + [row])
  {
    var more, vectors' := rows + [row], vectors[n := WithPoint(vectors[n], row.index, row.value)];
    forall m, i | 0 <= m < |vectors'| && 0 <= i < POINT_COUNT ensures ValueAmong(more, roster[m], i, vectors'[m][i]) {
      HasPointAppend(rows, row, roster[m], i);
      assert m != n ==> IdKey(roster[m]) != IdKey(roster[n]);
      assert ValueAmong(rows, roster[m], i, vectors[m][i]);
      if roster[m] == row.character && i == row.index {
        assert more[|rows|] == PointRow(roster[m], i, vectors'[m][i]);
      } else if HasPoint(rows, roster[m], i) {
        var j :| 0 <= j < |rows| && rows[j] == PointRow(roster[m], i, vectors[m][i]);
        assert more[j] == rows[j];
      }
    }
  }

  method EmptyVectors(n: nat) returns (vectors: seq<seq<Int32>>)
    ensures |vectors| == n && forall m | 0 <= m < n :: A.IsVector(vectors[m]) && forall i | 0 <= i < POINT_COUNT :: vectors[m][i] == 0
  {
    var zero: seq<Int32> := [];
    for i := 0 to POINT_COUNT
      invariant |zero| == i && forall l | 0 <= l < i :: zero[l] == 0
    {
      zero := zero + [0];
    }
    vectors := [];
    for m := 0 to n
      invariant |vectors| == m && forall l | 0 <= l < m :: vectors[l] == zero
    {
      vectors := vectors + [zero];
    }
  }

  /** The point-row loop of a load: writes each value in place and counts the indexes. */
  method FillVectors(roster: seq<Uint32>, slots: map<Uint32, nat>, rows: seq<PointRow>) returns (r: Option<(seq<seq<Int32>>, SeenIndexes)>)
    requires DistinctKeys(roster, IdKey) && DistinctKeys(rows, PointKey)
    requires forall j | 0 <= j < |rows| :: rows[j].index < POINT_COUNT && rows[j].character in roster
    requires (forall v :: v in slots <==> v in roster) && forall v | v in slots :: slots[v] < |roster| && roster[slots[v]] == v
    ensures r.Some? && Filled(r.value.0, roster, rows) && SeenRows(r.value.1, rows)
  {
    hide Filled, SeenRows, DistinctKeys;
    var vectors := EmptyVectors(|roster|);
    var seen: SeenIndexes := map[];
    NothingFilled(vectors, roster);
    for j := 0 to |rows|
      invariant Filled(vectors, roster, rows[..j]) && SeenRows(seen, rows[..j])
    {
      var row := rows[j];
      assert rows[..j + 1] == rows[..j] + [row];
      NotYet(rows, j);
      assert row.index < POINT_COUNT && row.character in roster;
      SeenMeans(seen, rows[..j], row);
      FilledShape(vectors, roster, rows[..j]);
      if !(row.character in slots) || row.index >= POINT_COUNT {
        assert false;
      }
      if row.character in seen && row.index in seen[row.character] {
        assert false;
      }
      SeeOneMore(seen, rows[..j], row);
      seen := seen[row.character := (if row.character in seen then seen[row.character] else {}) + {row.index}];
      var n := slots[row.character];
      FillOneMore(vectors, roster, rows[..j], row, n);
      vectors := vectors[n := WithPoint(vectors[n], row.index, row.value)];
    }
    assert rows[..|rows|] == rows;
    return Some((vectors, seen));
  }

  lemma NothingFilled(vectors: seq<seq<Int32>>, roster: seq<Uint32>)
    requires |vectors| == |roster|
    requires forall m | 0 <= m < |vectors| :: A.IsVector(vectors[m]) && forall i | 0 <= i < POINT_COUNT :: vectors[m][i] == 0
    ensures Filled(vectors, roster, []) && SeenRows(map[], [])
  {
  }

  lemma NotYet(rows: seq<PointRow>, j: nat)
    requires DistinctKeys(rows, PointKey) && j < |rows|
    ensures !HasPoint(rows[..j], rows[j].character, rows[j].index)
  {
    forall l | 0 <= l < |rows[..j]| ensures rows[..j][l].character != rows[j].character || rows[..j][l].index != rows[j].index {
      assert PointKey(rows[l]) != PointKey(rows[j]);
    }
  }

  lemma SeenMeans(seen: SeenIndexes, rows: seq<PointRow>, row: PointRow)
    requires SeenRows(seen, rows)
    ensures (row.character in seen && row.index in seen[row.character]) <==> HasPoint(rows, row.character, row.index)
  {
  }

  lemma FilledShape(vectors: seq<seq<Int32>>, roster: seq<Uint32>, rows: seq<PointRow>)
    requires Filled(vectors, roster, rows)
    ensures |vectors| == |roster| && forall n | 0 <= n < |vectors| :: A.IsVector(vectors[n])
  {
  }

  /** The count check of a load is enough: it passes exactly when no character lacks an index. */
  lemma CountIsEnough(seen: SeenIndexes, rows: seq<PointRow>)
    requires SeenRows(seen, rows) && ValidPoints(rows)
    ensures (forall c | c in seen :: |seen[c]| == POINT_COUNT) <==> Complete(rows)
  {
    forall c | c in seen ensures |seen[c]| == POINT_COUNT <==> forall i: Uint8 | i < POINT_COUNT :: HasPoint(rows, c, i) {
      forall i | i in seen[c] ensures i < POINT_COUNT {
        var j :| 0 <= j < |rows| && rows[j].character == c && rows[j].index == i;
      }
      Pigeonhole(seen[c], POINT_COUNT);
      if forall i: Uint8 | i < POINT_COUNT :: HasPoint(rows, c, i) {
        AllIndexes(seen[c], POINT_COUNT);
      }
    }
    if forall c | c in seen :: |seen[c]| == POINT_COUNT {
      forall j, i: Uint8 | 0 <= j < |rows| && i < POINT_COUNT ensures HasPoint(rows, rows[j].character, i) {
        assert HasPoint(rows, rows[j].character, rows[j].index);
      }
    }
    if Complete(rows) {
      forall c | c in seen ensures |seen[c]| == POINT_COUNT {
        var j :| 0 <= j < |rows| && rows[j].character == c;
        assert forall i: Uint8 | i < POINT_COUNT :: HasPoint(rows, rows[j].character, i);
      }
    }
  }

  method CheckCounts(seen: SeenIndexes) returns (ok: bool)
    ensures ok <==> forall c | c in seen :: |seen[c]| == POINT_COUNT
  {
    var characters := AnyOrder(seen.Keys);
    for k := 0 to |characters|
      invariant forall l | 0 <= l < k :: |seen[characters[l]]| == POINT_COUNT
    {
      assert characters[k] in characters;
      if |seen[characters[k]]| != POINT_COUNT {
        return false;
      }
    }
    forall c | c in seen ensures |seen[c]| == POINT_COUNT {
      assert c in characters;
    }
    return true;
  }

  /** The rows read are complete exactly when the table is. */
  lemma ReadComplete(points: Table<PointRow>, rows: seq<PointRow>)
    requires HoldsRows(points, rows, PointKey) && forall k | k in points :: PointKey(points[k]) == k
    ensures Complete(rows) <==> CompleteTable(points)
    ensures forall c: Uint32, i: int :: HasPoint(rows, c, i) <==> Key(c, i, 0, 0) in points
  {
    forall c: Uint32, i: int ensures HasPoint(rows, c, i) <==> Key(c, i, 0, 0) in points {
      if HasPoint(rows, c, i) {
        var j :| 0 <= j < |rows| && rows[j].character == c && rows[j].index == i;
        assert PointKey(rows[j]) == Key(c, i, 0, 0);
      }
      if Key(c, i, 0, 0) in points {
        var row := points[Key(c, i, 0, 0)];
        var j :| 0 <= j < |rows| && rows[j] == row;
        assert rows[j].character == c && rows[j].index == i;
      }
    }
    if Complete(rows) {
      forall k: Key, i | k in points && 0 <= i < POINT_COUNT ensures Key(k.a, i, 0, 0) in points {
        var j :| 0 <= j < |rows| && rows[j] == points[k];
        assert HasPoint(rows, rows[j].character, i);
      }
    }
    if CompleteTable(points) {
      forall j, i | 0 <= j < |rows| && 0 <= i < POINT_COUNT ensures HasPoint(rows, rows[j].character, i) {
        assert PointKey(rows[j]) in points;
        assert Key(rows[j].character, i, 0, 0) in points;
      }
    }
  }

  /** The filled vectors are what the table stores. */
  lemma FilledValues(points: Table<PointRow>, vectors: seq<seq<Int32>>, roster: seq<Uint32>, rows: seq<PointRow>)
    requires HoldsRows(points, rows, PointKey) && (forall k | k in points :: PointKey(points[k]) == k) && Filled(vectors, roster, rows)
    ensures forall n, i | 0 <= n < |vectors| && 0 <= i < POINT_COUNT :: vectors[n][i] == PointAt(points, roster[n], i)
  {
    hide CompleteTable;
    ReadComplete(points, rows);
    forall n, i | 0 <= n < |vectors| && 0 <= i < POINT_COUNT ensures vectors[n][i] == PointAt(points, roster[n], i) {
      assert ValueAmong(rows, roster[n], i, vectors[n][i]);
      if HasPoint(rows, roster[n], i) {
        var j :| 0 <= j < |rows| && rows[j] == PointRow(roster[n], i, vectors[n][i]);
        assert PointKey(rows[j]) == Key(roster[n], i, 0, 0);
      }
    }
  }

  lemma LegalRows(db: PointDb, rows: seq<PointRow>)
    requires Integrity(db) && HoldsRows(db.points, rows, PointKey) && Sorted(rows, PointKey)
    ensures DistinctKeys(rows, PointKey) && (forall j | 0 <= j < |rows| :: LegalPoint(db.roster, rows[j])) && ValidPoints(rows)
  {
    SortedHasDistinctKeys(rows, PointKey);
    forall j | 0 <= j < |rows| ensures LegalPoint(db.roster, rows[j]) {
      assert db.points[PointKey(rows[j])] == rows[j];
    }
  }
}
