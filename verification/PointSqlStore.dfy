/** The SQL store of character points. */
module PointSqlStore {
  import opened Results
  import opened Ordered
  import opened Integers
  import opened Ids
  import opened SqlTables
  import opened Points
  import opened PointStore
  import opened PointAccounts
  import opened PointRoster
  import A = Accounts
  import R = Roster

  /** Points kept under their own keys and within their constraints. */
  lemma SavedIntegrity(db: PointDb, points: Table<PointRow>, characters: seq<PointCharacter>)
    requires Integrity(db) && Savable(characters) && Saved(db.points, points, characters)
    requires (forall k | k in points :: PointKey(points[k]) == k) && InRoster(db, characters)
    ensures Integrity(db.(points := points))
  {
    forall k | k in points ensures LegalPoint(db.roster, points[k]) {
      if k.a in SavedIds(characters) {
        var i :| 0 <= i < |characters| && characters[i].id == k.a;
        assert HasVector(points, characters[i]) && characters[i] in characters;
      } else {
        assert points[k] == db.points[k];
      }
    }
  }

  lemma SavedComplete(before: Table<PointRow>, after: Table<PointRow>, characters: seq<PointCharacter>)
    requires Saved(before, after, characters) && CompleteTable(before)
    ensures CompleteTable(after)
  {
    forall k: Key, i: Uint8 | k in after && i < POINT_COUNT ensures Key(k.a, i, 0, 0) in after {
      if k.a in SavedIds(characters) {
        var j :| 0 <= j < |characters| && characters[j].id == k.a;
        assert HasVector(after, characters[j]);
      } else {
        assert k in before && Key(k.a, i, 0, 0) in before;
      }
    }
  }

  /** The vector as the table stores it. */
  predicate StoredAs(points: Table<PointRow>, c: A.Character) {
    forall i | 0 <= i < POINT_COUNT :: c.points[i] == PointAt(points, c.id, i)
  }

  /** A load after a save: the saved vectors as they were given, everyone else's as they were stored. */
  ghost predicate SavedShowsIn(before: PointDb, saved: seq<PointCharacter>, loaded: seq<A.Account>) {
    forall i, slot | 0 <= i < |loaded| && 0 <= slot < |loaded[i].characters| && !A.IsEmptySlot(loaded[i].characters[slot]) ::
      var c := loaded[i].characters[slot];
      && (forall s | s in saved && s.id == c.id :: c.points == s.points)
      && (c.id !in SavedIds(saved) ==> StoredAs(before.points, c))
  }

  /** The load after the save reads the table that the save left. */
  lemma LoadedIsStored(db: PointDb, accounts: seq<A.Account>, i: nat, slot: nat)
    requires Integrity(db) && ReadableRoster(db.roster) && Loaded(db, accounts)
    requires i < |accounts| && slot < |accounts[i].characters| && !A.IsEmptySlot(accounts[i].characters[slot])
    ensures StoredAs(db.points, accounts[i].characters[slot])
  {
    hide Numbered, A.IsEmptySlot;
    var vectors, owner :| StoredVectors(db, vectors) && Placed(db.roster, vectors, accounts, owner);
    assert HasSlot(db.roster, owner, i, slot);
    var j :| 0 <= j < |db.roster| && owner[j] == i && db.roster[j].slot == slot;
    assert Holds(accounts[owner[j]], db.roster[j], vectors[j]);
  }

  lemma SavedThenStored(before: PointDb, after: Table<PointRow>, saved: seq<PointCharacter>, c: A.Character)
    requires Saved(before.points, after, saved) && StoredAs(after, c)
    ensures forall s | s in saved && s.id == c.id :: c.points == s.points
    ensures c.id !in SavedIds(saved) ==> StoredAs(before.points, c)
  {
    forall s | s in saved && s.id == c.id ensures c.points == s.points {
      assert HasVector(after, s);
      forall i: Uint8 | i < POINT_COUNT ensures c.points[i] == s.points[i] {
        assert Key(s.id, i, 0, 0) in after;
      }
    }
  }

  lemma SavedThenLoaded(before: PointDb, after: Table<PointRow>, saved: seq<PointCharacter>, loaded: seq<A.Account>)
    requires Integrity(before.(points := after)) && ReadableRoster(before.roster)
    requires Saved(before.points, after, saved) && Loaded(before.(points := after), loaded)
    ensures SavedShowsIn(before, saved, loaded)
  {
    hide Integrity, Saved, Loaded, A.IsEmptySlot, StoredAs;
    forall i, slot | 0 <= i < |loaded| && 0 <= slot < |loaded[i].characters| && !A.IsEmptySlot(loaded[i].characters[slot])
      ensures var c := loaded[i].characters[slot];
        (forall s | s in saved && s.id == c.id :: c.points == s.points) && (c.id !in SavedIds(saved) ==> StoredAs(before.points, c))
    {
      LoadedIsStored(before.(points := after), loaded, i, slot);
      SavedThenStored(before, after, saved, loaded[i].characters[slot]);
    }
  }

  method DeletePoints(points: Table<PointRow>, ids: seq<Uint32>, faults: Faults) returns (r: Result<Table<PointRow>, SqlError>)
    ensures r.Ok? ==> r.value == Outside(points, ids)
    ensures Healthy(faults) ==> r.Ok?
  {
    hide Outside, Kept;
    var tx := points;
    NothingOutsideTable(points);
    for i := 0 to |ids|
      invariant tx == Outside(points, ids[..i])
    {
      if faults(Delete(CharacterPoints, Some(ids[i]))) {
        return Err(Driver);
      }
      OutsideStep(points, ids[..i], ids[i]);
      assert ids[..i + 1] == ids[..i] + [ids[i]];
      tx := Kept(tx, Some(ids[i]));
    }
    assert ids[..|ids|] == ids;
    return Ok(tx);
  }

  /** Every row's character is in the roster. */
  predicate ParentsKnown(roster: seq<RosterEntry>, rows: seq<PointRow>) {
    forall j | 0 <= j < |rows| :: HasEntry(roster, rows[j].character)
  }

  lemma ParentsPermute(roster: seq<RosterEntry>, a: seq<PointRow>, b: seq<PointRow>)
    requires multiset(a) == multiset(b)
    ensures ParentsKnown(roster, a) <==> ParentsKnown(roster, b)
    ensures forall points: Table<PointRow> :: NoneTaken(points, a) <==> NoneTaken(points, b)
  {
    InMultiset(a, b);
    forall j | 0 <= j < |a| ensures a[j] in b {
      assert a[j] in a;
    }
    forall j | 0 <= j < |b| ensures b[j] in a {
      assert b[j] in b;
    }
  }

  /** No row's primary key is in the table. */
  predicate NoneTaken(points: Table<PointRow>, rows: seq<PointRow>) {
    forall j | 0 <= j < |rows| :: PointKey(rows[j]) !in points
  }

  lemma CanonicalFits(e: PointExport, c: CanonicalPoints, db: PointDb)
    requires Accepts(e) && CanonicalOf(e, c)
    ensures forall j | 0 <= j < |c.points| :: c.points[j].character in c.characterIds && PointKey(c.points[j]).a in c.characterIds
    ensures Insertable(Outside(db.points, c.characterIds), c.points, PointKey)
    ensures Insertable(db.points, c.points, PointKey) <==> NoneTaken(db.points, e.points.value)
    ensures (forall j | 0 <= j < |c.points| :: LegalPoint(db.roster, c.points[j])) <==> ParentsKnown(db.roster, e.points.value)
  {
    hide Complete, Outside;
    InMultiset(c.points, e.points.value);
    SortedHasDistinctKeys(c.points, PointKey);
    forall j | 0 <= j < |c.points|
      ensures c.points[j].character in c.characterIds && c.points[j].character != 0 && c.points[j].index < POINT_COUNT
    {
      assert c.points[j] in e.points.value;
    }
    OutsideMisses(db.points, c.characterIds);
    ParentsPermute(db.roster, c.points, e.points.value);
  }

  lemma OutsideMisses(points: Table<PointRow>, ids: seq<Uint32>)
    ensures forall k: Key | k.a in ids :: k !in Outside(points, ids)
  {
  }

  lemma AddedIntegrity(db: PointDb, base: Table<PointRow>, rows: seq<PointRow>)
    requires Integrity(db) && (forall k | k in base :: k in db.points && base[k] == db.points[k])
    requires Insertable(base, rows, PointKey) && forall j | 0 <= j < |rows| :: LegalPoint(db.roster, rows[j])
    ensures Integrity(db.(points := Added(base, rows, PointKey)))
  {
    hide Added, Insertable;
    AddedContents(base, rows, PointKey);
  }

  datatype ImportResult = ImportResult(characterCount: nat, pointRowCount: nat, characterIds: seq<Uint32>, replaced: bool)

  function Both(sound: seq<A.Character> -> bool, unique: seq<A.Character> -> bool): seq<A.Character> -> bool {
    characters => sound(characters) && unique(characters)
  }

  /** Accounts that can be saved. */
  predicate Accepted(accounts: seq<A.Account>, sound: seq<A.Character> -> bool, unique: seq<A.Character> -> bool) {
    R.Exportable(accounts, Both(sound, unique))
  }

  /** Accounts can be saved exactly when their roster can be exported and every account passes the other check. */
  lemma AcceptedPassesBoth(accounts: seq<A.Account>, sound: seq<A.Character> -> bool, unique: seq<A.Character> -> bool)
    ensures Accepted(accounts, sound, unique) <==>
      R.Exportable(accounts, sound) && forall i | 0 <= i < |accounts| :: unique(accounts[i].characters)
  {
    hide R.ValidCharacters, R.Characters, R.DistinctCharacters, A.DistinctLogins, A.ValidChannels;
    forall i | 0 <= i < |accounts|
      ensures R.FitsRoster(accounts[i], Both(sound, unique)) <==> R.FitsRoster(accounts[i], sound) && unique(accounts[i].characters)
    {
    }
  }

  lemma AcceptedAreSavable(accounts: seq<A.Account>, sound: seq<A.Character> -> bool, unique: seq<A.Character> -> bool)
    ensures Accepted(accounts, sound, unique) ==> CheckedAccounts(accounts, sound) && Savable(Occupied(accounts))
  {
    hide Occupied, R.ValidCharacters, R.Characters, Savable;
    if Accepted(accounts, sound, unique) {
      ExportableAreSavable(accounts, Both(sound, unique));
      forall i | 0 <= i < |accounts| ensures R.FitsRoster(accounts[i], sound) {
        assert R.FitsRoster(accounts[i], Both(sound, unique));
      }
    }
  }

  class PointSqlStore {
    var db: PointDb

    constructor (db: PointDb)
      ensures this.db == db
    {
      this.db := db;
    }

    /**
     * Replaces the rows of the characters of the accounts and of nobody else, or changes nothing. Accounts are rejected
     * exactly when the roster export would reject them; `unique` is a check that only the export makes.
     */
    method SaveAccounts(accounts: seq<A.Account>, hash: string -> Uint64, sound: seq<A.Character> -> bool, unique: seq<A.Character> -> bool, faults: Faults)
      returns (r: Result<(), SqlError>)
      requires Integrity(db) && |accounts| <= MAX_INT64
      modifies this
      ensures Integrity(db) && db.ledger == old(db.ledger) && db.roster == old(db.roster)
      ensures r.Err? ==> db == old(db)
      ensures r.Ok? ==> POINT_SCHEMA in db.ledger && Accepted(accounts, sound, unique) && Saved(old(db.points), db.points, Occupied(accounts))
      ensures r.Ok? ==> SlotsSaved(old(db.points), db.points, accounts)
      ensures r.Ok? ==> R.Exportable(accounts, sound) && forall i | 0 <= i < |accounts| :: unique(accounts[i].characters)
      ensures Healthy(faults) ==>
        r == if !Accepted(accounts, sound, unique) then Err(InvalidExport)
             else if POINT_SCHEMA !in old(db.ledger) then Err(SchemaRequired)
             else if !InRoster(old(db), Occupied(accounts)) then Err(Constraint)
             else Ok(())
    {
      hide SlotsSaved, Integrity, Savable, Saved, Occupied, CheckedAccounts, R.Exportable;
      AcceptedAreSavable(accounts, sound, unique);
      AcceptedPassesBoth(accounts, sound, unique);
      var valid := ValidatePointStateAccounts(accounts, sound);
      if !valid {
        return Err(InvalidExport);
      }
      var exported := ExportCharacterPointState(accounts, hash, Both(sound, unique));
      if exported.Err? {
        return Err(InvalidExport);
      }
      if faults(Begin) {
        return Err(Driver);
      }
      var schema := RequireSchema(db.ledger, POINT_SCHEMA, faults);
      if !schema {
        return Err(SchemaRequired);
      }
      var points := ReplaceSnapshot(db, accounts, faults);
      if points.Err? {
        return Err(points.error);
      }
      if faults(Commit) {
        return Err(Driver);
      }
      SavedIntegrity(db, points.value, Occupied(accounts));
      SavedSlots(db.points, points.value, accounts);
      db := db.(points := points.value);
      return Ok(());
    }

    /**
     * The accounts of the roster with their stored points. Counting the rows of each character is enough to find a gap;
     * besides, ids and empires have to fit their types and the accounts have to pass the checks of a save.
     */
    method Load(hash: string -> Uint64, sound: seq<A.Character> -> bool, unique: seq<A.Character> -> bool, faults: Faults)
      returns (r: Result<seq<A.Account>, SqlError>)
      requires Integrity(db) && |db.roster| <= MAX_INT64
      ensures r.Ok? ==> POINT_SCHEMA in db.ledger && ReadableRoster(db.roster) && CompleteTable(db.points)
      ensures r.Ok? ==> Loaded(db, r.value) && ShowsRoster(db, r.value) && Accepted(r.value, sound, unique)
      ensures Healthy(faults) ==>
        (r.Ok? <==> POINT_SCHEMA in db.ledger && ReadableRoster(db.roster) && CompleteTable(db.points)
                    && exists accounts :: Loaded(db, accounts) && Accepted(accounts, sound, unique))
      ensures Healthy(faults) && r.Err? ==> r.error == if POINT_SCHEMA in db.ledger then InvalidStored else SchemaRequired
    {
      hide CompleteTable, Filled, SeenRows, Complete, ValidPoints, LegalPoint, DistinctKeys, Sorted, LegalRoster, ReadableRoster,
        Placed, StoredVectors, ShowsRoster, CheckedAccounts, R.Exportable;
      if faults(Begin) {
        return Err(Driver);
      }
      var schema := RequireSchema(db.ledger, POINT_SCHEMA, faults);
      if !schema {
        return Err(SchemaRequired);
      }
      if faults(Query(AccountRoster)) {
        return Err(Driver);
      }
      var roster := ReadRoster(db.roster);
      if roster.None? {
        return Err(InvalidStored);
      }
      if faults(Query(CharacterPoints)) {
        return Err(Driver);
      }
      var ids := roster.value.0;
      var rows := QueryRows(db.points, PointKey);
      LegalRows(db, rows);
      RowsOfRoster(db, rows, ids);
      var filled := FillVectors(ids, roster.value.1, rows);
      CountIsEnough(filled.value.1, rows);
      ReadComplete(db.points, rows);
      var complete := CheckCounts(filled.value.1);
      if !complete {
        return Err(InvalidStored);
      }
      FilledValues(db.points, filled.value.0, ids, rows);
      FilledShape(filled.value.0, ids, rows);
      FilledAreStored(db, filled.value.0, ids);
      var accounts, owner := PlaceRoster(db.roster, filled.value.0);
      PlacedIsLoaded(db, filled.value.0, accounts.value, owner);
      AcceptedAreSavable(accounts.value, sound, unique);
      var valid := ValidatePointStateAccounts(accounts.value, sound);
      if !valid {
        return Err(InvalidStored);
      }
      var exported := ExportCharacterPointState(accounts.value, hash, Both(sound, unique));
      if exported.Err? {
        return Err(InvalidStored);
      }
      if faults(Commit) {
        return Err(Driver);
      }
      return Ok(accounts.value);
    }

    /**
     * Imports a retained export. With replace, its declared characters end up with exactly its rows; without, it
     * only adds, and refuses a row that is already there.
     */
    method Import(e: PointExport, replace: bool, faults: Faults) returns (r: Result<ImportResult, SqlError>, ghost c: CanonicalPoints)
      requires Integrity(db)
      modifies this
      ensures Integrity(db) && db.ledger == old(db.ledger) && db.roster == old(db.roster)
      ensures r.Err? ==> db == old(db)
      ensures r.Ok? ==> Accepts(e) && CanonicalOf(e, c)
      ensures r.Ok? && replace ==> ReplacedRows(old(db.points), db.points, c.points, c.characterIds, PointKey)
      ensures r.Ok? && !replace ==> ExtendedRows(old(db.points), db.points, c.points, PointKey)
      ensures Healthy(faults) ==>
        (r.Ok? <==> POINT_SCHEMA in old(db.ledger) && Accepts(e) && ParentsKnown(old(db.roster), e.points.value)
                    && (replace || NoneTaken(old(db.points), e.points.value)))
      ensures Healthy(faults) && r.Err? ==>
        r.error == if !Accepts(e) then InvalidExport else if POINT_SCHEMA !in old(db.ledger) then SchemaRequired else Constraint
      ensures r.Ok? ==> r.value == ImportResult(|c.characterIds|, |e.points.value|, c.characterIds, replace)
    {
      hide Integrity, Accepts, CanonicalOf, Insertable, Added, Outside, ReplacedRows, ExtendedRows, ParentsKnown, NoneTaken, LegalPoint;
      var canonical := Canonicalize(e);
      if canonical.Err? {
        c := CanonicalPoints([], []);
        return Err(InvalidExport), c;
      }
      c := canonical.value;
      CanonicalFits(e, c, db);
      CanonicalLength(e, c);
      if faults(Begin) {
        return Err(Driver), c;
      }
      var schema := RequireSchema(db.ledger, POINT_SCHEMA, faults);
      if !schema {
        return Err(SchemaRequired), c;
      }
      var base := db.points;
      if replace {
        var cleared := DeletePoints(db.points, canonical.value.characterIds, faults);
        if cleared.Err? {
          return Err(cleared.error), c;
        }
        base := cleared.value;
      }
      var roster := db.roster;
      var points := InsertRows(base, canonical.value.points, PointKey, (row: PointRow) => LegalPoint(roster, row), CharacterPoints, faults);
      if points.Err? {
        return Err(points.error), c;
      }
      if faults(Commit) {
        return Err(Driver), c;
      }
      OutsideKeeps(db.points, c.characterIds);
      AddedIntegrity(db, base, c.points);
      if replace {
        ReplacedTable(db.points, c.points, c.characterIds, PointKey);
      } else {
        AddedExtends(db.points, c.points);
      }
      db := db.(points := points.value);
      return Ok(ImportResult(|canonical.value.characterIds|, |canonical.value.points|, canonical.value.characterIds, replace)), c;
    }

    /**
     * Whatever was stored, a load after a save shows every saved vector as it was given and nobody else's changed. It
     * succeeds exactly when the accounts of the roster pass the checks.
     */
    method SaveThenLoad(accounts: seq<A.Account>, hash: string -> Uint64, sound: seq<A.Character> -> bool, unique: seq<A.Character> -> bool, faults: Faults)
      returns (r: Result<seq<A.Account>, SqlError>)
      requires Integrity(db) && CompleteTable(db.points) && POINT_SCHEMA in db.ledger && Healthy(faults) && |db.roster| <= MAX_INT64
      requires |accounts| <= MAX_INT64 && Accepted(accounts, sound, unique) && InRoster(db, Occupied(accounts))
      modifies this
      ensures Integrity(db) && CompleteTable(db.points) && db.roster == old(db.roster)
      ensures r.Ok? <==> ReadableRoster(db.roster) && exists loaded :: Loaded(db, loaded) && Accepted(loaded, sound, unique)
      ensures r.Ok? ==> Loaded(db, r.value) && SavedShowsIn(old(db), Occupied(accounts), r.value)
    {
      hide Integrity, Accepted, Saved, Occupied, CompleteTable, Loaded, SavedShowsIn, ReadableRoster;
      ghost var before := db;
      var saved := SaveAccounts(accounts, hash, sound, unique, faults);
      SavedComplete(before.points, db.points, Occupied(accounts));
      assert before.(points := db.points) == db;
      r := Load(hash, sound, unique, faults);
      if r.Ok? {
        SavedThenLoaded(before, db.points, Occupied(accounts), r.value);
      }
    }
  }

  lemma RowsOfRoster(db: PointDb, rows: seq<PointRow>, ids: seq<Uint32>)
    requires IdsOf(db.roster, ids) && forall j | 0 <= j < |rows| :: LegalPoint(db.roster, rows[j])
    ensures forall j | 0 <= j < |rows| :: rows[j].index < POINT_COUNT && rows[j].character in ids
  {
    forall j | 0 <= j < |rows| ensures rows[j].index < POINT_COUNT && rows[j].character in ids {
      assert LegalPoint(db.roster, rows[j]);
      var k :| 0 <= k < |db.roster| && db.roster[k].id == rows[j].character;
      assert ids[k] == rows[j].character;
    }
  }

  lemma FilledAreStored(db: PointDb, vectors: seq<seq<Int32>>, ids: seq<Uint32>)
    requires IdsOf(db.roster, ids) && Vectors(vectors, |ids|)
    requires forall n, i | 0 <= n < |vectors| && 0 <= i < POINT_COUNT :: vectors[n][i] == PointAt(db.points, ids[n], i)
    ensures StoredVectors(db, vectors)
  {
  }

  lemma PlacedIsLoaded(db: PointDb, vectors: seq<seq<Int32>>, accounts: seq<A.Account>, owner: seq<nat>)
    requires Integrity(db) && ReadableRoster(db.roster) && StoredVectors(db, vectors) && Placed(db.roster, vectors, accounts, owner)
    ensures Loaded(db, accounts) && ShowsRoster(db, accounts) && |accounts| <= |db.roster|
    ensures forall other | Loaded(db, other) :: other == accounts
  {
    hide ShowsRoster, Placed, Vectors, LegalRoster, LegalPoint, ReadableRoster;
    forall other | Loaded(db, other) ensures other == accounts {
      LoadedOnce(db, other, accounts);
    }
    FewAccounts(db.roster, vectors, accounts, owner);
    LoadedShowsRoster(db, accounts);
  }

  lemma CanonicalLength(e: PointExport, c: CanonicalPoints)
    requires Accepts(e) && CanonicalOf(e, c)
    ensures |c.points| == |e.points.value|
  {
    InMultiset(c.points, e.points.value);
  }

  lemma OutsideKeeps(points: Table<PointRow>, ids: seq<Uint32>)
    ensures forall k | k in Outside(points, ids) :: k in points && Outside(points, ids)[k] == points[k]
  {
  }

  lemma AddedExtends(points: Table<PointRow>, rows: seq<PointRow>)
    requires Insertable(points, rows, PointKey)
    ensures ExtendedRows(points, Added(points, rows, PointKey), rows, PointKey)
  {
    hide Added;
    AddedContents(points, rows, PointKey);
  }

  // ---------------------------------------------------------------------------------------------
  // The projected hit points.
  // ---------------------------------------------------------------------------------------------

  /** The hit points an import of this export would insert for the character, if any. */
  method ProjectedHp(e: PointExport, character: Uint32) returns (r: Result<Option<Int32>, QuarantineError>)
    ensures r.Ok? <==> character != 0 && Accepts(e)
    ensures r.Ok? && r.value.Some? ==> PointRow(character, HP_INDEX, r.value.value) in e.points.value
    ensures r.Ok? && r.value.None? ==> !HasCharacter(e.points.value, character)
  {
    if character == 0 {
      return Err(InvalidCharacterPointStateExport);
    }
    hide ValidPoints, ValidIds, Sorted;
    var canonical := Canonicalize(e);
    if canonical.Err? {
      return Err(canonical.error);
    }
    var rows := canonical.value.points;
    InMultiset(rows, e.points.value);
    for j := 0 to |rows|
      invariant forall l | 0 <= l < j :: rows[l].character != character || rows[l].index != HP_INDEX
    {
      if rows[j].character == character && rows[j].index == HP_INDEX {
        assert rows[j] in rows;
        return Ok(Some(rows[j].value));
      }
    }
    if HasCharacter(e.points.value, character) {
      var j :| 0 <= j < |e.points.value| && e.points.value[j].character == character;
      assert HasPoint(e.points.value, e.points.value[j].character, HP_INDEX);
      HasPointPermutes(e.points.value, rows, character, HP_INDEX);
      assert false;
    }
    return Ok(None);
  }

  /** After a scoped replace, the table shows exactly the projected hit points of a character of the export. */
  lemma ProjectionIsInserted(e: PointExport, c: CanonicalPoints, before: Table<PointRow>, after: Table<PointRow>, character: Uint32, hp: Option<Int32>)
    requires Accepts(e) && CanonicalOf(e, c) && ReplacedRows(before, after, c.points, c.characterIds, PointKey)
    requires (forall k | k in after :: PointKey(after[k]) == k) && character in c.characterIds
    requires if hp.Some? then PointRow(character, HP_INDEX, hp.value) in e.points.value else !HasCharacter(e.points.value, character)
    ensures hp.Some? ==> Key(character, HP_INDEX, 0, 0) in after && after[Key(character, HP_INDEX, 0, 0)].value == hp.value
    ensures hp.None? ==> forall k: Key | k in after :: k.a != character
  {
    InMultiset(c.points, e.points.value);
    if hp.Some? {
      var row := PointRow(character, HP_INDEX, hp.value);
      assert row in c.points;
      var j :| 0 <= j < |c.points| && c.points[j] == row;
      assert PointKey(c.points[j]) in after;
    } else {
      forall k: Key | k in after ensures k.a != character {
        if k.a in c.characterIds {
          assert after[k] in e.points.value;
          var j :| 0 <= j < |e.points.value| && e.points.value[j] == after[k];
        }
      }
    }
  }
}
