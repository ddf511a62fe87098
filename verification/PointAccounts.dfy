/** Checking and exporting accounts with their points. */
module PointAccounts {
  import opened Results
  import opened Ordered
  import opened Integers
  import opened TextOrder
  import opened Accounts
  import R = Roster
  import P = Points
  import opened PointStore

  // ---------------------------------------------------------------------------------------------
  // The checks of the point store.
  // ---------------------------------------------------------------------------------------------

  /** Valid accounts of different logins, their characters valid and with different ids over all accounts. */
  predicate CheckedAccounts(accounts: seq<Account>, sound: seq<Character> -> bool) {
    && DistinctLogins(accounts)
    && (forall i | 0 <= i < |accounts| :: R.FitsRoster(accounts[i], sound) && R.ValidCharacters(accounts[i].characters))
    && DistinctKeys(Occupied(accounts), IdOf)
  }

  lemma DistinctPrefix(characters: seq<PointCharacter>, all: seq<PointCharacter>)
    requires characters <= all && DistinctKeys(all, IdOf)
    ensures DistinctKeys(characters, IdOf)
  {
    assert forall i | 0 <= i < |characters| :: characters[i] == all[i];
  }

  lemma DistinctOneMore(characters: seq<PointCharacter>, c: PointCharacter)
    requires DistinctKeys(characters, IdOf)
    ensures DistinctKeys(characters + [c], IdOf) <==> c.id !in SavedIds(characters)
    ensures SavedIds(characters + [c]) == SavedIds(characters) + {c.id}
  {
    var more := characters + [c];
    assert more[|characters|] == c && forall i | 0 <= i < |characters| :: more[i] == characters[i];
    if c.id in SavedIds(characters) {
      var i :| 0 <= i < |characters| && characters[i].id == c.id;
      assert IdOf(more[i]) == IdOf(more[|characters|]);
    }
  }

  /** One occupied slot more: its id is new, or the characters cannot all be different. */
  lemma OccupiedSlot(before: seq<PointCharacter>, characters: seq<Character>, slot: nat)
    requires slot < |characters| && !IsEmptySlot(characters[slot])
    requires DistinctKeys(before + OccupiedIn(characters[..slot]), IdOf)
    ensures var c, front, more := characters[slot], before + OccupiedIn(characters[..slot]), before + OccupiedIn(characters[..slot + 1]);
      && (DistinctKeys(more, IdOf) <==> c.id !in SavedIds(front)) && SavedIds(more) == SavedIds(front) + {c.id}
      && (c.id in SavedIds(front) ==> !DistinctKeys(before + OccupiedIn(characters), IdOf))
  {
    hide IsEmptySlot, DistinctKeys, SavedIds, OccupiedIn;
    var c := PointCharacter(characters[slot].id, characters[slot].points);
    OccupiedInStep(characters, slot);
    assert before + OccupiedIn(characters[..slot + 1]) == before + OccupiedIn(characters[..slot]) + [c];
    DistinctOneMore(before + OccupiedIn(characters[..slot]), c);
    if DistinctKeys(before + OccupiedIn(characters), IdOf) {
      DistinctPrefix(before + OccupiedIn(characters[..slot + 1]), before + OccupiedIn(characters));
    }
  }

  /** The characters of one account, against the ids seen before. */
  method ValidateCharacters(characters: seq<Character>, seen: map<nat, string>, ghost before: seq<PointCharacter>)
    returns (ok: bool, ids: map<nat, string>)
    requires |characters| <= PLAYER_SLOTS && DistinctKeys(before, IdOf) && seen.Keys == SavedIds(before)
    ensures ok <==> R.ValidCharacters(characters) && DistinctKeys(before + OccupiedIn(characters), IdOf)
    ensures ok ==> ids.Keys == SavedIds(before + OccupiedIn(characters))
  {
    hide IsEmptySlot, R.ValidCharacter, DistinctKeys, SavedIds, OccupiedIn;
    ids := seen;
    NoSlots(before, characters);
    for slot := 0 to |characters|
      invariant DistinctKeys(before + OccupiedIn(characters[..slot]), IdOf) && ids.Keys == SavedIds(before + OccupiedIn(characters[..slot]))
      invariant forall k | 0 <= k < slot :: IsEmptySlot(characters[k]) || R.ValidCharacter(characters[k])
    {
      OccupiedInStep(characters, slot);
      if IsEmptySlot(characters[slot]) {
        assert OccupiedIn(characters[..slot]) + [] == OccupiedIn(characters[..slot]);
        continue;
      }
      OccupiedSlot(before, characters, slot);
      var valid := R.ValidateCharacter(slot, characters[slot], ids, map[]);
      if !valid {
        return false, ids;
      }
      ids := ids[characters[slot].id := characters[slot].name];
    }
    assert characters[..|characters|] == characters;
    return true, ids;
  }

  method ValidatePointStateAccounts(accounts: seq<Account>, sound: seq<Character> -> bool) returns (ok: bool)
    ensures ok <==> CheckedAccounts(accounts, sound)
  {
    hide DistinctKeys, SavedIds, OccupiedIn, Occupied, ToLower, R.ValidCharacters, R.FitsRoster, R.HasLogin;
    var logins: map<string, string> := map[];
    var ids: map<nat, string> := map[];
    NothingSeen();
    for i := 0 to |accounts|
      invariant (forall v :: v in logins <==> R.HasLogin(accounts[..i], v)) && DistinctLogins(accounts[..i])
      invariant forall k | 0 <= k < i :: R.FitsRoster(accounts[k], sound) && R.ValidCharacters(accounts[k].characters)
      invariant DistinctKeys(Occupied(accounts[..i]), IdOf) && ids.Keys == SavedIds(Occupied(accounts[..i]))
    {
      var account := accounts[i];
      assert accounts[..i + 1] == accounts[..i] + [account];
      var valid := R.ValidateAccount(account, sound);
      if !valid {
        return false;
      }
      if ToLower(account.login) in logins {
        SeenLogin(accounts, i);
        return false;
      }
      LoginOneMore(accounts, i);
      logins := logins[ToLower(account.login) := account.login];
      FewSlots(account, sound);
      AccountAppended(accounts, i);
      OccupiedPrefix(accounts, i + 1);
      valid, ids := ValidateCharacters(account.characters, ids, Occupied(accounts[..i]));
      if !valid {
        if DistinctKeys(Occupied(accounts), IdOf) {
          DistinctPrefix(Occupied(accounts[..i + 1]), Occupied(accounts));
        }
        return false;
      }
    }
    assert accounts[..|accounts|] == accounts;
    return true;
  }

  lemma FewSlots(account: Account, sound: seq<Character> -> bool)
    requires R.FitsRoster(account, sound)
    ensures |account.characters| <= PLAYER_SLOTS
  {
  }

  lemma SeenLogin(accounts: seq<Account>, i: nat)
    requires i < |accounts| && R.HasLogin(accounts[..i], ToLower(accounts[i].login))
    ensures !DistinctLogins(accounts)
  {
    hide ToLower;
    var k :| 0 <= k < i && ToLower(accounts[..i][k].login) == ToLower(accounts[i].login);
    assert accounts[k] == accounts[..i][k];
  }

  lemma LoginOneMore(accounts: seq<Account>, i: nat)
    requires i < |accounts| && DistinctLogins(accounts[..i]) && !R.HasLogin(accounts[..i], ToLower(accounts[i].login))
    ensures DistinctLogins(accounts[..i + 1])
    ensures forall v :: R.HasLogin(accounts[..i + 1], v) <==> R.HasLogin(accounts[..i], v) || ToLower(accounts[i].login) == v
  {
    hide ToLower;
    assert accounts[..i + 1] == accounts[..i] + [accounts[i]];
    forall v ensures R.HasLogin(accounts[..i + 1], v) <==> R.HasLogin(accounts[..i], v) || ToLower(accounts[i].login) == v {
      R.HasLoginAppended(accounts[..i], accounts[i], v);
    }
    forall k | 0 <= k < i ensures ToLower(accounts[k].login) != ToLower(accounts[i].login) {
      assert accounts[..i][k] == accounts[k];
    }
  }

  lemma NothingSeen()
    ensures Occupied([]) == [] && DistinctKeys([], IdOf) && SavedIds([]) == {} && forall v :: !R.HasLogin([], v)
  {
  }

  // ---------------------------------------------------------------------------------------------
  // What the roster export guarantees about the points.
  // ---------------------------------------------------------------------------------------------

  /** The occupied slots and their roster rows, side by side. */
  predicate SameIds(characters: seq<PointCharacter>, rows: seq<R.CharacterRow>) {
    |characters| == |rows| && forall i | 0 <= i < |characters| :: characters[i].id == rows[i].id
  }

  lemma {:induction false} SameIdsIn(characters: seq<Character>)
    ensures SameIds(OccupiedIn(characters), R.CharacterRows(characters, 0))
  {
    hide IsEmptySlot, ToLower;
    if characters != [] {
      SameIdsIn(characters[..|characters| - 1]);
    }
  }

  lemma {:induction false} SameIdsOf(accounts: seq<Account>)
    ensures SameIds(Occupied(accounts), R.Characters(accounts))
  {
    hide OccupiedIn, R.CharacterRows;
    if accounts != [] {
      SameIdsOf(accounts[..|accounts| - 1]);
      SameIdsIn(accounts[|accounts| - 1].characters);
    }
  }

  lemma {:induction false} OccupiedAreValid(characters: seq<Character>)
    requires R.ValidCharacters(characters)
    ensures forall i | 0 <= i < |OccupiedIn(characters)| :: OccupiedIn(characters)[i].id != 0 && IsVector(OccupiedIn(characters)[i].points)
  {
    hide IsEmptySlot;
    if characters != [] {
      OccupiedAreValid(characters[..|characters| - 1]);
    }
  }

  lemma {:induction false} AllOccupiedAreValid(accounts: seq<Account>)
    requires forall i | 0 <= i < |accounts| :: R.ValidCharacters(accounts[i].characters)
    ensures forall i | 0 <= i < |Occupied(accounts)| :: Occupied(accounts)[i].id != 0 && IsVector(Occupied(accounts)[i].points)
  {
    hide OccupiedIn, R.ValidCharacters;
    if accounts != [] {
      AllOccupiedAreValid(accounts[..|accounts| - 1]);
      OccupiedAreValid(accounts[|accounts| - 1].characters);
    }
  }

  /** Accounts that the roster export takes pass the checks here, and their characters can be saved. */
  lemma ExportableAreSavable(accounts: seq<Account>, sound: seq<Character> -> bool)
    requires R.Exportable(accounts, sound)
    ensures CheckedAccounts(accounts, sound) && Savable(Occupied(accounts))
  {
    hide R.Characters, R.FitsRoster, R.ValidCharacters, Occupied, ToLower;
    AllOccupiedAreValid(accounts);
    SameIdsOf(accounts);
    var characters, rows := Occupied(accounts), R.Characters(accounts);
    forall i, j | 0 <= i < j < |characters| ensures IdOf(characters[i]) != IdOf(characters[j]) {
      assert rows[i].id != rows[j].id;
    }
  }

  // ---------------------------------------------------------------------------------------------
  // The export of the points.
  // ---------------------------------------------------------------------------------------------

  /** Every vector, character by character. */
  function AllVectors(characters: seq<PointCharacter>): seq<P.PointRow> {
    if characters == [] then []
    else
      var last := characters[|characters| - 1];
      AllVectors(characters[..|characters| - 1]) + if IsVector(last.points) then P.VectorRows(last.id, last.points) else []
  }

  /** What an export of accounts comes to: their points, by login and slot. */
  ghost predicate ExportsPoints(accounts: seq<Account>, ordered: seq<Account>, rows: seq<P.PointRow>) {
    && multiset(ordered) == multiset(accounts) && AscendingBy(ordered, R.RosterBefore) && rows == AllVectors(Occupied(ordered))
  }

  lemma {:induction false} VectorsHavePoints(characters: seq<PointCharacter>, i: nat, k: Uint8)
    requires i < |characters| && IsVector(characters[i].points) && k < 255
    ensures P.PointRow(characters[i].id, k, characters[i].points[k]) in AllVectors(characters)
  {
    var n := |characters| - 1;
    if i < n {
      VectorsHavePoints(characters[..n], i, k);
    } else {
      assert P.VectorRows(characters[n].id, characters[n].points)[k] == P.PointRow(characters[n].id, k, characters[n].points[k]);
    }
  }

  lemma {:induction false} PointsHaveVectors(characters: seq<PointCharacter>, row: P.PointRow) returns (i: nat)
    requires row in AllVectors(characters)
    ensures i < |characters| && row.character == characters[i].id && row.index < 255 == |characters[i].points|
    ensures row.value == characters[i].points[row.index]
  {
    var n := |characters| - 1;
    if row in AllVectors(characters[..n]) {
      i := PointsHaveVectors(characters[..n], row);
    } else {
      i := n;
    }
  }

  /** The 255 points of every occupied slot, and no others. */
  ghost predicate ShowsPoints(accounts: seq<Account>, rows: seq<P.PointRow>) {
    && (forall i, slot, k: Uint8 | 0 <= i < |accounts| && 0 <= slot < |accounts[i].characters| && !IsEmptySlot(accounts[i].characters[slot]) && k < 255 ::
      P.PointRow(accounts[i].characters[slot].id, k, accounts[i].characters[slot].points[k]) in rows)
    && forall row | row in rows ::
      exists i, slot | 0 <= i < |accounts| && 0 <= slot < |accounts[i].characters| && !IsEmptySlot(accounts[i].characters[slot]) ::
      var c := accounts[i].characters[slot];
      row.character == c.id && row.index < 255 && row.value == c.points[row.index]
  }

  lemma ExportShowsPoints(accounts: seq<Account>, ordered: seq<Account>, rows: seq<P.PointRow>)
    requires ExportsPoints(accounts, ordered, rows)
    ensures ShowsPoints(accounts, rows)
  {
    hide IsEmptySlot, Occupied, AllVectors, AscendingBy;
    var characters := Occupied(ordered);
    InMultiset(accounts, ordered);
    forall i, slot, k: Uint8 | 0 <= i < |accounts| && 0 <= slot < |accounts[i].characters| && !IsEmptySlot(accounts[i].characters[slot]) && k < 255
      ensures P.PointRow(accounts[i].characters[slot].id, k, accounts[i].characters[slot].points[k]) in rows
    {
      assert accounts[i] in ordered;
      var j :| 0 <= j < |ordered| && ordered[j] == accounts[i];
      SlotsAreOccupied(ordered, j, slot);
      var n :| 0 <= n < |characters| && characters[n] == PointCharacter(ordered[j].characters[slot].id, ordered[j].characters[slot].points);
      VectorsHavePoints(characters, n, k);
    }
    forall row | row in rows
      ensures exists i, slot | 0 <= i < |accounts| && 0 <= slot < |accounts[i].characters| && !IsEmptySlot(accounts[i].characters[slot]) ::
        var c := accounts[i].characters[slot];
        row.character == c.id && row.index < 255 && row.value == c.points[row.index]
    {
      var n := PointsHaveVectors(characters, row);
      var j, slot := OccupiedAreSlots(ordered, characters[n]);
      assert ordered[j] in accounts;
      var i :| 0 <= i < |accounts| && accounts[i] == ordered[j];
      assert accounts[i].characters[slot].id == row.character;
    }
  }

  method ExportCharacterPointState(accounts: seq<Account>, hash: string -> Uint64, sound: seq<Character> -> bool)
    returns (r: Result<seq<P.PointRow>, R.RosterError>)
    requires |accounts| <= MAX_INT64
    ensures r.Ok? <==> R.Exportable(accounts, sound)
    ensures r.Ok? ==> exists ordered :: ExportsPoints(accounts, ordered, r.value)
    ensures r.Ok? ==> ShowsPoints(accounts, r.value)
  {
    hide ShowsPoints, R.Exportable, R.RosterBefore, AllVectors, Occupied, OccupiedIn;
    var roster := R.ExportAccountCharacterRoster(accounts, hash, sound);
    if roster.Err? {
      return Err(roster.error);
    }
    R.RosterOrder();
    var ordered := SortWith(accounts, R.RosterBefore);
    R.ExportableIgnoresOrder(accounts, ordered, sound);
    var rows: seq<P.PointRow> := [];
    NothingExported();
    for i := 0 to |ordered|
      invariant rows == AllVectors(Occupied(ordered[..i]))
    {
      ExportableAccount(ordered, sound, i);
      var exported := AppendPoints(rows, ordered[i], Occupied(ordered[..i]));
      AccountAppended(ordered, i);
      rows := exported;
    }
    assert ordered[..|ordered|] == ordered;
    ExportShowsPoints(accounts, ordered, rows);
    return Ok(rows);
  }

  lemma NothingExported()
    ensures AllVectors(Occupied([])) == []
  {
  }

  lemma ExportableAccount(accounts: seq<Account>, sound: seq<Character> -> bool, i: nat)
    requires R.Exportable(accounts, sound) && i < |accounts|
    ensures R.ValidCharacters(accounts[i].characters) && |accounts[i].characters| <= PLAYER_SLOTS
  {
    assert R.FitsRoster(accounts[i], sound);
  }

  lemma AccountAppended(ordered: seq<Account>, i: nat)
    requires i < |ordered|
    ensures Occupied(ordered[..i + 1]) == Occupied(ordered[..i]) + OccupiedIn(ordered[i].characters)
  {
    assert ordered[..i + 1][..i] == ordered[..i];
  }

  lemma VectorsOneMore(front: seq<PointCharacter>, id: Uint32, points: PointVector)
    ensures AllVectors(front + [PointCharacter(id, points)]) == AllVectors(front) + P.VectorRows(id, points)
  {
    assert (front + [PointCharacter(id, points)])[..|front|] == front;
  }

  /** The inner loop: the vectors of the occupied slots of one account; the second check never fails. */
  method AppendPoints(rows: seq<P.PointRow>, account: Account, ghost done: seq<PointCharacter>) returns (more: seq<P.PointRow>)
    requires R.ValidCharacters(account.characters) && |account.characters| <= PLAYER_SLOTS && rows == AllVectors(done)
    ensures more == AllVectors(done + OccupiedIn(account.characters))
  {
    hide IsEmptySlot, R.ValidCharacter, OccupiedIn, AllVectors;
    more := rows;
    var own := account.characters;
    NoSlots(done, own);
    for slot := 0 to |own|
      invariant more == AllVectors(done + OccupiedIn(own[..slot]))
    {
      OccupiedInStep(own, slot);
      if IsEmptySlot(own[slot]) {
        assert OccupiedIn(own[..slot]) + [] == OccupiedIn(own[..slot]);
        continue;
      }
      var valid := R.ValidateCharacter(slot, own[slot], map[], map[]);
      if !valid {
        assert false;
      }
      VectorsOneMore(done + OccupiedIn(own[..slot]), own[slot].id, own[slot].points);
      assert done + OccupiedIn(own[..slot + 1]) == done + OccupiedIn(own[..slot]) + [PointCharacter(own[slot].id, own[slot].points)];
      more := more + P.VectorRows(own[slot].id, own[slot].points);
    }
    assert own[..|own|] == own;
  }

  // ---------------------------------------------------------------------------------------------
  // Exported points pass quarantine.
  // ---------------------------------------------------------------------------------------------

  lemma {:induction false} VectorOrigin(characters: seq<PointCharacter>, j: nat) returns (i: nat)
    requires j < |AllVectors(characters)|
    ensures i < |characters| && AllVectors(characters)[j].character == characters[i].id && AllVectors(characters)[j].index < POINT_COUNT
  {
    hide P.VectorRows;
    var n := |characters| - 1;
    if j < |AllVectors(characters[..n])| {
      i := VectorOrigin(characters[..n], j);
    } else {
      i := n;
    }
  }

  lemma {:induction false} VectorsDistinct(characters: seq<PointCharacter>)
    requires Savable(characters)
    ensures DistinctKeys(AllVectors(characters), P.PointKey)
  {
    hide P.VectorRows;
    if characters != [] {
      var n := |characters| - 1;
      DistinctPrefix(characters[..n], characters);
      VectorsDistinct(characters[..n]);
      var rows := AllVectors(characters[..n]);
      forall j | 0 <= j < |rows| ensures rows[j].character != characters[n].id {
        var i := VectorOrigin(characters[..n], j);
        assert IdOf(characters[i]) != IdOf(characters[n]);
      }
    }
  }

  lemma {:induction false} VectorsComplete(characters: seq<PointCharacter>, i: nat, index: Uint8)
    requires i < |characters| && IsVector(characters[i].points) && index < POINT_COUNT
    ensures P.HasPoint(AllVectors(characters), characters[i].id, index)
  {
    hide P.VectorRows;
    var n := |characters| - 1;
    var front, rows := AllVectors(characters[..n]), AllVectors(characters);
    if i < n {
      VectorsComplete(characters[..n], i, index);
      var j :| 0 <= j < |front| && front[j].character == characters[i].id && front[j].index == index;
      assert rows[j] == front[j];
    } else {
      assert rows[|front| + index] == P.VectorRows(characters[n].id, characters[n].points)[index];
    }
  }

  /** Whatever is exported is accepted by the quarantine of points. */
  lemma ExportedPointsAccepted(accounts: seq<Account>, ordered: seq<Account>, rows: seq<P.PointRow>, sound: seq<Character> -> bool)
    requires R.Exportable(accounts, sound) && ExportsPoints(accounts, ordered, rows)
    ensures P.Accepts(P.PointExport(P.MIGRATION_VERSION, P.MIGRATION_NAME, [], Some(rows)))
  {
    hide R.Exportable, R.RosterBefore, Occupied, AllVectors;
    R.ExportableIgnoresOrder(accounts, ordered, sound);
    ExportableAreSavable(ordered, sound);
    var characters := Occupied(ordered);
    VectorsDistinct(characters);
    forall j | 0 <= j < |rows| ensures rows[j].character != 0 && rows[j].index < POINT_COUNT {
      var i := VectorOrigin(characters, j);
    }
    forall j, index | 0 <= j < |rows| && 0 <= index < POINT_COUNT ensures P.HasPoint(rows, rows[j].character, index) {
      var i := VectorOrigin(characters, j);
      VectorsComplete(characters, i, index);
    }
  }
}
