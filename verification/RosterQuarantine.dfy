/** Quarantine of a retained roster export, and that the exporter's own output passes it, accounts in their order. */
module RosterQuarantine {
  import opened Results
  import opened Ordered
  import opened Text
  import opened TextOrder
  import opened Integers
  import opened Accounts
  import opened Roster

  const MIGRATION_VERSION := 2
  const MIGRATION_NAME := "account_character_roster"

  datatype RosterExport = RosterExport(
    migrationVersion: int, migrationName: string, accountIds: seq<int>,
    accounts: Option<seq<AccountRow>>, characters: Option<seq<CharacterRow>>)

  datatype CanonicalRoster = CanonicalRoster(accountIds: seq<int>, rows: RosterRows)

  /** The exporter declares no account scope. */
  function AsExport(r: RosterRows): RosterExport {
    RosterExport(MIGRATION_VERSION, MIGRATION_NAME, [], Some(r.accounts), Some(r.characters))
  }

  // ---------------------------------------------------------------------------------------------
  // What is accepted.
  // ---------------------------------------------------------------------------------------------

  predicate ValidAccountRow(r: AccountRow) {
    r.id > 0 && ProperName(r.login) && r.loginNormalized != "" && r.loginNormalized == ToLower(r.login)
  }

  predicate ValidCharacterRow(r: CharacterRow) {
    && r.id != 0 && 0 <= r.slot < PLAYER_SLOTS && ProperName(r.name) && '\0' !in r.guildName
    && r.nameNormalized != "" && r.nameNormalized == ToLower(r.name)
    && r.level != 0 && r.mapIndex != 0 && r.gold <= MAX_ID
  }

  predicate DistinctAccounts(rows: seq<AccountRow>) {
    forall i, j | 0 <= i < j < |rows| :: rows[i].id != rows[j].id && rows[i].loginNormalized != rows[j].loginNormalized
  }

  /** No account has two characters in one slot. */
  predicate DistinctSlots(rows: seq<CharacterRow>) {
    forall i, j | 0 <= i < j < |rows| :: rows[i].accountId != rows[j].accountId || rows[i].slot != rows[j].slot
  }

  predicate AcceptsAccounts(rows: seq<AccountRow>) {
    DistinctAccounts(rows) && forall i | 0 <= i < |rows| :: ValidAccountRow(rows[i])
  }

  predicate AcceptsCharacters(rows: seq<CharacterRow>, accounts: set<int>) {
    && DistinctCharacters(rows) && DistinctSlots(rows)
    && forall i | 0 <= i < |rows| :: ValidCharacterRow(rows[i]) && rows[i].accountId in accounts
  }

  predicate AcceptsScope(ids: seq<int>) {
    NoRepeats(ids) && forall i | 0 <= i < |ids| :: ids[i] > 0
  }

  predicate Accepts(e: RosterExport) {
    && e.migrationVersion == MIGRATION_VERSION && e.migrationName == MIGRATION_NAME
    && e.accounts.Some? && e.characters.Some? && AcceptsScope(e.accountIds)
    && AcceptsAccounts(e.accounts.value) && AcceptsCharacters(e.characters.value, Ids(e.accounts.value))
  }

  // ---------------------------------------------------------------------------------------------
  // The canonical form.
  // ---------------------------------------------------------------------------------------------

  predicate RowBefore(a: AccountRow, b: AccountRow) {
    || TextLess(a.loginNormalized, b.loginNormalized)
    || (a.loginNormalized == b.loginNormalized && (TextLess(a.login, b.login) || (a.login == b.login && a.id < b.id)))
  }

  lemma RowOrder()
    ensures WeakOrder(RowBefore)
  {
    forall x: AccountRow, y: AccountRow ensures RowBefore(x, y) ==> !RowBefore(y, x) {
      TextLessTotal(x.loginNormalized, y.loginNormalized);
      TextLessTotal(x.login, y.login);
    }
    forall x: AccountRow, y: AccountRow, z: AccountRow | !RowBefore(x, y) && !RowBefore(y, z) ensures !RowBefore(x, z) {
      NotBefore(x.loginNormalized, y.loginNormalized, z.loginNormalized);
      NotBefore(x.login, y.login, z.login);
    }
  }

  function SlotKey(r: CharacterRow): Key {
    Key(r.accountId, r.slot, r.id, 0)
  }

  /** Rows sorted, scope sorted and merged with the accounts. */
  ghost predicate CanonicalOf(e: RosterExport, c: CanonicalRoster)
    requires e.accounts.Some? && e.characters.Some?
  {
    && multiset(c.rows.accounts) == multiset(e.accounts.value) && AscendingBy(c.rows.accounts, RowBefore)
    && multiset(c.rows.characters) == multiset(e.characters.value) && Ascending(c.rows.characters, SlotKey)
    && (forall v :: v in c.accountIds <==> v in e.accountIds || v in Ids(e.accounts.value))
    && forall i, j | 0 <= i < j < |c.accountIds| :: c.accountIds[i] < c.accountIds[j]
  }

  /** Accounts by normalised login, characters account by account and slot by slot. */
  lemma CanonicalIsOrdered(e: RosterExport, c: CanonicalRoster)
    requires Accepts(e) && CanonicalOf(e, c)
    ensures forall i, j | 0 <= i < j < |c.rows.accounts| :: TextLess(c.rows.accounts[i].loginNormalized, c.rows.accounts[j].loginNormalized)
    ensures forall i, j | 0 <= i < j < |c.rows.characters| ::
      var a, b := c.rows.characters[i], c.rows.characters[j];
      a.accountId < b.accountId || (a.accountId == b.accountId && a.slot < b.slot)
  {
    hide ToLower, TextLess, ProperName, ValidCharacterRow, DistinctCharacters;
    AllApartPermute(e.accounts.value, c.rows.accounts, (x: AccountRow, y: AccountRow) => x.loginNormalized != y.loginNormalized);
    AllApartPermute(e.characters.value, c.rows.characters, (x: CharacterRow, y: CharacterRow) => x.accountId != y.accountId || x.slot != y.slot);
    forall i, j | 0 <= i < j < |c.rows.accounts| ensures TextLess(c.rows.accounts[i].loginNormalized, c.rows.accounts[j].loginNormalized) {
      assert !RowBefore(c.rows.accounts[j], c.rows.accounts[i]);
      TextLessTotal(c.rows.accounts[i].loginNormalized, c.rows.accounts[j].loginNormalized);
    }
  }

  method CollectScope(ids: seq<int>) returns (ok: bool, seen: set<int>)
    ensures ok <==> AcceptsScope(ids)
    ensures ok ==> forall v :: v in seen <==> v in ids
  {
    seen := {};
    for i := 0 to |ids|
      invariant AcceptsScope(ids[..i])
      invariant forall v :: v in seen <==> v in ids[..i]
    {
      assert ids[..i + 1] == ids[..i] + [ids[i]];
      if ids[i] <= 0 {
        return false, seen;
      }
      if ids[i] in seen {
        assert ids[i] in ids[..i];
        return false, seen;
      }
      seen := seen + {ids[i]};
    }
    assert ids[..|ids|] == ids;
    return true, seen;
  }

  predicate HasNormalized(rows: seq<AccountRow>, login: string) {
    exists i :: 0 <= i < |rows| && rows[i].loginNormalized == login
  }

  lemma SeeAccount(rows: seq<AccountRow>, row: AccountRow)
    ensures Ids(rows + [row]) == Ids(rows) + {row.id}
    ensures forall v :: HasNormalized(rows + [row], v) <==> HasNormalized(rows, v) || row.loginNormalized == v
    ensures DistinctAccounts(rows) ==>
      (DistinctAccounts(rows + [row]) <==> row.id !in Ids(rows) && !HasNormalized(rows, row.loginNormalized))
  {
    var more := rows + [row];
    IdsOfOneMore(rows, row);
    assert more[|rows|] == row;
    assert forall k | 0 <= k < |rows| :: more[k] == rows[k];
    forall v | HasNormalized(rows, v) || row.loginNormalized == v ensures HasNormalized(more, v) {
      if HasNormalized(rows, v) {
        var k :| 0 <= k < |rows| && rows[k].loginNormalized == v;
        assert more[k].loginNormalized == v;
      }
    }
  }

  method CheckAccounts(rows: seq<AccountRow>) returns (ok: bool, ids: map<int, string>)
    ensures ok <==> AcceptsAccounts(rows)
    ensures ok ==> ids.Keys == Ids(rows)
  {
    hide DistinctAccounts, ValidAccountRow, HasNormalized, Ids;
    ids := map[];
    var logins: map<string, int> := map[];
    NoAccounts();
    for i := 0 to |rows|
      invariant DistinctAccounts(rows[..i]) && forall k | 0 <= k < i :: ValidAccountRow(rows[k])
      invariant ids.Keys == Ids(rows[..i])
      invariant forall v :: v in logins <==> HasNormalized(rows[..i], v)
    {
      var row := rows[i];
      SeeAccount(rows[..i], row);
      assert rows[..i + 1] == rows[..i] + [row];
      var valid := ValidateAccountRow(row);
      if !valid {
        return false, ids;
      }
      if row.id in ids || row.loginNormalized in logins {
        AccountsPrefix(rows, i + 1);
        return false, ids;
      }
      ids, logins := ids[row.id := row.login], logins[row.loginNormalized := row.id];
    }
    assert rows[..|rows|] == rows;
    return true, ids;
  }

  lemma NoAccounts()
    ensures DistinctAccounts([]) && Ids([]) == {} && forall v :: !HasNormalized([], v)
  {
  }

  lemma AccountsPrefix(rows: seq<AccountRow>, i: nat)
    requires i <= |rows|
    ensures DistinctAccounts(rows) ==> DistinctAccounts(rows[..i])
  {
  }

  method ValidateAccountRow(r: AccountRow) returns (ok: bool)
    ensures ok <==> ValidAccountRow(r)
  {
    if r.id <= 0 || TrimSpace(r.login) == "" || r.login != TrimSpace(r.login) || '\0' in r.login {
      return false;
    }
    return !(r.loginNormalized == "") && r.loginNormalized == ToLower(r.login);
  }

  method ValidateCharacterRow(r: CharacterRow, accounts: map<int, string>) returns (ok: bool)
    ensures ok <==> ValidCharacterRow(r) && r.accountId in accounts
  {
    if r.id == 0 || !(r.accountId in accounts) || r.slot < 0 || r.slot >= PLAYER_SLOTS {
      return false;
    }
    if TrimSpace(r.name) == "" || r.name != TrimSpace(r.name) || '\0' in r.name || '\0' in r.guildName {
      return false;
    }
    if r.nameNormalized == "" || r.nameNormalized != ToLower(r.name) {
      return false;
    }
    return !(r.level == 0 || r.mapIndex == 0 || r.gold > MAX_ID);
  }

  /** The slots taken so far. */
  function Slots(rows: seq<CharacterRow>): set<(int, int)> {
    set i | 0 <= i < |rows| :: (rows[i].accountId, rows[i].slot)
  }

  lemma SeeSlot(rows: seq<CharacterRow>, row: CharacterRow)
    ensures Slots(rows + [row]) == Slots(rows) + {(row.accountId, row.slot)}
    ensures DistinctSlots(rows) ==> (DistinctSlots(rows + [row]) <==> (row.accountId, row.slot) !in Slots(rows))
  {
    var more := rows + [row];
    assert more[|rows|] == row;
    assert forall k | 0 <= k < |rows| :: more[k] == rows[k];
  }

  method CheckCharacters(rows: seq<CharacterRow>, accounts: map<int, string>) returns (ok: bool)
    ensures ok <==> AcceptsCharacters(rows, accounts.Keys)
  {
    hide DistinctCharacters, DistinctSlots, ValidCharacterRow, Seen, Slots;
    var ids: map<nat, string>, names: map<string, nat> := map[], map[];
    var slots: set<(int, int)> := {};
    NoCharacters();
    for i := 0 to |rows|
      invariant DistinctCharacters(rows[..i]) && DistinctSlots(rows[..i])
      invariant forall k | 0 <= k < i :: ValidCharacterRow(rows[k]) && rows[k].accountId in accounts
      invariant Seen(rows[..i], ids, names) && slots == Slots(rows[..i])
    {
      var row := rows[i];
      SeeOneMore(rows[..i], ids, names, row);
      SeeSlot(rows[..i], row);
      assert rows[..i + 1] == rows[..i] + [row];
      var valid := ValidateCharacterRow(row, accounts);
      if !valid {
        return false;
      }
      if (row.accountId, row.slot) in slots || row.id in ids || row.nameNormalized in names {
        CharactersPrefixDistinct(rows, i + 1);
        return false;
      }
      slots, ids, names := slots + {(row.accountId, row.slot)}, ids[row.id := row.name], names[row.nameNormalized := row.id];
    }
    assert rows[..|rows|] == rows;
    return true;
  }

  lemma NoCharacters()
    ensures DistinctCharacters([]) && DistinctSlots([]) && Seen([], map[], map[]) && Slots([]) == {}
  {
  }

  lemma CharactersPrefixDistinct(rows: seq<CharacterRow>, i: nat)
    requires i <= |rows|
    ensures DistinctCharacters(rows) ==> DistinctCharacters(rows[..i])
    ensures DistinctSlots(rows) ==> DistinctSlots(rows[..i])
  {
  }

  datatype QuarantineError = InvalidAccountCharacterRosterExport

  method Canonicalize(e: RosterExport) returns (r: Result<CanonicalRoster, QuarantineError>)
    ensures r.Ok? <==> Accepts(e)
    ensures r.Ok? ==> CanonicalOf(e, r.value)
    ensures r.Ok? ==> forall i, j | 0 <= i < j < |r.value.rows.accounts| ::
      TextLess(r.value.rows.accounts[i].loginNormalized, r.value.rows.accounts[j].loginNormalized)
    ensures r.Ok? ==> forall i, j | 0 <= i < j < |r.value.rows.characters| ::
      var a, b := r.value.rows.characters[i], r.value.rows.characters[j];
      a.accountId < b.accountId || (a.accountId == b.accountId && a.slot < b.slot)
  {
    hide TextLess, AcceptsScope, AcceptsAccounts, AcceptsCharacters, RowBefore, Ids;
    if e.migrationVersion != MIGRATION_VERSION || e.migrationName != MIGRATION_NAME {
      return Err(InvalidAccountCharacterRosterExport);
    }
    if e.accounts.None? || e.characters.None? {
      return Err(InvalidAccountCharacterRosterExport);
    }
    var ok, scope := CollectScope(e.accountIds);
    if !ok {
      return Err(InvalidAccountCharacterRosterExport);
    }
    var ids;
    ok, ids := CheckAccounts(e.accounts.value);
    if !ok {
      return Err(InvalidAccountCharacterRosterExport);
    }
    ok := CheckCharacters(e.characters.value, ids);
    if !ok {
      return Err(InvalidAccountCharacterRosterExport);
    }
    RowOrder();
    var accounts := SortWith(e.accounts.value, RowBefore);
    var characters := SortBy(e.characters.value, SlotKey);
    var accountIds := SortedInts(scope + ids.Keys);
    var canonical := CanonicalRoster(accountIds, RosterRows(accounts, characters));
    CanonicalIsOrdered(e, canonical);
    return Ok(canonical);
  }

  /** The canonical form does not depend on the order of the rows or of the declared ids. */
  lemma CanonicalIgnoresOrder(e: RosterExport, f: RosterExport, c: CanonicalRoster, d: CanonicalRoster)
    requires Accepts(e) && f.accounts.Some? && f.characters.Some? && CanonicalOf(e, c) && CanonicalOf(f, d)
    requires multiset(e.accounts.value) == multiset(f.accounts.value) && multiset(e.characters.value) == multiset(f.characters.value)
    requires forall v :: v in e.accountIds <==> v in f.accountIds
    ensures c == d
  {
    hide AcceptsScope, ValidAccountRow, ValidCharacterRow;
    InMultiset(c.rows.accounts, e.accounts.value);
    AccountsSeparate(e.accounts.value, c.rows.accounts);
    SortWithIsUnique(c.rows.accounts, d.rows.accounts, RowBefore);
    CharactersOnce(e.characters.value, c.rows.characters);
    SortIsUnique(d.rows.characters, c.rows.characters, SlotKey);
    SameIds(e.accounts.value, f.accounts.value);
    AscendingIdsUnique(c.accountIds, d.accountIds);
  }

  // ---------------------------------------------------------------------------------------------
  // Acceptance does not depend on the order, and the canonical form is its own.
  // ---------------------------------------------------------------------------------------------

  /** The same export up to the order of its rows and of its declared ids. */
  predicate Permutes(e: RosterExport, f: RosterExport) {
    && e.migrationVersion == f.migrationVersion && e.migrationName == f.migrationName
    && multiset(e.accountIds) == multiset(f.accountIds)
    && e.accounts.Some? && f.accounts.Some? && multiset(e.accounts.value) == multiset(f.accounts.value)
    && e.characters.Some? && f.characters.Some? && multiset(e.characters.value) == multiset(f.characters.value)
  }

  lemma AcceptsAccountsPermute(a: seq<AccountRow>, b: seq<AccountRow>)
    requires multiset(a) == multiset(b) && AcceptsAccounts(a)
    ensures AcceptsAccounts(b)
  {
    hide ValidAccountRow;
    var apart := (x: AccountRow, y: AccountRow) => x.id != y.id && x.loginNormalized != y.loginNormalized;
    AllApartPermute(a, b, apart);
    InMultiset(a, b);
    forall i, j | 0 <= i < j < |b| ensures b[i].id != b[j].id && b[i].loginNormalized != b[j].loginNormalized {
      assert apart(b[i], b[j]);
    }
    forall i | 0 <= i < |b| ensures ValidAccountRow(b[i]) {
      assert b[i] in a;
    }
  }

  lemma AcceptsCharactersPermute(a: seq<CharacterRow>, b: seq<CharacterRow>, accounts: set<int>)
    requires multiset(a) == multiset(b) && AcceptsCharacters(a, accounts)
    ensures AcceptsCharacters(b, accounts)
  {
    hide ValidCharacterRow;
    var apart := (x: CharacterRow, y: CharacterRow) =>
      x.id != y.id && x.nameNormalized != y.nameNormalized && (x.accountId != y.accountId || x.slot != y.slot);
    AllApartPermute(a, b, apart);
    InMultiset(a, b);
    forall i, j | 0 <= i < j < |b| ensures apart(b[i], b[j]) {
    }
    forall i | 0 <= i < |b| ensures ValidCharacterRow(b[i]) && b[i].accountId in accounts {
      assert b[i] in a;
    }
  }

  lemma AcceptsScopePermute(a: seq<int>, b: seq<int>)
    requires multiset(a) == multiset(b) && AcceptsScope(a)
    ensures AcceptsScope(b)
  {
    AllApartPermute(a, b, (x: int, y: int) => x != y);
    InMultiset(a, b);
    forall i | 0 <= i < |b| ensures b[i] > 0 {
      assert b[i] in a;
    }
  }

  lemma AcceptedPermutes(e: RosterExport, f: RosterExport)
    requires Permutes(e, f) && Accepts(e)
    ensures Accepts(f)
  {
    hide AcceptsAccounts, AcceptsCharacters, AcceptsScope, Ids;
    AcceptsScopePermute(e.accountIds, f.accountIds);
    AcceptsAccountsPermute(e.accounts.value, f.accounts.value);
    SameIds(e.accounts.value, f.accounts.value);
    AcceptsCharactersPermute(e.characters.value, f.characters.value, Ids(e.accounts.value));
  }

  /** Success does not depend on the order of the rows or of the declared ids. */
  lemma AcceptanceIgnoresOrder(e: RosterExport, f: RosterExport)
    requires Permutes(e, f)
    ensures Accepts(e) <==> Accepts(f)
  {
    hide Accepts;
    if Accepts(e) {
      AcceptedPermutes(e, f);
    }
    if Accepts(f) {
      AcceptedPermutes(f, e);
    }
  }

  /** A canonical roster, kept as an export with its scope. */
  function Retained(c: CanonicalRoster): RosterExport {
    AsExport(c.rows).(accountIds := c.accountIds)
  }

  /** A canonical roster is accepted and is its own canonical form. */
  lemma CanonicalIsFixed(e: RosterExport, c: CanonicalRoster)
    requires Accepts(e) && CanonicalOf(e, c)
    ensures Accepts(Retained(c)) && CanonicalOf(Retained(c), c)
  {
    hide ValidAccountRow, ValidCharacterRow, AcceptsCharacters, DistinctAccounts, RowBefore;
    AcceptsAccountsPermute(e.accounts.value, c.rows.accounts);
    SameIds(e.accounts.value, c.rows.accounts);
    AcceptsCharactersPermute(e.characters.value, c.rows.characters, Ids(e.accounts.value));
    forall i | 0 <= i < |c.accountIds| ensures c.accountIds[i] > 0 {
      assert c.accountIds[i] in c.accountIds;
      if c.accountIds[i] in Ids(e.accounts.value) {
        var k :| 0 <= k < |e.accounts.value| && e.accounts.value[k].id == c.accountIds[i];
        PositiveId(e.accounts.value, k);
      }
    }
  }

  lemma PositiveId(rows: seq<AccountRow>, i: nat)
    requires AcceptsAccounts(rows) && i < |rows|
    ensures rows[i].id > 0
  {
    assert ValidAccountRow(rows[i]);
  }

  lemma AccountsSeparate(rows: seq<AccountRow>, sorted: seq<AccountRow>)
    requires AcceptsAccounts(rows) && forall x :: x in sorted <==> x in rows
    ensures Separates(sorted, RowBefore)
  {
    forall x, y | x in sorted && y in sorted ensures x == y || RowBefore(x, y) || RowBefore(y, x) {
      assert x in rows && y in rows;
      TextLessTotal(x.loginNormalized, y.loginNormalized);
      TextLessTotal(x.login, y.login);
      var i :| 0 <= i < |rows| && rows[i] == x;
      var j :| 0 <= j < |rows| && rows[j] == y;
      assert i < j ==> rows[i].id != rows[j].id;
    }
  }

  lemma CharactersOnce(rows: seq<CharacterRow>, sorted: seq<CharacterRow>)
    requires DistinctSlots(rows) && multiset(sorted) == multiset(rows) && Ascending(sorted, SlotKey)
    ensures Sorted(sorted, SlotKey)
  {
    DistinctKeysPermute(rows, sorted, SlotKey);
    AscendingDistinct(sorted, SlotKey);
  }

  lemma SameIds(a: seq<AccountRow>, b: seq<AccountRow>)
    requires multiset(a) == multiset(b)
    ensures Ids(a) == Ids(b)
  {
    InMultiset(a, b);
    forall v ensures v in Ids(a) <==> v in Ids(b) {
      if v in Ids(a) {
        var i :| 0 <= i < |a| && a[i].id == v;
        assert a[i] in b;
      }
      if v in Ids(b) {
        var i :| 0 <= i < |b| && b[i].id == v;
        assert b[i] in a;
      }
    }
  }

  lemma EachInTheOther<R>(a: seq<R>, b: seq<R>, key: R -> Key)
    requires DistinctKeys(a, key) && DistinctKeys(b, key)
    requires (forall i | 0 <= i < |a| :: a[i] in b) && forall i | 0 <= i < |b| :: b[i] in a
    ensures multiset(a) == multiset(b)
  {
    SameRows(a, b, key);
  }

  lemma AscendingIdsUnique(a: seq<int>, b: seq<int>)
    requires forall v :: v in a <==> v in b
    requires forall i, j | 0 <= i < j < |a| :: a[i] < a[j]
    requires forall i, j | 0 <= i < j < |b| :: b[i] < b[j]
    ensures a == b
  {
    forall i | 0 <= i < |a| ensures a[i] in b {
      assert a[i] in a;
    }
    forall i | 0 <= i < |b| ensures b[i] in a {
      assert b[i] in b;
    }
    EachInTheOther(a, b, IntKey);
    SortIsUnique(a, b, IntKey);
  }

  // ---------------------------------------------------------------------------------------------
  // The exporter's output.
  // ---------------------------------------------------------------------------------------------

  lemma {:induction false} InCharacterRows(characters: seq<Character>, id: int)
    ensures forall k, l | 0 <= k < l < |CharacterRows(characters, id)| ::
      CharacterRows(characters, id)[k].slot < CharacterRows(characters, id)[l].slot
    ensures forall k | 0 <= k < |CharacterRows(characters, id)| ::
      var row := CharacterRows(characters, id)[k];
      && 0 <= row.slot < |characters| && !IsEmptySlot(characters[row.slot]) && row == RowOf(characters[row.slot], id, row.slot)
  {
    hide IsEmptySlot, ToLower;
    if characters != [] {
      InCharacterRows(characters[..|characters| - 1], id);
    }
  }

  ghost predicate FromAccount(row: CharacterRow, accounts: seq<Account>, rows: seq<AccountRow>, i: nat)
    requires |accounts| == |rows|
  {
    && i < |rows| && row.accountId == rows[i].id && 0 <= row.slot < |accounts[i].characters|
    && !IsEmptySlot(accounts[i].characters[row.slot]) && row == RowOf(accounts[i].characters[row.slot], rows[i].id, row.slot)
  }

  ghost predicate FromSome(row: CharacterRow, accounts: seq<Account>, rows: seq<AccountRow>)
    requires |accounts| == |rows|
  {
    exists i: nat :: FromAccount(row, accounts, rows, i)
  }

  lemma OwnRows(accounts: seq<Account>, rows: seq<AccountRow>, i: nat)
    requires |accounts| == |rows| && i < |rows|
    ensures forall k | 0 <= k < |CharacterRows(accounts[i].characters, rows[i].id)| ::
      FromAccount(CharacterRows(accounts[i].characters, rows[i].id)[k], accounts, rows, i)
  {
    hide IsEmptySlot, ToLower;
    InCharacterRows(accounts[i].characters, rows[i].id);
  }

  /** Every character row comes from an account, and no two share a slot. */
  lemma {:induction false} ExportedSlots(accounts: seq<Account>, rows: seq<AccountRow>)
    requires |accounts| == |rows| && forall i, j | 0 <= i < j < |rows| :: rows[i].id != rows[j].id
    ensures DistinctSlots(AllCharacterRows(accounts, rows))
    ensures forall k | 0 <= k < |AllCharacterRows(accounts, rows)| ::
      FromSome(AllCharacterRows(accounts, rows)[k], accounts, rows)
  {
    hide CharacterRows, FromAccount;
    if accounts != [] {
      var last := |accounts| - 1;
      ExportedSlots(accounts[..last], rows[..last]);
      OwnRows(accounts, rows, last);
      var a, b := AllCharacterRows(accounts[..last], rows[..last]), CharacterRows(accounts[last].characters, rows[last].id);
      forall k | 0 <= k < |a| ensures a[k].accountId != rows[last].id && FromSome(a[k], accounts, rows) {
        var i: nat :| FromAccount(a[k], accounts[..last], rows[..last], i);
        FromPrefix(a[k], accounts, rows, last, i);
      }
      BlockSlots(accounts[last].characters, rows[last].id);
      SlotsConcat(a, b, rows[last].id);
      assert AllCharacterRows(accounts, rows) == a + b;
      forall k | 0 <= k < |a + b| ensures FromSome((a + b)[k], accounts, rows) {
        if k < |a| {
          assert (a + b)[k] == a[k];
        } else {
          assert (a + b)[k] == b[k - |a|];
          assert FromAccount(b[k - |a|], accounts, rows, last);
        }
      }
    }
  }

  lemma FromPrefix(row: CharacterRow, accounts: seq<Account>, rows: seq<AccountRow>, last: nat, i: nat)
    requires |accounts| == |rows| && last < |rows| && (forall i, j | 0 <= i < j < |rows| :: rows[i].id != rows[j].id)
    requires FromAccount(row, accounts[..last], rows[..last], i)
    ensures FromAccount(row, accounts, rows, i) && row.accountId != rows[last].id
  {
  }

  lemma BlockSlots(characters: seq<Character>, id: int)
    ensures DistinctSlots(CharacterRows(characters, id))
    ensures forall k | 0 <= k < |CharacterRows(characters, id)| :: CharacterRows(characters, id)[k].accountId == id
  {
    hide IsEmptySlot, ToLower, CharacterRows;
    InCharacterRows(characters, id);
  }

  lemma SlotsConcat(a: seq<CharacterRow>, b: seq<CharacterRow>, id: int)
    requires DistinctSlots(a) && DistinctSlots(b)
    requires (forall k | 0 <= k < |a| :: a[k].accountId != id) && forall k | 0 <= k < |b| :: b[k].accountId == id
    ensures DistinctSlots(a + b)
  {
  }

  lemma ExportedAccountsAccepted(ordered: seq<Account>, rows: seq<AccountRow>, hash: string -> Uint64, sound: seq<Character> -> bool)
    requires Exportable(ordered, sound) && AccountRowsOf(ordered, rows, hash)
    ensures AcceptsAccounts(rows)
  {
    hide IsProbe, Characters, DistinctCharacters, ValidCharacters, ProperName;
    DistinctIds(ordered, rows, hash);
    forall i | 0 <= i < |rows| ensures ValidAccountRow(rows[i]) {
      assert FitsRoster(ordered[i], sound);
      ProperNotEmpty(ordered[i].login);
    }
    assert forall i | 0 <= i < |rows| :: rows[i].loginNormalized == ToLower(ordered[i].login);
  }

  lemma ProperNotEmpty(name: string)
    requires ProperName(name)
    ensures name != "" && ToLower(name) != ""
  {
    assert |ToLower(name)| == |name|;
  }

  lemma ExportedCharacterAccepted(ordered: seq<Account>, rows: seq<AccountRow>, sound: seq<Character> -> bool, row: CharacterRow, i: nat)
    requires Exportable(ordered, sound) && |rows| == |ordered| && FromAccount(row, ordered, rows, i)
    ensures ValidCharacterRow(row) && row.accountId in Ids(rows)
  {
    hide Characters, DistinctCharacters, ProperName, ToLower, IsEmptySlot;
    assert FitsRoster(ordered[i], sound);
    var c := ordered[i].characters[row.slot];
    assert ValidCharacters(ordered[i].characters);
    assert ValidCharacter(c);
    ProperNotEmpty(c.name);
  }

  /** Whatever is exported is accepted by quarantine, which leaves the accounts in their order. */
  lemma ExportIsAccepted(ordered: seq<Account>, r: RosterRows, hash: string -> Uint64, sound: seq<Character> -> bool, c: CanonicalRoster)
    requires AscendingBy(ordered, RosterBefore) && Exportable(ordered, sound) && RowsOf(ordered, r, hash)
    ensures Accepts(AsExport(r))
    ensures CanonicalOf(AsExport(r), c) ==> c.rows.accounts == r.accounts
  {
    hide AccountRowsOf, RosterBefore, AcceptsAccounts, ValidCharacterRow, DistinctSlots, Exportable, Ids, RowBefore;
    ExportedAccountsAccepted(ordered, r.accounts, hash, sound);
    IdsDiffer(ordered, r.accounts, hash);
    ExportedSlots(ordered, r.accounts);
    AllRowsIgnoreIds(ordered, r.accounts);
    SameDistinct(r.characters, Characters(ordered));
    ExportableDistinct(ordered, sound);
    forall k | 0 <= k < |r.characters| ensures ValidCharacterRow(r.characters[k]) && r.characters[k].accountId in Ids(r.accounts) {
      var i: nat :| FromAccount(r.characters[k], ordered, r.accounts, i);
      ExportedCharacterAccepted(ordered, r.accounts, sound, r.characters[k], i);
    }
    SameLoginOrder(ordered, r.accounts, hash, sound);
    if CanonicalOf(AsExport(r), c) {
      AccountsSeparate(r.accounts, r.accounts);
      SortWithIsUnique(r.accounts, c.rows.accounts, RowBefore);
    }
  }

  lemma IdsDiffer(ordered: seq<Account>, rows: seq<AccountRow>, hash: string -> Uint64)
    requires AccountRowsOf(ordered, rows, hash)
    ensures |rows| == |ordered| && forall i, j | 0 <= i < j < |rows| :: rows[i].id != rows[j].id
  {
    DistinctIds(ordered, rows, hash);
  }

  lemma ExportableDistinct(ordered: seq<Account>, sound: seq<Character> -> bool)
    requires Exportable(ordered, sound)
    ensures DistinctLogins(ordered) && DistinctCharacters(Characters(ordered))
  {
  }

  lemma SameLoginOrder(ordered: seq<Account>, rows: seq<AccountRow>, hash: string -> Uint64, sound: seq<Character> -> bool)
    requires AscendingBy(ordered, RosterBefore) && DistinctLogins(ordered) && AccountRowsOf(ordered, rows, hash)
    ensures AscendingBy(rows, RowBefore)
  {
    hide IsProbe, ToLower;
    forall i, j | 0 <= i < j < |rows| ensures !RowBefore(rows[j], rows[i]) {
      assert !RosterBefore(ordered[j], ordered[i]);
    }
  }
}
