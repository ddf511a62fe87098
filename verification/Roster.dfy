/** The account roster export. */
module Roster {
  import opened Results
  import opened Ordered
  import opened Text
  import opened TextOrder
  import opened Integers
  import opened Accounts

  const MAX_ID := MAX_INT64

  datatype AccountRow = AccountRow(id: int, login: string, loginNormalized: string, empire: nat)
  datatype CharacterRow = CharacterRow(
    id: nat, accountId: int, slot: int, name: string, nameNormalized: string,
    level: nat, mapIndex: nat, gold: nat, guildName: string, stats: Stats)
  datatype RosterRows = RosterRows(accounts: seq<AccountRow>, characters: seq<CharacterRow>)

  // ---------------------------------------------------------------------------------------------
  // The probe.
  // ---------------------------------------------------------------------------------------------

  /** Where the probe starts: the low 63 bits of the hash, one instead of zero. */
  function Start(hash: Uint64): int {
    if hash % 0x8000_0000_0000_0000 == 0 then 1 else hash % 0x8000_0000_0000_0000
  }

  /** The candidate after this one: the increment of the greatest int64 is negative, which starts again at one. */
  function Next(candidate: int): int {
    if candidate == MAX_ID then 1 else candidate + 1
  }

  /** The candidate that many steps on. */
  function Steps(start: int, d: nat): int {
    (start - 1 + d) % MAX_ID + 1
  }

  /** The first candidate from the start that is not taken. */
  ghost predicate IsProbe(seen: set<int>, start: int, id: int) {
    exists d: nat :: d < MAX_ID && id == Steps(start, d) && id !in seen && forall e: nat | e < d :: Steps(start, e) in seen
  }

  lemma StepsNext(start: int, d: nat)
    requires 1 <= start <= MAX_ID
    ensures Steps(start, 0) == start && Steps(start, d + 1) == Next(Steps(start, d)) && 1 <= Steps(start, d) <= MAX_ID
  {
    var m := start - 1 + d;
    var q, r := m / MAX_ID, m % MAX_ID;
    assert m == q * MAX_ID + r;
    if r == MAX_ID - 1 {
      Residue(m + 1, q + 1, 0);
    } else {
      Residue(m + 1, q, r + 1);
    }
  }

  lemma Residue(n: int, q: int, r: int)
    requires n == q * MAX_ID + r && 0 <= r < MAX_ID
    ensures n % MAX_ID == r
  {
  }

  /** With fewer ids taken than there are, one is free. */
  lemma {:induction false} FreeId(seen: set<int>, n: nat) returns (free: int)
    requires |seen| < n
    ensures 1 <= free <= n && free !in seen
  {
    if n in seen {
      free := FreeId(seen - {n}, n - 1);
    } else {
      free := n;
    }
  }

  lemma ProbeIsUnique(seen: set<int>, start: int, a: int, b: int)
    requires IsProbe(seen, start, a) && IsProbe(seen, start, b)
    ensures a == b
  {
    hide Steps;
    var d: nat :| d < MAX_ID && a == Steps(start, d) && a !in seen && forall e: nat | e < d :: Steps(start, e) in seen;
    var d': nat :| d' < MAX_ID && b == Steps(start, d') && b !in seen && forall e: nat | e < d' :: Steps(start, e) in seen;
  }

  /** How far ahead a free id is: the probe is there after that many steps. */
  function Distance(start: int, free: int): nat
    requires 1 <= start <= MAX_ID && 1 <= free <= MAX_ID
  {
    if free >= start then free - start else free - start + MAX_ID
  }

  lemma DistanceReaches(start: int, free: int)
    requires 1 <= start <= MAX_ID && 1 <= free <= MAX_ID
    ensures Distance(start, free) < MAX_ID && Steps(start, Distance(start, free)) == free
  {
    Residue(start - 1 + Distance(start, free), if free >= start then 0 else 1, free - 1);
  }

  /** Linear probing; it ends because a free id lies somewhere ahead. */
  method StableRosterAccountId(hash: string -> Uint64, normalizedLogin: string, seen: map<int, string>) returns (id: int)
    requires |seen| < MAX_ID
    ensures 1 <= id <= MAX_ID && id !in seen
    ensures IsProbe(seen.Keys, Start(hash(normalizedLogin)), id)
    ensures var low := hash(normalizedLogin) % 0x8000_0000_0000_0000;
      var first := if low == 0 then 1 else low;
      if id >= first then forall v | first <= v < id :: v in seen
      else (forall v | first <= v <= 0x7FFF_FFFF_FFFF_FFFF :: v in seen) && forall v | 1 <= v < id :: v in seen
  {
    hide Steps, Distance;
    var start := Start(hash(normalizedLogin));
    assert |seen.Keys| == |seen|;
    ghost var free := FreeId(seen.Keys, MAX_ID);
    ghost var d: nat := 0;
    DistanceReaches(start, free);
    StepsNext(start, 0);
    id := start;
    while id in seen
      invariant id == Steps(start, d) && 1 <= id <= MAX_ID
      invariant d <= Distance(start, free)
      invariant forall e: nat | e < d :: Steps(start, e) in seen.Keys
      decreases Distance(start, free) - d
    {
      StepsNext(start, d);
      StepsNext(start, d + 1);
      id := Next(id);
      d := d + 1;
    }
    ProbedBefore(seen.Keys, start, d);
  }

  /** The candidates in front of the probe: from the start on, and from one on once it has wrapped. */
  lemma ProbedBefore(seen: set<int>, start: int, d: nat)
    requires 1 <= start <= MAX_ID && d < MAX_ID && forall e: nat | e < d :: Steps(start, e) in seen
    ensures var id := Steps(start, d);
      if id >= start then forall v | start <= v < id :: v in seen
      else (forall v | start <= v <= MAX_ID :: v in seen) && forall v | 1 <= v < id :: v in seen
  {
    var id := Steps(start, d);
    if start - 1 + d < MAX_ID {
      Residue(start - 1 + d, 0, start - 1 + d);
      forall v | start <= v < id ensures v in seen {
        Residue(start - 1 + (v - start), 0, v - 1);
        assert Steps(start, v - start) in seen;
      }
    } else {
      Residue(start - 1 + d, 1, start - 1 + d - MAX_ID);
      forall v | start <= v <= MAX_ID ensures v in seen {
        Residue(start - 1 + (v - start), 0, v - 1);
        assert Steps(start, v - start) in seen;
      }
      forall v | 1 <= v < id ensures v in seen {
        Residue(start - 1 + (v - start + MAX_ID), 1, v - 1);
        assert Steps(start, v - start + MAX_ID) in seen;
      }
    }
  }

  // ---------------------------------------------------------------------------------------------
  // Validation.
  // ---------------------------------------------------------------------------------------------

  /** The roster table has only so many slots for an account. */
  predicate FitsRoster(account: Account, sound: seq<Character> -> bool) {
    ValidAccount(account, sound) && |account.characters| <= PLAYER_SLOTS
  }

  predicate ValidCharacter(c: Character) {
    c.id != 0 && ProperName(c.name) && '\0' !in c.guildName && c.level != 0 && c.mapIndex != 0 && c.gold <= MAX_ID
  }

  // ---------------------------------------------------------------------------------------------
  // The export, account by account.
  // ---------------------------------------------------------------------------------------------

  /** The order of the export: by lower-case login, then by login. */
  predicate RosterBefore(a: Account, b: Account) {
    LoginBefore(a, b) || (ToLower(a.login) == ToLower(b.login) && TextLess(a.login, b.login))
  }

  lemma RosterOrder()
    ensures WeakOrder(RosterBefore)
  {
    forall x: Account, y: Account ensures RosterBefore(x, y) ==> !RosterBefore(y, x) {
      TextLessTotal(ToLower(x.login), ToLower(y.login));
      TextLessTotal(x.login, y.login);
    }
    forall x: Account, y: Account, z: Account | !RosterBefore(x, y) && !RosterBefore(y, z) ensures !RosterBefore(x, z) {
      NotBefore(ToLower(x.login), ToLower(y.login), ToLower(z.login));
      NotBefore(x.login, y.login, z.login);
    }
  }

  function RowOf(c: Character, accountId: int, slot: int): CharacterRow {
    CharacterRow(c.id, accountId, slot, c.name, ToLower(c.name), c.level, c.mapIndex, c.gold, c.guildName, c.stats)
  }

  /** The rows of the characters of one account, empty slots left out. */
  function CharacterRows(characters: seq<Character>, accountId: int): seq<CharacterRow> {
    if characters == [] then []
    else
      var slot := |characters| - 1;
      CharacterRows(characters[..slot], accountId)
        + if IsEmptySlot(characters[slot]) then [] else [RowOf(characters[slot], accountId, slot)]
  }

  function AllCharacterRows(accounts: seq<Account>, rows: seq<AccountRow>): seq<CharacterRow>
    requires |accounts| == |rows|
  {
    if accounts == [] then []
    else
      var last := |accounts| - 1;
      AllCharacterRows(accounts[..last], rows[..last]) + CharacterRows(accounts[last].characters, rows[last].id)
  }

  function Ids(rows: seq<AccountRow>): set<int> {
    set i | 0 <= i < |rows| :: rows[i].id
  }

  /** Ids and lower-case names are unique over the whole roster. */
  predicate DistinctCharacters(rows: seq<CharacterRow>) {
    forall i, j | 0 <= i < j < |rows| :: rows[i].id != rows[j].id && rows[i].nameNormalized != rows[j].nameNormalized
  }

  predicate ValidCharacters(characters: seq<Character>) {
    forall k | 0 <= k < |characters| :: IsEmptySlot(characters[k]) || ValidCharacter(characters[k])
  }

  /** Row i belongs to account i, and its id is the probe of its login among the ids before it. */
  ghost predicate AccountRowsOf(accounts: seq<Account>, rows: seq<AccountRow>, hash: string -> Uint64) {
    && |rows| == |accounts|
    && forall i | 0 <= i < |rows| ::
      && rows[i].login == accounts[i].login && rows[i].loginNormalized == ToLower(accounts[i].login)
      && rows[i].empire == accounts[i].empire
      && IsProbe(Ids(rows[..i]), Start(hash(ToLower(accounts[i].login))), rows[i].id)
  }

  ghost predicate RowsOf(accounts: seq<Account>, r: RosterRows, hash: string -> Uint64) {
    AccountRowsOf(accounts, r.accounts, hash) && r.characters == AllCharacterRows(accounts, r.accounts)
  }

  /** The characters of a roster before any account has an id. */
  function Characters(accounts: seq<Account>): seq<CharacterRow> {
    if accounts == [] then []
    else Characters(accounts[..|accounts| - 1]) + CharacterRows(accounts[|accounts| - 1].characters, 0)
  }

  predicate Exportable(accounts: seq<Account>, sound: seq<Character> -> bool) {
    && DistinctLogins(accounts)
    && (forall i | 0 <= i < |accounts| :: FitsRoster(accounts[i], sound) && ValidCharacters(accounts[i].characters))
    && DistinctCharacters(Characters(accounts))
  }

  /** The same characters, whatever ids their accounts have. */
  predicate SameCharacters(a: seq<CharacterRow>, b: seq<CharacterRow>) {
    |a| == |b| && forall k | 0 <= k < |a| :: a[k].id == b[k].id && a[k].nameNormalized == b[k].nameNormalized
  }

  lemma {:induction false} RowsIgnoreAccount(characters: seq<Character>, x: int, y: int)
    ensures SameCharacters(CharacterRows(characters, x), CharacterRows(characters, y))
  {
    if characters != [] {
      RowsIgnoreAccount(characters[..|characters| - 1], x, y);
    }
  }

  lemma {:induction false} AllRowsIgnoreIds(accounts: seq<Account>, rows: seq<AccountRow>)
    requires |accounts| == |rows|
    ensures SameCharacters(AllCharacterRows(accounts, rows), Characters(accounts))
  {
    hide CharacterRows;
    if accounts != [] {
      var last := |accounts| - 1;
      AllRowsIgnoreIds(accounts[..last], rows[..last]);
      RowsIgnoreAccount(accounts[last].characters, rows[last].id, 0);
    }
  }

  lemma SameDistinct(a: seq<CharacterRow>, b: seq<CharacterRow>)
    requires SameCharacters(a, b)
    ensures DistinctCharacters(a) <==> DistinctCharacters(b)
  {
  }

  lemma DistinctPrefix(a: seq<CharacterRow>, b: seq<CharacterRow>)
    requires DistinctCharacters(a + b)
    ensures DistinctCharacters(a)
  {
    assert forall k | 0 <= k < |a| :: (a + b)[k] == a[k];
  }

  lemma {:induction false} CharacterRowsPrefix(characters: seq<Character>, id: int, k: nat)
    requires k <= |characters|
    ensures CharacterRows(characters[..k], id) <= CharacterRows(characters, id)
  {
    if k < |characters| {
      CharacterRowsPrefix(characters[..|characters| - 1], id, k);
      assert characters[..|characters| - 1][..k] == characters[..k];
    } else {
      assert characters[..k] == characters;
    }
  }

  lemma {:induction false} CharactersPrefix(accounts: seq<Account>, i: nat)
    requires i <= |accounts|
    ensures Characters(accounts[..i]) <= Characters(accounts)
  {
    hide CharacterRows;
    if i < |accounts| {
      CharactersPrefix(accounts[..|accounts| - 1], i);
      assert accounts[..|accounts| - 1][..i] == accounts[..i];
    } else {
      assert accounts[..i] == accounts;
    }
  }

  predicate HasId(rows: seq<CharacterRow>, id: nat) {
    exists k :: 0 <= k < |rows| && rows[k].id == id
  }

  predicate HasName(rows: seq<CharacterRow>, name: string) {
    exists k :: 0 <= k < |rows| && rows[k].nameNormalized == name
  }

  predicate HasLogin(accounts: seq<Account>, login: string) {
    exists i :: 0 <= i < |accounts| && ToLower(accounts[i].login) == login
  }

  lemma HasAppended(rows: seq<CharacterRow>, row: CharacterRow, id: nat, name: string)
    ensures HasId(rows + [row], id) <==> HasId(rows, id) || row.id == id
    ensures HasName(rows + [row], name) <==> HasName(rows, name) || row.nameNormalized == name
  {
    var more := rows + [row];
    assert more[|rows|] == row;
    if HasId(rows, id) {
      var k :| 0 <= k < |rows| && rows[k].id == id;
      assert more[k].id == id;
    }
    if HasName(rows, name) {
      var k :| 0 <= k < |rows| && rows[k].nameNormalized == name;
      assert more[k].nameNormalized == name;
    }
  }

  lemma HasLoginAppended(accounts: seq<Account>, account: Account, login: string)
    ensures HasLogin(accounts + [account], login) <==> HasLogin(accounts, login) || ToLower(account.login) == login
  {
    var more := accounts + [account];
    assert more[|accounts|] == account;
    if HasLogin(accounts, login) {
      var i :| 0 <= i < |accounts| && ToLower(accounts[i].login) == login;
      assert more[i] == accounts[i];
    }
  }

  /** The seen-maps know the ids and names of the rows so far. */
  ghost predicate Seen(rows: seq<CharacterRow>, ids: map<nat, string>, names: map<string, nat>) {
    (forall v :: v in ids <==> HasId(rows, v)) && (forall v :: v in names <==> HasName(rows, v))
  }

  lemma SeeOneMore(rows: seq<CharacterRow>, ids: map<nat, string>, names: map<string, nat>, row: CharacterRow)
    requires Seen(rows, ids, names)
    ensures Seen(rows + [row], ids[row.id := row.name], names[row.nameNormalized := row.id])
    ensures DistinctCharacters(rows) ==>
      (DistinctCharacters(rows + [row]) <==> row.id !in ids && row.nameNormalized !in names)
  {
    DistinctAppend(rows, row);
    hide HasId, HasName, DistinctCharacters;
    forall id: nat ensures HasId(rows + [row], id) <==> HasId(rows, id) || row.id == id {
      HasAppended(rows, row, id, "");
    }
    forall name ensures HasName(rows + [row], name) <==> HasName(rows, name) || row.nameNormalized == name {
      HasAppended(rows, row, 0, name);
    }
  }

  lemma DistinctAppend(rows: seq<CharacterRow>, row: CharacterRow)
    ensures DistinctCharacters(rows) ==>
      (DistinctCharacters(rows + [row]) <==> !HasId(rows, row.id) && !HasName(rows, row.nameNormalized))
  {
    var more := rows + [row];
    assert more[|rows|] == row && forall k | 0 <= k < |rows| :: more[k] == rows[k];
  }

  /** The checks on one character, those against the maps included. */
  method ValidateCharacter(slot: int, c: Character, ids: map<nat, string>, names: map<string, nat>) returns (ok: bool)
    requires 0 <= slot < PLAYER_SLOTS
    ensures ok <==> ValidCharacter(c) && c.id !in ids && ToLower(c.name) !in names
  {
    if slot < 0 || slot >= PLAYER_SLOTS || c.id == 0 {
      return false;
    }
    if TrimSpace(c.name) == "" || c.name != TrimSpace(c.name) || '\0' in c.name || '\0' in c.guildName {
      return false;
    }
    if c.level == 0 || c.mapIndex == 0 || c.gold > MAX_ID {
      return false;
    }
    return !(c.id in ids) && !(ToLower(c.name) in names);
  }

  /** The inner loop of the export. */
  method ExportCharacters(characters: seq<Character>, accountId: int, before: seq<CharacterRow>, seenIds: map<nat, string>, seenNames: map<string, nat>)
    returns (ok: bool, rows: seq<CharacterRow>, ids: map<nat, string>, names: map<string, nat>)
    requires |characters| <= PLAYER_SLOTS && Seen(before, seenIds, seenNames) && DistinctCharacters(before)
    ensures ok <==> ValidCharacters(characters) && DistinctCharacters(before + CharacterRows(characters, accountId))
    ensures ok ==> rows == before + CharacterRows(characters, accountId) && Seen(rows, ids, names)
  {
    hide Seen, DistinctCharacters, ValidCharacter, IsEmptySlot, ToLower;
    rows, ids, names := before, seenIds, seenNames;
    assert characters[..0] == [] && before + [] == before;
    for slot := 0 to |characters|
      invariant rows == before + CharacterRows(characters[..slot], accountId)
      invariant ValidCharacters(characters[..slot]) && DistinctCharacters(rows) && Seen(rows, ids, names)
    {
      var c := characters[slot];
      assert characters[..slot + 1] == characters[..slot] + [c];
      assert characters[..slot + 1][..slot] == characters[..slot];
      if IsEmptySlot(c) {
        continue;
      }
      var row := RowOf(c, accountId, slot);
      SeeOneMore(rows, ids, names, row);
      assert before + CharacterRows(characters[..slot + 1], accountId) == rows + [row];
      var valid := ValidateCharacter(slot, c, ids, names);
      if !valid {
        if DistinctCharacters(before + CharacterRows(characters, accountId)) {
          CharacterRowsPrefix(characters, accountId, slot + 1);
          var all, some := CharacterRows(characters, accountId), CharacterRows(characters[..slot + 1], accountId);
          assert before + all == (before + some) + all[|some|..];
          DistinctPrefix(before + some, all[|some|..]);
        }
        return false, rows, ids, names;
      }
      ids, names, rows := ids[c.id := c.name], names[ToLower(c.name) := c.id], rows + [row];
    }
    assert characters[..|characters|] == characters;
    return true, rows, ids, names;
  }

  method ValidateAccount(account: Account, sound: seq<Character> -> bool) returns (ok: bool)
    ensures ok <==> FitsRoster(account, sound)
  {
    if TrimSpace(account.login) == "" || account.login != TrimSpace(account.login) || '\0' in account.login {
      return false;
    }
    if |account.characters| > PLAYER_SLOTS {
      return false;
    }
    ok := ValidateChannels(account);
    if ok {
      ok := sound(account.characters);
    }
  }

  /** The state of the export after some accounts. */
  ghost predicate Exported(accounts: seq<Account>, r: RosterRows, hash: string -> Uint64, sound: seq<Character> -> bool,
                           logins: map<string, string>, accountIds: map<int, string>) {
    && Exportable(accounts, sound) && RowsOf(accounts, r, hash)
    && (forall v :: v in logins <==> HasLogin(accounts, v))
    && accountIds.Keys == Ids(r.accounts) && |accountIds| <= |accounts|
  }

  lemma RowsOneMore(accounts: seq<Account>, r: RosterRows, hash: string -> Uint64, account: Account, id: int)
    requires RowsOf(accounts, r, hash) && IsProbe(Ids(r.accounts), Start(hash(ToLower(account.login))), id)
    ensures RowsOf(accounts + [account], AddedRows(r, account, id), hash)
    ensures |AddedRows(r, account, id).accounts| == |accounts| + 1
  {
    hide IsProbe, CharacterRows, ToLower, Start, Ids;
    var more, r' := accounts + [account], AddedRows(r, account, id);
    assert more[..|accounts|] == accounts && r'.accounts[..|accounts|] == r.accounts;
    forall i | 0 <= i < |accounts| ensures r'.accounts[..i] == r.accounts[..i] {
    }
  }

  function AddedRows(r: RosterRows, account: Account, id: int): RosterRows {
    RosterRows(r.accounts + [AccountRow(id, account.login, ToLower(account.login), account.empire)],
      r.characters + CharacterRows(account.characters, id))
  }

  lemma ExportableOneMore(accounts: seq<Account>, sound: seq<Character> -> bool, account: Account)
    requires Exportable(accounts, sound) && FitsRoster(account, sound) && ValidCharacters(account.characters)
    requires !HasLogin(accounts, ToLower(account.login)) && DistinctCharacters(Characters(accounts + [account]))
    ensures Exportable(accounts + [account], sound)
  {
    hide FitsRoster, ValidCharacters, DistinctCharacters, Characters, ToLower;
    assert forall i | 0 <= i < |accounts| :: (accounts + [account])[i] == accounts[i];
  }

  /** One more account, with its row and its characters' rows. */
  lemma ExportOneMore(accounts: seq<Account>, r: RosterRows, hash: string -> Uint64, sound: seq<Character> -> bool,
                      logins: map<string, string>, accountIds: map<int, string>, account: Account, id: int)
    requires Exported(accounts, r, hash, sound, logins, accountIds)
    requires FitsRoster(account, sound) && ValidCharacters(account.characters) && ToLower(account.login) !in logins
    requires DistinctCharacters(r.characters + CharacterRows(account.characters, id))
    requires IsProbe(accountIds.Keys, Start(hash(ToLower(account.login))), id)
    ensures Exported(accounts + [account], AddedRows(r, account, id), hash, sound,
      logins[ToLower(account.login) := account.login], accountIds[id := account.login])
  {
    hide IsProbe, DistinctCharacters, FitsRoster, ValidCharacters, CharacterRows, ToLower, Exportable, HasLogin, Start, Ids, AccountRowsOf;
    RowsOneMore(accounts, r, hash, account, id);
    AllRowsIgnoreIds(accounts + [account], AddedRows(r, account, id).accounts);
    SameDistinct(AddedRows(r, account, id).characters, Characters(accounts + [account]));
    ExportableOneMore(accounts, sound, account);
    IdsOfOneMore(r.accounts, AccountRow(id, account.login, ToLower(account.login), account.empire));
    forall v ensures HasLogin(accounts + [account], v) <==> HasLogin(accounts, v) || ToLower(account.login) == v {
      HasLoginAppended(accounts, account, v);
    }
  }

  lemma IdsOfOneMore(rows: seq<AccountRow>, row: AccountRow)
    ensures Ids(rows + [row]) == Ids(rows) + {row.id}
  {
    assert (rows + [row])[|rows|] == row;
    assert forall i | 0 <= i < |rows| :: (rows + [row])[i] == rows[i];
  }

  lemma OneAccountMore(ordered: seq<Account>, i: nat, rows: seq<AccountRow>, id: int)
    requires i < |ordered| && |rows| == i
    ensures SameCharacters(AllCharacterRows(ordered[..i], rows) + CharacterRows(ordered[i].characters, id), Characters(ordered[..i + 1]))
  {
    hide CharacterRows, AllCharacterRows;
    assert ordered[..i + 1][..i] == ordered[..i];
    AllRowsIgnoreIds(ordered[..i], rows);
    RowsIgnoreAccount(ordered[i].characters, id, 0);
  }

  lemma ClashStays(ordered: seq<Account>, i: nat)
    requires i <= |ordered| && !DistinctCharacters(Characters(ordered[..i]))
    ensures !DistinctCharacters(Characters(ordered))
  {
    hide DistinctCharacters, Characters;
    CharactersPrefix(ordered, i);
    var some, all := Characters(ordered[..i]), Characters(ordered);
    assert all == some + all[|some|..];
    if DistinctCharacters(all) {
      DistinctPrefix(some, all[|some|..]);
    }
  }

  /** An account whose characters clash with those before it rules the whole roster out. */
  lemma NotExportable(ordered: seq<Account>, i: nat, r: RosterRows, hash: string -> Uint64, sound: seq<Character> -> bool, id: int)
    requires i < |ordered| && RowsOf(ordered[..i], r, hash)
    requires !DistinctCharacters(r.characters + CharacterRows(ordered[i].characters, id))
    ensures !Exportable(ordered, sound)
  {
    hide DistinctCharacters, CharacterRows, SameCharacters, Characters, AllCharacterRows;
    OneAccountMore(ordered, i, r.accounts, id);
    SameDistinct(r.characters + CharacterRows(ordered[i].characters, id), Characters(ordered[..i + 1]));
    ClashStays(ordered, i + 1);
  }

  datatype RosterError = InvalidAccount

  /** What the loop over the accounts carries along: the rows so far and the seen-maps. */
  datatype Progress = Progress(rows: RosterRows, logins: map<string, string>, accountIds: map<int, string>,
                               ids: map<nat, string>, names: map<string, nat>)

  ghost predicate Reached(accounts: seq<Account>, p: Progress, hash: string -> Uint64, sound: seq<Character> -> bool) {
    Exported(accounts, p.rows, hash, sound, p.logins, p.accountIds) && Seen(p.rows.characters, p.ids, p.names)
  }

  /** The body of the loop over the accounts. */
  method ExportAccount(ghost ordered: seq<Account>, ghost i: nat, account: Account, p: Progress, hash: string -> Uint64, sound: seq<Character> -> bool)
    returns (r: Option<Progress>)
    requires i < |ordered| <= MAX_ID && account == ordered[i] && Reached(ordered[..i], p, hash, sound)
    ensures r.Some? ==> Reached(ordered[..i] + [account], r.value, hash, sound)
    ensures r.None? ==> !Exportable(ordered, sound)
  {
    hide FitsRoster, ValidCharacters, DistinctCharacters, IsProbe, ToLower, CharacterRows, Start, Exported, Seen, Exportable, RowsOf, HasLogin;
    ExportedFacts(ordered[..i], p.rows, hash, sound, p.logins, p.accountIds);
    var valid := ValidateAccount(account, sound);
    if !valid {
      BadAccount(ordered, i, sound);
      return None;
    }
    var login := ToLower(account.login);
    if login in p.logins {
      TwoLogins(ordered, i, sound);
      return None;
    }
    var id := StableRosterAccountId(hash, login, p.accountIds);
    AccountSlots(account, sound);
    var ok, characters, ids, names := ExportCharacters(account.characters, id, p.rows.characters, p.ids, p.names);
    if !ok {
      if ValidCharacters(account.characters) {
        NotExportable(ordered, i, p.rows, hash, sound, id);
      } else {
        BadAccount(ordered, i, sound);
      }
      return None;
    }
    ExportOneMore(ordered[..i], p.rows, hash, sound, p.logins, p.accountIds, account, id);
    var rows := RosterRows(p.rows.accounts + [AccountRow(id, account.login, login, account.empire)], characters);
    return Some(Progress(rows, p.logins[login := account.login], p.accountIds[id := account.login], ids, names));
  }

  /** The loop over the ordered accounts. */
  method ExportOrdered(ordered: seq<Account>, hash: string -> Uint64, sound: seq<Character> -> bool) returns (r: Result<RosterRows, RosterError>)
    requires |ordered| <= MAX_ID
    ensures r.Ok? <==> Exportable(ordered, sound)
    ensures r.Ok? ==> RowsOf(ordered, r.value, hash)
  {
    hide Exported, Seen, Exportable, RowsOf;
    var p := Progress(RosterRows([], []), map[], map[], map[], map[]);
    NothingExported(hash, sound);
    for i := 0 to |ordered|
      invariant Reached(ordered[..i], p, hash, sound)
    {
      var next := ExportAccount(ordered, i, ordered[i], p, hash, sound);
      if next.None? {
        return Err(InvalidAccount);
      }
      assert ordered[..i + 1] == ordered[..i] + [ordered[i]];
      p := next.value;
    }
    assert ordered[..|ordered|] == ordered;
    ExportedFacts(ordered, p.rows, hash, sound, p.logins, p.accountIds);
    return Ok(p.rows);
  }

  lemma NothingExported(hash: string -> Uint64, sound: seq<Character> -> bool)
    ensures Exported([], RosterRows([], []), hash, sound, map[], map[]) && Seen([], map[], map[])
  {
  }

  lemma ExportedFacts(accounts: seq<Account>, r: RosterRows, hash: string -> Uint64, sound: seq<Character> -> bool,
                      logins: map<string, string>, accountIds: map<int, string>)
    requires Exported(accounts, r, hash, sound, logins, accountIds)
    ensures Exportable(accounts, sound) && RowsOf(accounts, r, hash) && DistinctCharacters(r.characters) && |accountIds| <= |accounts|
    ensures forall v :: v in logins <==> HasLogin(accounts, v)
  {
    AllRowsIgnoreIds(accounts, r.accounts);
    SameDistinct(r.characters, Characters(accounts));
  }

  lemma AccountSlots(account: Account, sound: seq<Character> -> bool)
    requires FitsRoster(account, sound)
    ensures |account.characters| <= PLAYER_SLOTS
  {
  }

  lemma BadAccount(ordered: seq<Account>, i: nat, sound: seq<Character> -> bool)
    requires i < |ordered| && (!FitsRoster(ordered[i], sound) || !ValidCharacters(ordered[i].characters))
    ensures !Exportable(ordered, sound)
  {
  }

  lemma TwoLogins(ordered: seq<Account>, i: nat, sound: seq<Character> -> bool)
    requires i < |ordered| && HasLogin(ordered[..i], ToLower(ordered[i].login))
    ensures !Exportable(ordered, sound)
  {
    var k :| 0 <= k < |ordered[..i]| && ToLower(ordered[..i][k].login) == ToLower(ordered[i].login);
    assert ordered[k] == ordered[..i][k];
  }

  // ---------------------------------------------------------------------------------------------
  // Whether a roster can be exported does not depend on the order of its accounts.
  // ---------------------------------------------------------------------------------------------

  lemma {:induction false} CharactersConcat(a: seq<Account>, b: seq<Account>)
    ensures Characters(a + b) == Characters(a) + Characters(b)
  {
    hide CharacterRows;
    if b == [] {
      assert a + b == a;
    } else {
      var n := |b| - 1;
      CharactersConcat(a, b[..n]);
      assert (a + b)[..|a + b| - 1] == a + b[..n];
    }
  }

  lemma CharactersWithout(accounts: seq<Account>, k: nat)
    requires k < |accounts|
    ensures multiset(Characters(accounts)) ==
      multiset(Characters(accounts[..k] + accounts[k + 1..])) + multiset(CharacterRows(accounts[k].characters, 0))
  {
    hide CharacterRows, Characters;
    var front, x, back := accounts[..k], accounts[k], accounts[k + 1..];
    assert accounts == front + ([x] + back);
    CharactersConcat(front, [x] + back);
    CharactersConcat([x], back);
    CharactersConcat(front, back);
    OneAccount(x);
  }

  lemma {:induction false} CharactersPermute(a: seq<Account>, b: seq<Account>)
    requires multiset(a) == multiset(b)
    ensures multiset(Characters(a)) == multiset(Characters(b))
    decreases |a|
  {
    hide Characters, CharacterRows;
    InMultiset(a, b);
    if a != [] {
      assert a[0] in b;
      var k :| 0 <= k < |b| && b[k] == a[0];
      var rest := b[..k] + b[k + 1..];
      OneOut(a, 0);
      OneOut(b, k);
      assert a[..0] + a[1..] == a[1..];
      Cancel(multiset(a[1..]), multiset(rest), a[0]);
      CharactersPermute(a[1..], rest);
      CharactersWithout(a, 0);
      CharactersWithout(b, k);
    }
  }

  lemma OneAccount(account: Account)
    ensures Characters([account]) == CharacterRows(account.characters, 0)
  {
    assert [account][..0] == [];
  }

  lemma ExportablePermutes(a: seq<Account>, b: seq<Account>, sound: seq<Character> -> bool)
    requires multiset(a) == multiset(b) && Exportable(a, sound)
    ensures Exportable(b, sound)
  {
    hide Characters, FitsRoster, ValidCharacters;
    AllApartPermute(a, b, (x: Account, y: Account) => ToLower(x.login) != ToLower(y.login));
    InMultiset(a, b);
    forall i | 0 <= i < |b| ensures FitsRoster(b[i], sound) && ValidCharacters(b[i].characters) {
      assert b[i] in a;
    }
    CharactersPermute(a, b);
    AllApartPermute(Characters(a), Characters(b), (x: CharacterRow, y: CharacterRow) => x.id != y.id && x.nameNormalized != y.nameNormalized);
  }

  lemma ExportableIgnoresOrder(a: seq<Account>, b: seq<Account>, sound: seq<Character> -> bool)
    requires multiset(a) == multiset(b)
    ensures Exportable(a, sound) <==> Exportable(b, sound)
  {
    hide Exportable;
    if Exportable(a, sound) {
      ExportablePermutes(a, b, sound);
    }
    if Exportable(b, sound) {
      ExportablePermutes(b, a, sound);
    }
  }

  /** The order in which the accounts are taken, and what the export comes to. */
  ghost predicate Exports(accounts: seq<Account>, ordered: seq<Account>, r: Result<RosterRows, RosterError>, hash: string -> Uint64, sound: seq<Character> -> bool) {
    && multiset(ordered) == multiset(accounts) && AscendingBy(ordered, RosterBefore)
    && (r.Ok? <==> Exportable(ordered, sound)) && (r.Ok? ==> RowsOf(ordered, r.value, hash))
  }

  // ---------------------------------------------------------------------------------------------
  // Which rows an export has.
  // ---------------------------------------------------------------------------------------------

  lemma {:induction false} SlotsHaveRows(characters: seq<Character>, id: int)
    ensures forall slot | 0 <= slot < |characters| && !IsEmptySlot(characters[slot]) :: var c := characters[slot];
      CharacterRow(c.id, id, slot, c.name, ToLower(c.name), c.level, c.mapIndex, c.gold, c.guildName, c.stats) in CharacterRows(characters, id)
    ensures forall row | row in CharacterRows(characters, id) :: exists slot | 0 <= slot < |characters| && !IsEmptySlot(characters[slot]) ::
      var c := characters[slot];
      row == CharacterRow(c.id, id, slot, c.name, ToLower(c.name), c.level, c.mapIndex, c.gold, c.guildName, c.stats)
  {
    hide IsEmptySlot, ToLower;
    if characters != [] {
      var n := |characters| - 1;
      SlotsHaveRows(characters[..n], id);
      forall slot | 0 <= slot < n ensures characters[..n][slot] == characters[slot] {
      }
      forall row | row in CharacterRows(characters, id)
        ensures exists slot | 0 <= slot < |characters| && !IsEmptySlot(characters[slot]) :: var c := characters[slot];
          row == CharacterRow(c.id, id, slot, c.name, ToLower(c.name), c.level, c.mapIndex, c.gold, c.guildName, c.stats)
      {
        if row in CharacterRows(characters[..n], id) {
          var slot :| 0 <= slot < n && !IsEmptySlot(characters[..n][slot]) && var c := characters[..n][slot];
            row == CharacterRow(c.id, id, slot, c.name, ToLower(c.name), c.level, c.mapIndex, c.gold, c.guildName, c.stats);
          assert characters[slot] == characters[..n][slot];
        } else {
          assert !IsEmptySlot(characters[n]);
        }
      }
    }
  }

  /** Every occupied slot of every account has its row. */
  lemma {:induction false} SlotHasRow(accounts: seq<Account>, rows: seq<AccountRow>, i: nat, slot: nat)
    requires |accounts| == |rows| && i < |accounts| && slot < |accounts[i].characters| && !IsEmptySlot(accounts[i].characters[slot])
    ensures var c := accounts[i].characters[slot];
      CharacterRow(c.id, rows[i].id, slot, c.name, ToLower(c.name), c.level, c.mapIndex, c.gold, c.guildName, c.stats)
        in AllCharacterRows(accounts, rows)
  {
    hide IsEmptySlot, ToLower, CharacterRows;
    var n := |accounts| - 1;
    if i < n {
      SlotHasRow(accounts[..n], rows[..n], i, slot);
    } else {
      SlotsHaveRows(accounts[n].characters, rows[n].id);
    }
  }

  /** Every row is the row of an occupied slot. */
  lemma {:induction false} RowHasSlot(accounts: seq<Account>, rows: seq<AccountRow>, row: CharacterRow) returns (i: nat, slot: nat)
    requires |accounts| == |rows| && row in AllCharacterRows(accounts, rows)
    ensures i < |accounts| && slot < |accounts[i].characters| && !IsEmptySlot(accounts[i].characters[slot])
    ensures var c := accounts[i].characters[slot];
      row == CharacterRow(c.id, rows[i].id, slot, c.name, ToLower(c.name), c.level, c.mapIndex, c.gold, c.guildName, c.stats)
  {
    hide IsEmptySlot, ToLower, CharacterRows;
    var n := |accounts| - 1;
    if row in CharacterRows(accounts[n].characters, rows[n].id) {
      SlotsHaveRows(accounts[n].characters, rows[n].id);
      i := n;
      slot :| slot < |accounts[n].characters| && !IsEmptySlot(accounts[n].characters[slot]) && var c := accounts[n].characters[slot];
        row == CharacterRow(c.id, rows[n].id, slot, c.name, ToLower(c.name), c.level, c.mapIndex, c.gold, c.guildName, c.stats);
    } else {
      i, slot := RowHasSlot(accounts[..n], rows[..n], row);
    }
  }

  /** Row a carries the account: its login, in lower case too, and its empire. */
  predicate RowFor(account: Account, r: RosterRows, a: int) {
    && 0 <= a < |r.accounts| && r.accounts[a].login == account.login
    && r.accounts[a].loginNormalized == ToLower(account.login) && r.accounts[a].empire == account.empire
  }

  /** Row a carries account i, and its id stands in the row of the account's character in the slot. */
  predicate SlotShown(accounts: seq<Account>, r: RosterRows, i: int, a: int, slot: int, row: CharacterRow) {
    && 0 <= i < |accounts| && RowFor(accounts[i], r, a)
    && 0 <= slot < |accounts[i].characters| && !IsEmptySlot(accounts[i].characters[slot])
    && var c := accounts[i].characters[slot];
      row == CharacterRow(c.id, r.accounts[a].id, slot, c.name, ToLower(c.name), c.level, c.mapIndex, c.gold, c.guildName, c.stats)
  }

  /** A row for every account, a row for every occupied slot, and no other rows. */
  ghost predicate Shows(accounts: seq<Account>, r: RosterRows) {
    && |r.accounts| == |accounts|
    && (forall account | account in accounts :: exists a :: RowFor(account, r, a))
    && (forall i, slot | 0 <= i < |accounts| && 0 <= slot < |accounts[i].characters| && !IsEmptySlot(accounts[i].characters[slot]) ::
      exists a, row :: SlotShown(accounts, r, i, a, slot, row) && row in r.characters)
    && (forall row | row in r.characters :: exists i, a, slot :: SlotShown(accounts, r, i, a, slot, row))
  }

  lemma ShowsItself(ordered: seq<Account>, r: RosterRows, hash: string -> Uint64)
    requires RowsOf(ordered, r, hash)
    ensures Shows(ordered, r)
  {
    hide IsEmptySlot, ToLower, AllCharacterRows, IsProbe;
    forall account | account in ordered ensures exists a :: RowFor(account, r, a) {
      var a :| 0 <= a < |ordered| && ordered[a] == account;
      assert RowFor(account, r, a);
    }
    forall i, slot | 0 <= i < |ordered| && 0 <= slot < |ordered[i].characters| && !IsEmptySlot(ordered[i].characters[slot])
      ensures exists a, row :: SlotShown(ordered, r, i, a, slot, row) && row in r.characters
    {
      var a, c := i, ordered[i].characters[slot];
      SlotHasRow(ordered, r.accounts, i, slot);
      assert SlotShown(ordered, r, i, a, slot, CharacterRow(c.id, r.accounts[a].id, slot, c.name, ToLower(c.name), c.level, c.mapIndex, c.gold, c.guildName, c.stats));
    }
    forall row | row in r.characters ensures exists i, a, slot :: SlotShown(ordered, r, i, a, slot, row) {
      var a, slot := RowHasSlot(ordered, r.accounts, row);
      assert SlotShown(ordered, r, a, a, slot, row);
    }
  }

  lemma ShowsInAnyOrder(accounts: seq<Account>, ordered: seq<Account>, r: RosterRows)
    requires multiset(ordered) == multiset(accounts) && Shows(ordered, r)
    ensures Shows(accounts, r)
  {
    hide IsEmptySlot, ToLower, RowFor;
    InMultiset(accounts, ordered);
    InMultiset(ordered, accounts);
    forall i, slot | 0 <= i < |accounts| && 0 <= slot < |accounts[i].characters| && !IsEmptySlot(accounts[i].characters[slot])
      ensures exists a, row :: SlotShown(accounts, r, i, a, slot, row) && row in r.characters
    {
      assert accounts[i] in ordered;
      var k :| 0 <= k < |ordered| && ordered[k] == accounts[i];
      var a, row :| SlotShown(ordered, r, k, a, slot, row) && row in r.characters;
      assert SlotShown(accounts, r, i, a, slot, row);
    }
    forall row | row in r.characters ensures exists i, a, slot :: SlotShown(accounts, r, i, a, slot, row) {
      var k, a, slot :| SlotShown(ordered, r, k, a, slot, row);
      assert ordered[k] in accounts;
      var i :| 0 <= i < |accounts| && accounts[i] == ordered[k];
      assert SlotShown(accounts, r, i, a, slot, row);
    }
  }

  /**
   * Exports the roster: fewer accounts than there are ids, in any order.
   */
  method ExportAccountCharacterRoster(accounts: seq<Account>, hash: string -> Uint64, sound: seq<Character> -> bool)
    returns (r: Result<RosterRows, RosterError>)
    requires |accounts| <= MAX_ID
    ensures exists ordered :: Exports(accounts, ordered, r, hash, sound)
    ensures r.Ok? <==> Exportable(accounts, sound)
    ensures r.Ok? ==> Shows(accounts, r.value)
    ensures r.Ok? ==> forall a, b | 0 <= a < b < |r.value.accounts| ::
      TextLess(r.value.accounts[a].loginNormalized, r.value.accounts[b].loginNormalized)
  {
    hide Exportable, RowsOf, RosterBefore, Shows, TextLess;
    RosterOrder();
    var sorted := SortWith(accounts, RosterBefore);
    InMultiset(accounts, sorted);
    ExportableIgnoresOrder(accounts, sorted, sound);
    r := ExportOrdered(sorted, hash, sound);
    assert Exports(accounts, sorted, r, hash, sound);
    if r.Ok? {
      ShowsItself(sorted, r.value, hash);
      ShowsInAnyOrder(accounts, sorted, r.value);
      RowsAscend(sorted, r.value, hash, sound);
    }
  }

  lemma RowsAscend(ordered: seq<Account>, r: RosterRows, hash: string -> Uint64, sound: seq<Character> -> bool)
    requires AscendingBy(ordered, RosterBefore) && Exportable(ordered, sound) && RowsOf(ordered, r, hash)
    ensures forall a, b | 0 <= a < b < |r.accounts| :: TextLess(r.accounts[a].loginNormalized, r.accounts[b].loginNormalized)
  {
    hide ToLower, AllCharacterRows, IsProbe, Characters, FitsRoster, ValidCharacters, TextLess;
    forall a, b | 0 <= a < b < |r.accounts| ensures TextLess(r.accounts[a].loginNormalized, r.accounts[b].loginNormalized) {
      assert !RosterBefore(ordered[b], ordered[a]) && ToLower(ordered[a].login) != ToLower(ordered[b].login);
      TextLessTotal(ToLower(ordered[a].login), ToLower(ordered[b].login));
    }
  }

  // ---------------------------------------------------------------------------------------------
  // What the export guarantees.
  // ---------------------------------------------------------------------------------------------

  /** The rows are determined by the ordered accounts. */
  lemma {:induction false} AccountRowsUnique(accounts: seq<Account>, a: seq<AccountRow>, b: seq<AccountRow>, hash: string -> Uint64, i: nat)
    requires AccountRowsOf(accounts, a, hash) && AccountRowsOf(accounts, b, hash) && i <= |accounts|
    ensures a[..i] == b[..i]
  {
    hide IsProbe, ToLower;
    if i > 0 {
      AccountRowsUnique(accounts, a, b, hash, i - 1);
      ProbeIsUnique(Ids(a[..i - 1]), Start(hash(ToLower(accounts[i - 1].login))), a[i - 1].id, b[i - 1].id);
      assert a[..i] == a[..i - 1] + [a[i - 1]] && b[..i] == b[..i - 1] + [b[i - 1]];
    }
  }

  lemma SameOrder(a: seq<Account>, b: seq<Account>)
    requires multiset(a) == multiset(b) && AscendingBy(a, RosterBefore) && AscendingBy(b, RosterBefore) && DistinctLogins(a)
    ensures a == b
  {
    forall x, y | x in a && y in a ensures x == y || RosterBefore(x, y) || RosterBefore(y, x) {
      var i :| 0 <= i < |a| && a[i] == x;
      var j :| 0 <= j < |a| && a[j] == y;
      TextLessTotal(ToLower(x.login), ToLower(y.login));
      assert i != j ==> ToLower(a[i].login) != ToLower(a[j].login);
    }
    SortWithIsUnique(a, b, RosterBefore);
  }

  /** Account order plays no part: not in the success, not in the rows, not in any id. */
  lemma ExportIgnoresOrder(a: seq<Account>, b: seq<Account>, oa: seq<Account>, ob: seq<Account>,
                           ra: Result<RosterRows, RosterError>, rb: Result<RosterRows, RosterError>, hash: string -> Uint64, sound: seq<Character> -> bool)
    requires multiset(a) == multiset(b)
    requires Exports(a, oa, ra, hash, sound) && Exports(b, ob, rb, hash, sound)
    ensures ra == rb
  {
    hide RosterBefore, DistinctLogins, AccountRowsOf, AllCharacterRows, Characters;
    if DistinctLogins(oa) {
      SameOrder(oa, ob);
    } else if DistinctLogins(ob) {
      SameOrder(ob, oa);
    }
    if ra.Ok? && rb.Ok? {
      RowsUnique(oa, ra.value, rb.value, hash);
    } else {
      assert ra.error == InvalidAccount && rb.error == InvalidAccount;
    }
  }

  lemma RowsUnique(accounts: seq<Account>, a: RosterRows, b: RosterRows, hash: string -> Uint64)
    requires RowsOf(accounts, a, hash) && RowsOf(accounts, b, hash)
    ensures a == b
  {
    AccountRowsUnique(accounts, a.accounts, b.accounts, hash, |accounts|);
    assert a.accounts == a.accounts[..|accounts|] && b.accounts == b.accounts[..|accounts|];
  }

  /** Every account has a positive id of its own. */
  lemma DistinctIds(accounts: seq<Account>, rows: seq<AccountRow>, hash: string -> Uint64)
    requires AccountRowsOf(accounts, rows, hash)
    ensures forall i, j | 0 <= i < j < |rows| :: rows[i].id != rows[j].id
    ensures forall i | 0 <= i < |rows| :: 1 <= rows[i].id <= MAX_ID
  {
    forall i | 0 <= i < |rows| ensures 1 <= rows[i].id <= MAX_ID && rows[i].id !in Ids(rows[..i]) {
      var start := Start(hash(ToLower(accounts[i].login)));
      var d: nat :| d < MAX_ID && rows[i].id == Steps(start, d) && rows[i].id !in Ids(rows[..i]);
      StepsNext(start, d);
    }
    forall i, j | 0 <= i < j < |rows| ensures rows[i].id != rows[j].id {
      assert rows[..j][i] == rows[i];
    }
  }
}
