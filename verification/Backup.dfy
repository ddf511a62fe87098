/** Reading account files and their manifest. */
module Backup {
  import opened Results
  import opened Ordered
  import opened Integers
  import opened Text
  import opened TextOrder
  import opened Accounts
  import opened Disk

  const MANIFEST_FORMAT := "go-metin2-account-backup-v1"

  /** The number of empty slots is left out of the JSON when it is zero; old manifests never have it. */
  datatype Summary = Summary(accountCount: nat, characterCount: nat, emptySlots: Option<nat>, logins: seq<string>, crashTemps: seq<string>)
  datatype FileEntry = FileEntry(login: string, name: Name, size: int, sha: string)
  datatype Manifest = Manifest(format: string, summary: Summary, files: seq<FileEntry>)

  /** The JSON codecs and the checksum; `sound` and `unique` are the checks on characters, the second only when saving. */
  datatype Codec = Codec(
    encode: Account -> string, decode: string -> Option<Account>,
    encodeManifest: Manifest -> string, decodeManifest: string -> Option<Manifest>,
    sha: string -> string, sound: seq<Character> -> bool, unique: seq<Character> -> bool)

  // ---------------------------------------------------------------------------------------------
  // Channels in files.
  // ---------------------------------------------------------------------------------------------

  /** The channel written beside every character. */
  function ExplicitChannels(characters: seq<Character>, account: Account): map<Uint32, Uint8> {
    if characters == [] then map[]
    else
      var id := characters[|characters| - 1].id;
      var channels := ExplicitChannels(characters[..|characters| - 1], account);
      if id == 0 then channels else channels[id := ChannelForCharacter(account, id)]
  }

  /** What a file of the account holds: saving writes the default channel out. */
  function Explicit(account: Account): Account {
    account.(channels := ExplicitChannels(account.characters, account))
  }

  lemma {:induction false} ExplicitEntries(characters: seq<Character>, account: Account, id: Uint32)
    ensures id in ExplicitChannels(characters, account) <==> id != 0 && HasCharacter(characters, id)
    ensures id in ExplicitChannels(characters, account) ==> ExplicitChannels(characters, account)[id] == ChannelForCharacter(account, id)
  {
    if characters != [] {
      ExplicitEntries(characters[..|characters| - 1], account, id);
      HasCharacterLast(characters, id);
    }
  }

  /** The same account as far as anyone can tell. */
  ghost predicate SameAccount(a: Account, b: Account) {
    && a.login == b.login && a.empire == b.empire && a.characters == b.characters
    && forall id: Uint32 :: ChannelForCharacter(a, id) == ChannelForCharacter(b, id)
  }

  lemma ExplicitIsSame(account: Account, sound: seq<Character> -> bool)
    requires ValidAccount(account, sound)
    ensures SameAccount(Explicit(account), account) && ValidAccount(Explicit(account), sound)
  {
    hide ExplicitChannels;
    forall id: Uint32
      ensures ChannelForCharacter(Explicit(account), id) == ChannelForCharacter(account, id)
      ensures id in Explicit(account).channels ==>
        id != 0 && HasCharacter(account.characters, id) && Explicit(account).channels[id] != 0
    {
      ExplicitEntries(account.characters, account, id);
    }
  }

  // ---------------------------------------------------------------------------------------------
  // Reading.
  // ---------------------------------------------------------------------------------------------

  function FileOf(login: string): Name {
    AccountName(ToLower(login))
  }

  predicate LoadedFor(account: Account, login: string, codec: Codec) {
    ToLower(account.login) == ToLower(login) && ValidAccount(account, codec.sound)
  }

  predicate Loads(files: Dir, login: string, codec: Codec) {
    && ProperName(login) && FileOf(login) in files && codec.decode(files[FileOf(login)]).Some?
    && LoadedFor(codec.decode(files[FileOf(login)]).value, login, codec)
  }

  datatype StoreError = LoginRequired | InvalidAccount | NotFound | InvalidManifest | NotEmpty | FileSystem

  method Load(files: Dir, login: string, codec: Codec) returns (r: Result<Account, StoreError>)
    ensures r.Ok? <==> Loads(files, login, codec)
    ensures r.Ok? ==> codec.decode(files[FileOf(login)]) == Some(r.value)
    ensures r == Err(NotFound) <==> ProperName(login) && FileOf(login) !in files
    ensures r == Err(LoginRequired) <==> TrimSpace(login) == ""
  {
    if TrimSpace(login) == "" {
      return Err(LoginRequired);
    }
    if login != TrimSpace(login) || '\0' in login {
      return Err(InvalidAccount);
    }
    if FileOf(login) !in files {
      return Err(NotFound);
    }
    var account := codec.decode(files[FileOf(login)]);
    if account.None? || !LoadedFor(account.value, login, codec) {
      return Err(InvalidAccount);
    }
    return Ok(account.value);
  }

  /** A file that a listing can read, or passes over. */
  predicate ReadableFile(files: Dir, name: Name, codec: Codec) {
    match name
    case AccountName(login) => ToLower(login) == login && Loads(files, login, codec)
    case OtherName(_, json) => !json
    case _ => true
  }

  ghost predicate Readable(files: Dir, codec: Codec) {
    forall name | name in files :: ReadableFile(files, name, codec)
  }

  /** The account is the content of a file. */
  ghost predicate InFile(files: Dir, account: Account, codec: Codec) {
    FileOf(account.login) in files && codec.decode(files[FileOf(account.login)]) == Some(account)
  }

  lemma OneLogin(accounts: seq<Account>, i: nat, j: nat)
    requires DistinctLogins(accounts) && i < |accounts| && j < |accounts|
    requires ToLower(accounts[i].login) == ToLower(accounts[j].login)
    ensures i == j
  {
  }

  /** The accounts of a directory, every file once, by login. */
  ghost predicate Listed(files: Dir, accounts: seq<Account>, codec: Codec) {
    && Readable(files, codec) && AscendingBy(accounts, LoginBefore) && DistinctLogins(accounts)
    && (forall i | 0 <= i < |accounts| :: InFile(files, accounts[i], codec))
    && forall login | AccountName(login) in files :: codec.decode(files[AccountName(login)]).value in accounts
  }

  lemma ReadableLogin(files: Dir, login: string, codec: Codec)
    requires Readable(files, codec) && AccountName(login) in files
    ensures ToLower(login) == login && Loads(files, login, codec)
    ensures var account := codec.decode(files[AccountName(login)]).value;
      FileOf(account.login) == AccountName(login) && ValidAccount(account, codec.sound)
  {
    assert ReadableFile(files, AccountName(login), codec);
  }

  /** One directory entry: the account it holds, nothing, or an error. */
  method ReadEntry(files: Dir, name: Name, codec: Codec) returns (r: Result<Option<Account>, StoreError>)
    requires name in files
    ensures r.Ok? <==> ReadableFile(files, name, codec)
    ensures r.Ok? ==> (r.value.Some? <==> name.AccountName?)
    ensures r.Ok? && r.value.Some? ==> codec.decode(files[name]) == r.value && FileOf(r.value.value.login) == name
  {
    hide ToLower, TrimSpace;
    match name {
      case ManifestName =>
        return Ok(None);
      case TempName(_) =>
        return Ok(None);
      case OtherName(_, json) =>
        return if json then Err(InvalidAccount) else Ok(None);
      case AccountName(login) =>
        if login == "" || ToLower(login) != login {
          EmptyLogin(files, login, codec);
          return Err(InvalidAccount);
        }
        var account := Load(files, login, codec);
        if account.Err? {
          return Err(account.error);
        }
        LoadedName(account.value, login, codec);
        return Ok(Some(account.value));
    }
  }

  /** The accounts of the entries so far. */
  ghost predicate ReadUpTo(files: Dir, names: seq<Name>, all: seq<Account>, codec: Codec) {
    && DistinctLogins(all)
    && (forall i | 0 <= i < |all| :: InFile(files, all[i], codec) && FileOf(all[i].login) in names)
    && forall l | 0 <= l < |names| && names[l].AccountName? && names[l] in files ::
      codec.decode(files[names[l]]).Some? && codec.decode(files[names[l]]).value in all
  }

  lemma ReadOneMore(files: Dir, names: seq<Name>, all: seq<Account>, codec: Codec, name: Name, account: Account)
    requires ReadUpTo(files, names, all, codec) && name in files && name !in names
    requires codec.decode(files[name]) == Some(account) && FileOf(account.login) == name
    ensures forall i | 0 <= i < |all| :: ToLower(all[i].login) != ToLower(account.login)
    ensures ReadUpTo(files, names + [name], all + [account], codec)
  {
    hide ToLower;
    assert forall i | 0 <= i < |all| :: FileOf(all[i].login) in names && FileOf(all[i].login) != name;
  }

  lemma SkipOneMore(files: Dir, names: seq<Name>, all: seq<Account>, codec: Codec, name: Name)
    requires ReadUpTo(files, names, all, codec) && !name.AccountName?
    ensures ReadUpTo(files, names + [name], all, codec)
  {
    hide ToLower;
  }

  method List(files: Dir, codec: Codec) returns (r: Result<seq<Account>, StoreError>)
    ensures r.Ok? <==> Readable(files, codec)
    ensures r.Ok? ==> Listed(files, r.value, codec)
    ensures r.Ok? ==> forall i, j | 0 <= i < j < |r.value| :: TextLess(ToLower(r.value[i].login), ToLower(r.value[j].login))
  {
    hide TextLess, ToLower, LoginBefore, ReadableFile, ReadUpTo;
    var names := AnyOrder(files.Keys);
    var all: seq<Account> := [];
    NothingRead(files, codec);
    for k := 0 to |names|
      invariant forall l | 0 <= l < k :: ReadableFile(files, names[l], codec)
      invariant ReadUpTo(files, names[..k], all, codec)
    {
      var name := names[k];
      assert name in names && names[..k + 1] == names[..k] + [name];
      var entry := ReadEntry(files, name, codec);
      if entry.Err? {
        return Err(entry.error);
      }
      if entry.value.Some? {
        var account := entry.value.value;
        ReadOneMore(files, names[..k], all, codec, name, account);
        if exists i :: 0 <= i < |all| && ToLower(all[i].login) == ToLower(account.login) {
          assert false;
        }
        all := all + [account];
      } else {
        SkipOneMore(files, names[..k], all, codec, name);
      }
    }
    forall name | name in files ensures ReadableFile(files, name, codec) {
      assert name in names;
    }
    assert names[..|names|] == names;
    LoginOrder();
    var sorted := SortWith(all, LoginBefore);
    AllRead(files, names, all, sorted, codec);
    ReadDistinct(files, names, all, codec);
    LoginsAscend(all, sorted);
    return Ok(sorted);
  }

  lemma ReadDistinct(files: Dir, names: seq<Name>, all: seq<Account>, codec: Codec)
    requires ReadUpTo(files, names, all, codec)
    ensures DistinctLogins(all)
  {
  }

  lemma NothingRead(files: Dir, codec: Codec)
    ensures ReadUpTo(files, [], [], codec)
  {
  }

  lemma AllRead(files: Dir, names: seq<Name>, all: seq<Account>, sorted: seq<Account>, codec: Codec)
    requires ReadUpTo(files, names, all, codec) && (forall name | name in files :: name in names) && Readable(files, codec)
    requires multiset(sorted) == multiset(all) && AscendingBy(sorted, LoginBefore)
    ensures Listed(files, sorted, codec)
  {
    hide ToLower, LoginBefore, ReadableFile;
    ListedSorted(files, all, sorted, codec);
    InMultiset(sorted, all);
    forall login | AccountName(login) in files
      ensures codec.decode(files[AccountName(login)]).Some? && codec.decode(files[AccountName(login)]).value in sorted
    {
      assert AccountName(login) in names;
    }
  }

  lemma EmptyLogin(files: Dir, login: string, codec: Codec)
    ensures login == "" ==> !Loads(files, login, codec)
  {
  }

  lemma LoadedName(account: Account, login: string, codec: Codec)
    requires LoadedFor(account, login, codec) && ToLower(login) == login
    ensures FileOf(account.login) == AccountName(login)
  {
  }

  lemma ListedSorted(files: Dir, all: seq<Account>, sorted: seq<Account>, codec: Codec)
    requires multiset(sorted) == multiset(all) && DistinctLogins(all)
    requires forall i | 0 <= i < |all| :: InFile(files, all[i], codec)
    ensures DistinctLogins(sorted) && forall i | 0 <= i < |sorted| :: InFile(files, sorted[i], codec)
  {
    hide ToLower, InFile;
    InMultiset(sorted, all);
    forall i | 0 <= i < |sorted| ensures InFile(files, sorted[i], codec) {
      assert sorted[i] in all;
    }
    forall i, j | 0 <= i < j < |sorted| ensures ToLower(sorted[i].login) != ToLower(sorted[j].login) {
      assert sorted[i] in all && sorted[j] in all;
      var k :| 0 <= k < |all| && all[k] == sorted[i];
      var l :| 0 <= l < |all| && all[l] == sorted[j];
      if k == l {
        Twice(sorted, i, j);
        DistinctIsOnce(all);
        OnceEachElement(all, all[k]);
        assert false;
      }
    }
  }

  lemma DistinctIsOnce(accounts: seq<Account>)
    requires DistinctLogins(accounts)
    ensures NoRepeats(accounts)
  {
  }

  /** A directory lists in one way. */
  lemma ListedOnce(files: Dir, a: seq<Account>, b: seq<Account>, codec: Codec)
    requires Listed(files, a, codec) && Listed(files, b, codec)
    ensures a == b
  {
    SortedLogins(a, b, files, codec);
  }

  lemma SortedLogins(a: seq<Account>, b: seq<Account>, files: Dir, codec: Codec)
    requires Listed(files, a, codec) && Listed(files, b, codec)
    ensures a == b
  {
    hide ToLower, Readable;
    forall i | 0 <= i < |a| ensures a[i] in b {
      assert InFile(files, a[i], codec);
    }
    forall i | 0 <= i < |b| ensures b[i] in a {
      assert InFile(files, b[i], codec);
    }
    SameSortedAccounts(a, b);
  }

  lemma SameSortedAccounts(a: seq<Account>, b: seq<Account>)
    requires AscendingBy(a, LoginBefore) && AscendingBy(b, LoginBefore) && DistinctLogins(a) && DistinctLogins(b)
    requires (forall i | 0 <= i < |a| :: a[i] in b) && forall i | 0 <= i < |b| :: b[i] in a
    ensures a == b
  {
    hide ToLower;
    DistinctIsOnce(a);
    DistinctIsOnce(b);
    SameElements(a, b);
    forall x, y | x in a && y in a ensures x == y || LoginBefore(x, y) || LoginBefore(y, x) {
      var i :| 0 <= i < |a| && a[i] == x;
      var j :| 0 <= j < |a| && a[j] == y;
      assert i < j ==> ToLower(a[i].login) != ToLower(a[j].login);
      assert j < i ==> ToLower(a[j].login) != ToLower(a[i].login);
      TextLessTotal(ToLower(x.login), ToLower(y.login));
    }
    SortWithIsUnique(a, b, LoginBefore);
  }

  // ---------------------------------------------------------------------------------------------
  // The manifest.
  // ---------------------------------------------------------------------------------------------

  function EmptySlots(characters: seq<Character>): nat {
    if characters == [] then 0
    else EmptySlots(characters[..|characters| - 1]) + if IsEmptySlot(characters[|characters| - 1]) then 1 else 0
  }

  function CharacterTotal(accounts: seq<Account>): nat {
    if accounts == [] then 0 else CharacterTotal(accounts[..|accounts| - 1]) + |accounts[|accounts| - 1].characters|
  }

  function EmptyTotal(accounts: seq<Account>): nat {
    if accounts == [] then 0 else EmptyTotal(accounts[..|accounts| - 1]) + EmptySlots(accounts[|accounts| - 1].characters)
  }

  function Logins(accounts: seq<Account>): (logins: seq<string>)
    ensures |logins| == |accounts| && forall i | 0 <= i < |accounts| :: logins[i] == accounts[i].login
  {
    if accounts == [] then [] else Logins(accounts[..|accounts| - 1]) + [accounts[|accounts| - 1].login]
  }

  function SummaryOf(accounts: seq<Account>): Summary {
    Summary(|accounts|, CharacterTotal(accounts), if EmptyTotal(accounts) == 0 then None else Some(EmptyTotal(accounts)), Logins(accounts), [])
  }

  method SummarizeAccounts(accounts: seq<Account>) returns (summary: Summary)
    ensures summary == SummaryOf(accounts)
  {
    var characters, empty: nat, logins: seq<string> := 0, 0, [];
    for i := 0 to |accounts|
      invariant characters == CharacterTotal(accounts[..i]) && empty == EmptyTotal(accounts[..i]) && logins == Logins(accounts[..i])
    {
      assert accounts[..i + 1][..i] == accounts[..i];
      logins := logins + [accounts[i].login];
      characters := characters + |accounts[i].characters|;
      ghost var before := empty;
      var own := accounts[i].characters;
      for c := 0 to |own|
        invariant empty == before + EmptySlots(own[..c])
      {
        assert own[..c + 1][..c] == own[..c];
        if IsEmptySlot(own[c]) {
          empty := empty + 1;
        }
      }
      assert own[..|own|] == own;
    }
    assert accounts[..|accounts|] == accounts;
    return Summary(|accounts|, characters, if empty == 0 then None else Some(empty), logins, []);
  }

  /** One more account: its characters and its empty slots are added, its login comes last. */
  lemma SummaryGrows(accounts: seq<Account>, account: Account, count: nat)
    requires var empty := SummaryOf(accounts).emptySlots; count == if empty.Some? then empty.value else 0
    ensures SummaryOf([]) == Summary(0, 0, None, [], [])
    ensures var total := count + |set i | 0 <= i < |account.characters| && IsEmptySlot(account.characters[i])|;
      SummaryOf(accounts + [account]) ==
        Summary(|accounts| + 1, SummaryOf(accounts).characterCount + |account.characters|, if total == 0 then None else Some(total),
          SummaryOf(accounts).logins + [account.login], [])
  {
    hide IsEmptySlot;
    assert (accounts + [account])[..|accounts|] == accounts;
    EmptySlotsCounted(account.characters);
  }

  lemma {:induction false} EmptySlotsCounted(characters: seq<Character>)
    ensures EmptySlots(characters) == |set i | 0 <= i < |characters| && IsEmptySlot(characters[i])|
  {
    hide IsEmptySlot;
    var empty := set i | 0 <= i < |characters| && IsEmptySlot(characters[i]);
    if characters != [] {
      var n := |characters| - 1;
      EmptySlotsCounted(characters[..n]);
      var front := set i | 0 <= i < |characters[..n]| && IsEmptySlot(characters[..n][i]);
      assert empty == front + if IsEmptySlot(characters[n]) then {n} else {};
    }
  }

  /** Equal but for the empty slots, which an old manifest may leave out. */
  predicate SummaryFits(got: Summary, want: Summary) {
    && got.accountCount == want.accountCount && got.characterCount == want.characterCount
    && (got.emptySlots.Some? ==> got.emptySlots.value == if want.emptySlots.Some? then want.emptySlots.value else 0)
    && got.logins == want.logins && got.crashTemps == want.crashTemps
  }

  predicate EntryIsOf(entry: FileEntry, files: Dir, account: Account, codec: Codec) {
    && entry.login == account.login && entry.name == FileOf(account.login) && entry.name in files
    && entry.size == |files[entry.name]| && entry.sha == codec.sha(files[entry.name])
  }

  predicate EntryFits(entry: FileEntry, files: Dir, accounts: seq<Account>, codec: Codec) {
    exists i :: 0 <= i < |accounts| && EntryIsOf(entry, files, accounts[i], codec)
  }

  predicate DistinctNames(entries: seq<FileEntry>) {
    forall i, j | 0 <= i < j < |entries| :: entries[i].name != entries[j].name
  }

  /** Nothing in the directory but the manifest, the files it lists and temporary files. */
  predicate Closed(files: Dir, entries: seq<FileEntry>) {
    forall name | name in files && !name.ManifestName? && !name.TempName? :: exists i :: 0 <= i < |entries| && entries[i].name == name
  }

  predicate ManifestFits(files: Dir, accounts: seq<Account>, codec: Codec, closed: bool) {
    && ManifestName in files && codec.decodeManifest(files[ManifestName]).Some?
    && var manifest := codec.decodeManifest(files[ManifestName]).value;
    && manifest.format == MANIFEST_FORMAT && SummaryFits(manifest.summary, SummaryOf(accounts))
    && |manifest.files| == |accounts| && DistinctNames(manifest.files)
    && (forall i | 0 <= i < |manifest.files| :: EntryFits(manifest.files[i], files, accounts, codec))
    && (closed ==> Closed(files, manifest.files))
  }

  /** The account a login of the manifest refers to. */
  method FindAccount(accounts: seq<Account>, login: string) returns (at: Option<nat>)
    requires DistinctLogins(accounts)
    ensures at.Some? ==> at.value < |accounts| && ToLower(accounts[at.value].login) == ToLower(login)
    ensures at.None? ==> forall i | 0 <= i < |accounts| :: ToLower(accounts[i].login) != ToLower(login)
    ensures forall i | 0 <= i < |accounts| && ToLower(accounts[i].login) == ToLower(login) :: at == Some(i)
  {
    hide ToLower;
    var byLogin: map<string, nat> := map[];
    for i := 0 to |accounts|
      invariant forall v | v in byLogin :: byLogin[v] < i && ToLower(accounts[byLogin[v]].login) == v
      invariant forall k | 0 <= k < i :: ToLower(accounts[k].login) in byLogin
    {
      byLogin := byLogin[ToLower(accounts[i].login) := i];
    }
    if ToLower(login) !in byLogin {
      return None;
    }
    return Some(byLogin[ToLower(login)]);
  }

  method CheckEntries(files: Dir, accounts: seq<Account>, entries: seq<FileEntry>, codec: Codec) returns (ok: bool)
    requires DistinctLogins(accounts)
    ensures ok <==> DistinctNames(entries) && forall i | 0 <= i < |entries| :: EntryFits(entries[i], files, accounts, codec)
  {
    hide ToLower;
    var seen: set<Name> := {};
    for e := 0 to |entries|
      invariant DistinctNames(entries[..e]) && forall i | 0 <= i < e :: EntryFits(entries[i], files, accounts, codec)
      invariant forall name :: name in seen <==> exists i :: 0 <= i < e && entries[i].name == name
    {
      var entry := entries[e];
      var at := FindAccount(accounts, entry.login);
      if at.None? {
        assert !EntryFits(entry, files, accounts, codec);
        return false;
      }
      if !EntryIsOf(entry, files, accounts[at.value], codec) {
        assert !EntryFits(entry, files, accounts, codec);
        return false;
      }
      if entry.name in seen {
        return false;
      }
      seen := seen + {entry.name};
    }
    assert entries[..|entries|] == entries;
    return true;
  }

  method ValidateBackupManifest(files: Dir, accounts: seq<Account>, codec: Codec, closed: bool) returns (ok: bool)
    requires DistinctLogins(accounts)
    ensures ok <==> ManifestFits(files, accounts, codec, closed)
  {
    hide EntryFits, DistinctNames;
    if ManifestName !in files {
      return false;
    }
    var manifest := codec.decodeManifest(files[ManifestName]);
    if manifest.None? || manifest.value.format != MANIFEST_FORMAT {
      return false;
    }
    var want := SummarizeAccounts(accounts);
    if !SummaryFits(manifest.value.summary, want) || |manifest.value.files| != |accounts| {
      return false;
    }
    var entries := CheckEntries(files, accounts, manifest.value.files, codec);
    if !entries {
      return false;
    }
    return !closed || Closed(files, manifest.value.files);
  }

  /** Read as a backup, the directory gives these accounts: its manifest fits them and covers every file. */
  ghost predicate Validates(files: Dir, accounts: seq<Account>, codec: Codec) {
    Listed(files, accounts, codec) && ManifestFits(files, accounts, codec, true)
  }

  /** Reads a backup: its accounts and a manifest that fits them, in a closed directory. */
  method LoadBackup(files: Dir, codec: Codec) returns (r: Result<seq<Account>, StoreError>)
    ensures r.Ok? ==> Validates(files, r.value, codec)
    ensures forall accounts | Validates(files, accounts, codec) :: r == Ok(accounts)
  {
    hide Listed, ManifestFits;
    r := List(files, codec);
    if r.Err? {
      NotListed(files, codec);
      return;
    }
    ListedDistinct(files, r.value, codec);
    forall accounts | Listed(files, accounts, codec) ensures accounts == r.value {
      ListedOnce(files, accounts, r.value, codec);
    }
    var fits := ValidateBackupManifest(files, r.value, codec, true);
    if !fits {
      return Err(InvalidManifest);
    }
  }

  lemma NotListed(files: Dir, codec: Codec)
    requires !Readable(files, codec)
    ensures forall accounts :: !Listed(files, accounts, codec)
  {
  }

  lemma ListedDistinct(files: Dir, accounts: seq<Account>, codec: Codec)
    requires Listed(files, accounts, codec)
    ensures DistinctLogins(accounts)
  {
  }
}
