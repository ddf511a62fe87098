/** Saving, backing up and restoring accounts. */
module BackupStore {
  import opened Results
  import opened Ordered
  import opened Integers
  import opened Text
  import opened TextOrder
  import opened Accounts
  import opened Disk
  import opened Backup

  predicate Savable(account: Account, codec: Codec) {
    ValidAccount(account, codec.sound) && codec.unique(account.characters)
  }

  /** The account that a save writes: completed from the file it replaces; None when that file cannot be read. */
  function SavedOver(files: Dir, account: Account, codec: Codec): Option<Account> {
    if FileOf(account.login) !in files then Some(account)
    else if Loads(files, account.login, codec) then
      var previous := codec.decode(files[FileOf(account.login)]).value;
      Some(account.(channels := Preserved(account.characters, account.channels, previous)))
    else None
  }

  /**
   * A save writes the account as given. Beside a character stands the channel it was given, or else the one it has in
   * the file, or else 1. A file that does not load stops the save.
   */
  lemma SavedOverReads(files: Dir, account: Account, codec: Codec, id: Uint32)
    requires ValidAccount(account, codec.sound)
    ensures SavedOver(files, account, codec).None? <==> AccountName(ToLower(account.login)) in files && !Loads(files, account.login, codec)
    ensures SavedOver(files, account, codec).Some? ==>
      var saved := Explicit(SavedOver(files, account, codec).value);
      && saved.login == account.login && saved.empire == account.empire && saved.characters == account.characters
      && (id in saved.channels <==> id != 0 && HasCharacter(account.characters, id))
      && (id in saved.channels ==>
            saved.channels[id] ==
            if id in account.channels then account.channels[id]
            else if AccountName(ToLower(account.login)) !in files then 1
            else
              var previous := codec.decode(files[AccountName(ToLower(account.login))]).value;
              if HasCharacter(previous.characters, id) && id in previous.channels && previous.channels[id] != 0 then previous.channels[id]
              else 1)
  {
    hide ToLower, Preserved, ExplicitChannels, HasCharacter;
    var saved := SavedOver(files, account, codec);
    if saved.Some? {
      ExplicitEntries(account.characters, saved.value, id);
      if FileOf(account.login) in files {
        PreservedEntries(account.characters, account.channels, codec.decode(files[FileOf(account.login)]).value, id);
      }
    }
  }

  /** The stable files while and after the text of an account is saved: the file first, then the stale manifest. */
  ghost predicate SaveState(before: Dir, after: Dir, name: Name, text: string, done: bool) {
    if done then after == before[name := text] - {ManifestName}
    else after == before || after == before[name := text] || after == before[name := text] - {ManifestName}
  }

  lemma StableRemove(files: Dir, name: Name)
    requires !name.TempName?
    ensures Stable(files - {name}) == Stable(files) - {name}
  {
  }

  method Save(disk: Directory, account: Account, codec: Codec) returns (r: Result<(), StoreError>)
    requires disk.Valid()
    modifies disk
    ensures disk.Valid()
    ensures !Savable(account, codec) || SavedOver(old(disk.files), account, codec).None? ==> r.Err? && disk.files == old(disk.files)
    ensures Savable(account, codec) && SavedOver(old(disk.files), account, codec).Some? ==>
      SaveState(Stable(old(disk.files)), Stable(disk.files), FileOf(account.login),
        codec.encode(Explicit(SavedOver(old(disk.files), account, codec).value)), r.Ok?)
    ensures !old(disk.alive) ==> r.Err? && !disk.alive
    ensures old(disk.Reliable()) ==> disk.Reliable()
    ensures old(disk.Reliable()) && Savable(account, codec) && SavedOver(old(disk.files), account, codec).Some? ==> r.Ok?
  {
    hide Loads, Preserved, ToLower, ExplicitChannels, ValidChannels, Stable;
    if !Savable(account, codec) {
      return Err(InvalidAccount);
    }
    var saved := account;
    var previous := Load(disk.files, account.login, codec);
    if previous.Ok? {
      saved := account.(channels := Preserved(account.characters, account.channels, previous.value));
    } else if previous != Err(NotFound) {
      return Err(previous.error);
    }
    var written := disk.WriteAtomically(FileOf(account.login), codec.encode(Explicit(saved)));
    if !written {
      return Err(FileSystem);
    }
    StableRemove(disk.files, ManifestName);
    var removed := disk.Remove(ManifestName);
    if !removed {
      return Err(FileSystem);
    }
    var synced := disk.Sync();
    if !synced {
      return Err(FileSystem);
    }
    return Ok(());
  }

  // ---------------------------------------------------------------------------------------------
  // The state of a backup at every moment.
  // ---------------------------------------------------------------------------------------------

  function TextOf(account: Account, codec: Codec): string {
    codec.encode(Explicit(account))
  }

  function EntryOf(account: Account, codec: Codec): FileEntry {
    FileEntry(account.login, FileOf(account.login), |TextOf(account, codec)|, codec.sha(TextOf(account, codec)))
  }

  function EntriesOf(accounts: seq<Account>, codec: Codec): (entries: seq<FileEntry>)
    ensures |entries| == |accounts| && forall i | 0 <= i < |accounts| :: entries[i] == EntryOf(accounts[i], codec)
  {
    if accounts == [] then [] else EntriesOf(accounts[..|accounts| - 1], codec) + [EntryOf(accounts[|accounts| - 1], codec)]
  }

  function ManifestOf(accounts: seq<Account>, codec: Codec): Manifest {
    Manifest(MANIFEST_FORMAT, SummaryOf(accounts), EntriesOf(accounts, codec))
  }

  /** What the manifest says of every account, and of all of them. */
  lemma ManifestReads(accounts: seq<Account>, codec: Codec, i: nat)
    requires i < |accounts|
    ensures var manifest, text := ManifestOf(accounts, codec), codec.encode(Explicit(accounts[i]));
      && manifest.format == "go-metin2-account-backup-v1" && manifest.summary == SummaryOf(accounts) && |manifest.files| == |accounts|
      && manifest.files[i] == FileEntry(accounts[i].login, AccountName(ToLower(accounts[i].login)), |text|, codec.sha(text))
  {
    hide SummaryOf, Explicit, ToLower;
  }

  /**
   * What is asked of the codecs. Of all accounts and manifests only these are ever written by a backup: what was read
   * from a file and passed the checks, with its channels written out, and the manifest of a directory that lists.
   */
  ghost predicate Faithful(codec: Codec) {
    && (forall text | codec.decode(text).Some? && ValidAccount(codec.decode(text).value, codec.sound) ::
          codec.decode(TextOf(codec.decode(text).value, codec)) == Some(Explicit(codec.decode(text).value)))
    && forall files, accounts | Listed(files, accounts, codec) ::
          codec.decodeManifest(codec.encodeManifest(ManifestOf(accounts, codec))) == Some(ManifestOf(accounts, codec))
  }

  lemma ListedReadsBack(src: Dir, accounts: seq<Account>, codec: Codec, i: nat)
    requires Faithful(codec) && Listed(src, accounts, codec) && i < |accounts|
    ensures codec.decode(TextOf(accounts[i], codec)) == Some(Explicit(accounts[i]))
  {
    hide ToLower, ExplicitChannels, ValidAccount;
    ListedIsValid(src, accounts, codec, i);
    assert InFile(src, accounts[i], codec);
  }

  lemma ListedIsValid(src: Dir, accounts: seq<Account>, codec: Codec, i: nat)
    requires Listed(src, accounts, codec) && i < |accounts|
    ensures ValidAccount(accounts[i], codec.sound)
  {
    hide ToLower, Loads, LoadedFor, ValidAccount;
    assert InFile(src, accounts[i], codec);
    ReadableLogin(src, ToLower(accounts[i].login), codec);
  }

  /** One file of a backup in the making. */
  ghost predicate BackupFile(files: Dir, name: Name, accounts: seq<Account>, codec: Codec)
    requires name in files
  {
    match name
    case AccountName(_) => exists i :: 0 <= i < |accounts| && name == FileOf(accounts[i].login) && files[name] == TextOf(accounts[i], codec)
    case ManifestName => files[name] == codec.encodeManifest(ManifestOf(accounts, codec))
    case TempName(_) => true
    case OtherName(_, _) => false
  }

  /** Every file belongs to the backup of these accounts, though files may still be missing. */
  ghost predicate Partial(files: Dir, accounts: seq<Account>, codec: Codec) {
    forall name | name in files :: BackupFile(files, name, accounts, codec)
  }

  /** Nothing is missing. */
  ghost predicate Complete(files: Dir, accounts: seq<Account>, codec: Codec) {
    Partial(files, accounts, codec) && ManifestName in files && forall i | 0 <= i < |accounts| :: FileOf(accounts[i].login) in files
  }

  lemma PartialIsStable(files: Dir, accounts: seq<Account>, codec: Codec)
    ensures Partial(files, accounts, codec) <==> Partial(Stable(files), accounts, codec)
  {
    forall name | name in files ensures name in Stable(files) || name.TempName? {
    }
    if Partial(Stable(files), accounts, codec) {
      forall name | name in files ensures BackupFile(files, name, accounts, codec) {
        assert !name.TempName? ==> BackupFile(Stable(files), name, accounts, codec);
      }
    }
    if Partial(files, accounts, codec) {
      forall name | name in Stable(files) ensures BackupFile(Stable(files), name, accounts, codec) {
        assert BackupFile(files, name, accounts, codec);
      }
    }
  }

  lemma PartialRemoved(files: Dir, name: Name, accounts: seq<Account>, codec: Codec)
    requires Partial(files, accounts, codec)
    ensures Partial(files - {name}, accounts, codec)
  {
    forall n | n in files - {name} ensures BackupFile(files - {name}, n, accounts, codec) {
      assert BackupFile(files, n, accounts, codec);
    }
  }

  lemma PartialWritten(files: Dir, accounts: seq<Account>, i: nat, codec: Codec)
    requires Partial(files, accounts, codec) && i < |accounts|
    ensures Partial(files[FileOf(accounts[i].login) := TextOf(accounts[i], codec)], accounts, codec)
  {
    hide ToLower;
    var after := files[FileOf(accounts[i].login) := TextOf(accounts[i], codec)];
    forall n | n in after ensures BackupFile(after, n, accounts, codec) {
      assert n != FileOf(accounts[i].login) ==> BackupFile(files, n, accounts, codec);
    }
  }

  lemma PartialManifest(files: Dir, accounts: seq<Account>, codec: Codec)
    requires Partial(files, accounts, codec)
    ensures Partial(files[ManifestName := codec.encodeManifest(ManifestOf(accounts, codec))], accounts, codec)
  {
    var after := files[ManifestName := codec.encodeManifest(ManifestOf(accounts, codec))];
    forall n | n in after ensures BackupFile(after, n, accounts, codec) {
      assert n != ManifestName ==> BackupFile(files, n, accounts, codec);
    }
  }

  /** After saving the first accounts: their files, and no manifest. */
  ghost predicate SavedUpTo(files: Dir, accounts: seq<Account>, n: nat, codec: Codec)
    requires n <= |accounts|
  {
    && Partial(files, accounts, codec) && ManifestName !in files
    && (forall i | 0 <= i < n :: FileOf(accounts[i].login) in files)
    && forall i | n <= i < |accounts| :: FileOf(accounts[i].login) !in files
  }

  lemma StableNames(files: Dir)
    ensures forall name: Name | !name.TempName? :: name in files <==> name in Stable(files)
  {
  }

  lemma UpToIsStable(files: Dir, accounts: seq<Account>, n: nat, codec: Codec)
    requires n <= |accounts|
    ensures SavedUpTo(files, accounts, n, codec) <==> SavedUpTo(Stable(files), accounts, n, codec)
  {
    hide Partial, Stable, ToLower;
    PartialIsStable(files, accounts, codec);
    StableNames(files);
  }

  lemma CompleteIsStable(files: Dir, accounts: seq<Account>, codec: Codec)
    ensures Complete(files, accounts, codec) <==> Complete(Stable(files), accounts, codec)
  {
    hide Partial, Stable, ToLower;
    PartialIsStable(files, accounts, codec);
    StableNames(files);
  }

  /** The next account is new to the directory, so nothing is merged into it. */
  lemma SaveNext(before: Dir, after: Dir, accounts: seq<Account>, n: nat, codec: Codec, done: bool)
    requires n < |accounts| && DistinctLogins(accounts) && SavedUpTo(before, accounts, n, codec)
    requires SaveState(Stable(before), Stable(after), FileOf(accounts[n].login), TextOf(accounts[n], codec), done)
    ensures Partial(after, accounts, codec)
    ensures done ==> SavedUpTo(after, accounts, n + 1, codec)
  {
    hide ToLower, ExplicitChannels, Stable, Partial, TextOf;
    UpToIsStable(before, accounts, n, codec);
    PartialWritten(Stable(before), accounts, n, codec);
    PartialRemoved(Stable(before)[FileOf(accounts[n].login) := TextOf(accounts[n], codec)], ManifestName, accounts, codec);
    PartialIsStable(after, accounts, codec);
    if done {
      forall i | n < i < |accounts| ensures FileOf(accounts[i].login) != FileOf(accounts[n].login) {
        assert ToLower(accounts[n].login) != ToLower(accounts[i].login);
      }
      UpToIsStable(after, accounts, n + 1, codec);
    }
  }

  /** Removes the files of the accounts tried so far, then the manifest; its own failures are only reported. */
  method Rollback(disk: Directory, accounts: seq<Account>, n: nat, codec: Codec)
    requires disk.Valid() && n <= |accounts| && Partial(disk.files, accounts, codec)
    modifies disk
    ensures disk.Valid() && Partial(disk.files, accounts, codec)
    ensures !old(disk.alive) ==> disk.files == old(disk.files)
    ensures old(disk.Reliable()) ==>
      forall name | name in disk.files :: name in old(disk.files) && name != ManifestName && forall i | 0 <= i < n :: name != FileOf(accounts[i].login)
  {
    hide Partial;
    for i := 0 to n
      invariant old(disk.Reliable()) ==> disk.Reliable()
      invariant old(disk.Reliable()) ==>
        forall name | name in disk.files :: name in old(disk.files) && forall k | 0 <= k < i :: name != FileOf(accounts[k].login)
      invariant disk.Valid() && Partial(disk.files, accounts, codec)
      invariant !old(disk.alive) ==> !disk.alive && disk.files == old(disk.files)
    {
      PartialRemoved(disk.files, FileOf(accounts[i].login), accounts, codec);
      var removed := disk.Remove(FileOf(accounts[i].login));
    }
    PartialRemoved(disk.files, ManifestName, accounts, codec);
    var manifest := disk.Remove(ManifestName);
    var synced := disk.Sync();
  }

  method BuildManifest(files: Dir, accounts: seq<Account>, codec: Codec) returns (manifest: Option<Manifest>)
    requires forall i | 0 <= i < |accounts| :: FileOf(accounts[i].login) in files && files[FileOf(accounts[i].login)] == TextOf(accounts[i], codec)
    ensures manifest == Some(ManifestOf(accounts, codec))
  {
    hide ToLower, ExplicitChannels;
    var summary := SummarizeAccounts(accounts);
    var entries: seq<FileEntry> := [];
    for i := 0 to |accounts|
      invariant entries == EntriesOf(accounts[..i], codec)
    {
      var name := FileOf(accounts[i].login);
      if name !in files {
        assert false;
      }
      assert accounts[..i + 1] == accounts[..i] + [accounts[i]];
      assert EntriesOf(accounts[..i + 1], codec) == EntriesOf(accounts[..i], codec) + [EntryOf(accounts[i], codec)];
      entries := entries + [FileEntry(accounts[i].login, name, |files[name]|, codec.sha(files[name]))];
    }
    assert accounts[..|accounts|] == accounts;
    return Some(Manifest(MANIFEST_FORMAT, summary, entries));
  }

  lemma SavedTexts(files: Dir, accounts: seq<Account>, codec: Codec)
    requires Partial(files, accounts, codec) && DistinctLogins(accounts)
    ensures forall i | 0 <= i < |accounts| && FileOf(accounts[i].login) in files :: files[FileOf(accounts[i].login)] == TextOf(accounts[i], codec)
  {
    hide ToLower, ExplicitChannels;
    forall i | 0 <= i < |accounts| && FileOf(accounts[i].login) in files
      ensures files[FileOf(accounts[i].login)] == TextOf(accounts[i], codec)
    {
      assert BackupFile(files, FileOf(accounts[i].login), accounts, codec);
      var k :| 0 <= k < |accounts| && FileOf(accounts[i].login) == FileOf(accounts[k].login) && files[FileOf(accounts[i].login)] == TextOf(accounts[k], codec);
      OneLogin(accounts, i, k);
    }
  }

  /** The files of all accounts, then the manifest: what a backup and a restore have in common. */
  method WriteAll(disk: Directory, accounts: seq<Account>, codec: Codec) returns (r: Result<(), StoreError>)
    requires disk.Valid() && DistinctLogins(accounts) && disk.files == map[]
    modifies disk
    ensures disk.Valid() && Partial(disk.files, accounts, codec)
    ensures r.Ok? ==> Complete(disk.files, accounts, codec)
    ensures old(disk.Reliable()) ==> (r.Ok? <==> forall i | 0 <= i < |accounts| :: Savable(accounts[i], codec))
    ensures old(disk.Reliable()) && r.Err? ==> forall name | name in disk.files :: name.TempName?
  {
    hide Savable, SaveState, Partial, SavedUpTo, Complete, ToLower, ExplicitChannels, DistinctLogins;
    NothingSaved(disk.files, accounts, codec);
    for i := 0 to |accounts|
      invariant disk.Valid() && SavedUpTo(disk.files, accounts, i, codec)
      invariant old(disk.Reliable()) ==> disk.Reliable()
      invariant forall k | 0 <= k < i :: Savable(accounts[k], codec)
    {
      ghost var before := disk.files;
      UpToFacts(before, accounts, i, codec);
      var saved := Save(disk, accounts[i], codec);
      if Savable(accounts[i], codec) {
        SaveNext(before, disk.files, accounts, i, codec, saved.Ok?);
      }
      if saved.Err? {
        OnlyTried(before, accounts, i, codec);
        Rollback(disk, accounts, i + 1, codec);
        return saved;
      }
    }
    UpToFacts(disk.files, accounts, |accounts|, codec);
    SavedTexts(disk.files, accounts, codec);
    var manifest := BuildManifest(disk.files, accounts, codec);
    ghost var before := disk.files;
    var written := disk.WriteAtomically(ManifestName, codec.encodeManifest(manifest.value));
    ManifestWritten(before, disk.files, accounts, codec, written);
    if !written {
      Rollback(disk, accounts, |accounts|, codec);
      return Err(FileSystem);
    }
    var synced := disk.Sync();
    if !synced {
      Rollback(disk, accounts, |accounts|, codec);
      return Err(FileSystem);
    }
    return Ok(());
  }

  /** Every file that counts is one of an account tried so far. */
  lemma OnlyTried(files: Dir, accounts: seq<Account>, n: nat, codec: Codec)
    requires n <= |accounts| && SavedUpTo(files, accounts, n, codec)
    ensures forall name | name in files && !name.TempName? :: exists i :: 0 <= i < n && name == FileOf(accounts[i].login)
  {
    hide ToLower;
    forall name | name in files && !name.TempName? ensures exists i :: 0 <= i < n && name == FileOf(accounts[i].login) {
      assert BackupFile(files, name, accounts, codec);
    }
  }

  lemma NothingSaved(files: Dir, accounts: seq<Account>, codec: Codec)
    requires files == map[]
    ensures SavedUpTo(files, accounts, 0, codec)
  {
  }

  lemma UpToFacts(files: Dir, accounts: seq<Account>, n: nat, codec: Codec)
    requires n <= |accounts| && SavedUpTo(files, accounts, n, codec)
    ensures Partial(files, accounts, codec)
    ensures n < |accounts| ==> SavedOver(files, accounts[n], codec) == Some(accounts[n])
    ensures n == |accounts| ==> forall i | 0 <= i < |accounts| :: FileOf(accounts[i].login) in files
  {
    hide ToLower;
  }

  lemma ManifestWritten(before: Dir, after: Dir, accounts: seq<Account>, codec: Codec, written: bool)
    requires SavedUpTo(before, accounts, |accounts|, codec)
    requires Stable(after) ==
      if written then Stable(before)[ManifestName := codec.encodeManifest(ManifestOf(accounts, codec))] else Stable(before)
    ensures Partial(after, accounts, codec) && (written ==> Complete(after, accounts, codec))
  {
    hide ToLower, ExplicitChannels, Stable, Partial, ManifestOf;
    UpToIsStable(before, accounts, |accounts|, codec);
    PartialManifest(Stable(before), accounts, codec);
    PartialIsStable(after, accounts, codec);
    CompleteIsStable(after, accounts, codec);
  }

  // ---------------------------------------------------------------------------------------------
  // Backup and restore.
  // ---------------------------------------------------------------------------------------------

  /** Account by account the same, channels compared as they are read. */
  ghost predicate SameAccounts(a: seq<Account>, b: seq<Account>) {
    |a| == |b| && forall i | 0 <= i < |a| :: SameAccount(a[i], b[i])
  }

  /** What a backup asks of its source: readable, and a manifest that fits if there is one. */
  ghost predicate Backable(src: Dir, accounts: seq<Account>, codec: Codec) {
    Listed(src, accounts, codec) && (ManifestName in src ==> ManifestFits(src, accounts, codec, false))
  }

  /**
   * Backs the source up into an empty directory. Whatever fails or crashes on the way, the destination holds only
   * files of the backup, and if it validates it is the source; on success it holds all of them.
   */
  method BackupTo(src: Dir, disk: Directory, codec: Codec) returns (r: Result<(), StoreError>)
    requires disk.Valid()
    modifies disk
    ensures disk.Valid()
    ensures forall accounts | Listed(src, accounts, codec) && old(disk.files) == map[] :: Partial(disk.files, accounts, codec)
    ensures forall accounts, got | Faithful(codec) && Listed(src, accounts, codec) && old(disk.files) == map[] && Validates(disk.files, got, codec) ::
      SameAccounts(got, accounts)
    ensures forall accounts | Listed(src, accounts, codec) && r.Ok? :: Complete(disk.files, accounts, codec) && Backable(src, accounts, codec)
    ensures r.Ok? ==> old(disk.files) == map[] && exists accounts :: Listed(src, accounts, codec)
    ensures old(disk.files) != map[] ==> r == Err(NotEmpty) && disk.files == old(disk.files)
    ensures old(disk.Reliable()) && old(disk.files) == map[] && r.Err? ==> forall name | name in disk.files :: name.TempName?
    ensures forall accounts | old(disk.Reliable()) && old(disk.files) == map[] && Backable(src, accounts, codec) && (forall i | 0 <= i < |accounts| :: Savable(accounts[i], codec)) :: r.Ok?
  {
    hide Listed, Partial, Complete, ManifestFits, Savable, Faithful, Validates, SameAccounts;
    NothingPartial(codec);
    ValidatedAreComplete(src, map[], codec);
    if |disk.files| != 0 {
      return Err(NotEmpty);
    }
    var accounts := List(src, codec);
    if accounts.Err? {
      NotListed(src, codec);
      return Err(accounts.error);
    }
    ListedDistinct(src, accounts.value, codec);
    forall other | Listed(src, other, codec) ensures other == accounts.value {
      ListedOnce(src, other, accounts.value, codec);
    }
    if ManifestName in src {
      var fits := ValidateBackupManifest(src, accounts.value, codec, false);
      if !fits {
        return Err(InvalidManifest);
      }
    }
    r := WriteAll(disk, accounts.value, codec);
    ValidatedAreComplete(src, disk.files, codec);
  }

  lemma NothingPartial(codec: Codec)
    ensures forall accounts :: Partial(map[], accounts, codec)
  {
  }

  /**
   * Restores a backup into an empty directory, which holds only files of the restored accounts whatever fails or
   * crashes on the way, and is the backup if it validates.
   */
  method RestoreFrom(src: Dir, disk: Directory, codec: Codec) returns (r: Result<(), StoreError>)
    requires disk.Valid()
    modifies disk
    ensures disk.Valid()
    ensures forall accounts | Listed(src, accounts, codec) && old(disk.files) == map[] :: Partial(disk.files, accounts, codec)
    ensures forall accounts, got | Faithful(codec) && Listed(src, accounts, codec) && old(disk.files) == map[] && Validates(disk.files, got, codec) ::
      SameAccounts(got, accounts)
    ensures forall accounts | Listed(src, accounts, codec) && r.Ok? :: Complete(disk.files, accounts, codec) && Validates(src, accounts, codec)
    ensures r.Ok? ==> old(disk.files) == map[] && exists accounts :: Listed(src, accounts, codec)
    ensures old(disk.files) != map[] ==> r == Err(NotEmpty) && disk.files == old(disk.files)
    ensures old(disk.Reliable()) && old(disk.files) == map[] && r.Err? ==> forall name | name in disk.files :: name.TempName?
    ensures forall accounts | old(disk.Reliable()) && old(disk.files) == map[] && Validates(src, accounts, codec)
      && (forall i | 0 <= i < |accounts| :: Savable(accounts[i], codec)) :: r.Ok?
  {
    hide Listed, Partial, Complete, ManifestFits, Savable, Faithful, SameAccounts;
    NothingPartial(codec);
    ValidatedAreComplete(src, map[], codec);
    if |disk.files| != 0 {
      return Err(NotEmpty);
    }
    var accounts := LoadBackup(src, codec);
    if accounts.Err? {
      return Err(accounts.error);
    }
    ListedDistinct(src, accounts.value, codec);
    forall other | Listed(src, other, codec) ensures other == accounts.value {
      ListedOnce(src, other, accounts.value, codec);
    }
    r := WriteAll(disk, accounts.value, codec);
    ValidatedAreComplete(src, disk.files, codec);
  }

  // ---------------------------------------------------------------------------------------------
  // What a backup guarantees.
  // ---------------------------------------------------------------------------------------------

  /** An account read from the directory is one of the source. */
  lemma ReadIsSource(src: Dir, files: Dir, accounts: seq<Account>, got: Account, codec: Codec) returns (i: nat)
    requires Faithful(codec) && Listed(src, accounts, codec) && Partial(files, accounts, codec) && InFile(files, got, codec)
    ensures i < |accounts| && got == Explicit(accounts[i])
  {
    hide ToLower, ExplicitChannels, Faithful, Listed, TextOf;
    var name := FileOf(got.login);
    assert BackupFile(files, name, accounts, codec);
    i :| 0 <= i < |accounts| && name == FileOf(accounts[i].login) && files[name] == TextOf(accounts[i], codec);
    ListedReadsBack(src, accounts, codec, i);
  }

  /** A manifest of the backup that fits the accounts read names every account of the source. */
  lemma SourceIsRead(src: Dir, files: Dir, accounts: seq<Account>, got: seq<Account>, codec: Codec, i: nat)
    requires Faithful(codec) && Listed(src, accounts, codec) && Partial(files, accounts, codec) && i < |accounts|
    requires (forall k | 0 <= k < |got| :: InFile(files, got[k], codec)) && ManifestFits(files, got, codec, true)
    ensures exists k :: 0 <= k < |got| && got[k] == Explicit(accounts[i])
  {
    hide ToLower, ExplicitChannels, SummaryOf, SummaryFits, Listed;
    ListedDistinct(src, accounts, codec);
    assert BackupFile(files, ManifestName, accounts, codec);
    var entries := ManifestOf(accounts, codec).files;
    assert EntryFits(entries[i], files, got, codec);
    var k :| 0 <= k < |got| && EntryIsOf(entries[i], files, got[k], codec);
    var j := ReadIsSource(src, files, accounts, got[k], codec);
    OneLogin(accounts, i, j);
  }

  lemma ValidatedAreComplete(src: Dir, files: Dir, codec: Codec)
    ensures forall accounts, got | Faithful(codec) && Listed(src, accounts, codec) && Partial(files, accounts, codec) && Validates(files, got, codec) ::
      SameAccounts(got, accounts)
  {
    hide Listed, Partial, ManifestFits, Faithful, SameAccounts;
    forall accounts, got | Faithful(codec) && Listed(src, accounts, codec) && Partial(files, accounts, codec) && Validates(files, got, codec)
      ensures SameAccounts(got, accounts)
    {
      ValidatedIsComplete(src, files, accounts, got, codec);
    }
  }

  function Explicits(accounts: seq<Account>): (explicits: seq<Account>)
    ensures |explicits| == |accounts| && forall i | 0 <= i < |accounts| :: explicits[i] == Explicit(accounts[i])
  {
    if accounts == [] then [] else Explicits(accounts[..|accounts| - 1]) + [Explicit(accounts[|accounts| - 1])]
  }

  lemma ExplicitOrder(accounts: seq<Account>)
    requires AscendingBy(accounts, LoginBefore) && DistinctLogins(accounts)
    ensures AscendingBy(Explicits(accounts), LoginBefore) && DistinctLogins(Explicits(accounts))
  {
    hide ToLower, ExplicitChannels;
    var e := Explicits(accounts);
    forall i, j | 0 <= i < j < |e| ensures !LoginBefore(e[j], e[i]) && ToLower(e[i].login) != ToLower(e[j].login) {
      assert !LoginBefore(accounts[j], accounts[i]) && e[i].login == accounts[i].login && e[j].login == accounts[j].login;
    }
  }

  /** At any moment of a backup, a destination that validates is the complete source. */
  lemma ValidatedIsComplete(src: Dir, files: Dir, accounts: seq<Account>, got: seq<Account>, codec: Codec)
    requires Faithful(codec) && Listed(src, accounts, codec) && Partial(files, accounts, codec)
    requires Validates(files, got, codec)
    ensures got == Explicits(accounts) && SameAccounts(got, accounts)
  {
    hide ToLower, ExplicitChannels, Partial, ManifestFits, Readable, InFile, Explicits;
    ExplicitOrder(accounts);
    var e := Explicits(accounts);
    forall k | 0 <= k < |got| ensures got[k] in e {
      var i := ReadIsSource(src, files, accounts, got[k], codec);
      assert e[i] == got[k];
    }
    forall i | 0 <= i < |e| ensures e[i] in got {
      SourceIsRead(src, files, accounts, got, codec, i);
    }
    SameSortedAccounts(got, e);
    forall i | 0 <= i < |accounts| ensures SameAccount(got[i], accounts[i]) {
      ListedIsValid(src, accounts, codec, i);
      ExplicitIsSame(accounts[i], codec.sound);
    }
  }

  // ---------------------------------------------------------------------------------------------
  // A complete backup validates, and restores to the same accounts.
  // ---------------------------------------------------------------------------------------------

  lemma CompleteFile(src: Dir, files: Dir, accounts: seq<Account>, codec: Codec, i: nat)
    requires Faithful(codec) && Listed(src, accounts, codec) && Complete(files, accounts, codec) && i < |accounts|
    ensures InFile(files, Explicit(accounts[i]), codec)
    ensures ReadableFile(files, FileOf(accounts[i].login), codec)
  {
    hide ToLower, ExplicitChannels, ValidChannels, TrimSpace;
    SavedTexts(files, accounts, codec);
    ListedReadsBack(src, accounts, codec, i);
    ListedIsValid(src, accounts, codec, i);
    ExplicitIsSame(accounts[i], codec.sound);
    ListedName(src, accounts, codec, i);
  }

  /** The lower-case login of a listed account is a proper login of its own. */
  lemma ListedName(src: Dir, accounts: seq<Account>, codec: Codec, i: nat)
    requires Listed(src, accounts, codec) && i < |accounts|
    ensures ToLower(ToLower(accounts[i].login)) == ToLower(accounts[i].login) && ProperName(ToLower(accounts[i].login))
  {
    hide ToLower, ValidAccount, LoadedFor, ProperName;
    assert InFile(src, accounts[i], codec);
    ReadableLogin(src, ToLower(accounts[i].login), codec);
  }

  lemma CompleteIsReadable(src: Dir, files: Dir, accounts: seq<Account>, codec: Codec)
    requires Faithful(codec) && Listed(src, accounts, codec) && Complete(files, accounts, codec)
    ensures Readable(files, codec)
  {
    hide ToLower, ExplicitChannels, ReadableFile, Listed;
    forall name | name in files ensures ReadableFile(files, name, codec) {
      assert BackupFile(files, name, accounts, codec);
      match name {
        case AccountName(_) =>
          var i :| 0 <= i < |accounts| && name == FileOf(accounts[i].login) && files[name] == TextOf(accounts[i], codec);
          CompleteFile(src, files, accounts, codec, i);
        case _ =>
          OtherFilesReadable(files, name, codec);
      }
    }
  }

  lemma OtherFilesReadable(files: Dir, name: Name, codec: Codec)
    requires name.ManifestName? || name.TempName?
    ensures ReadableFile(files, name, codec)
  {
  }

  /** A complete backup lists as the source, default channels written out. */
  lemma CompleteIsListed(src: Dir, files: Dir, accounts: seq<Account>, codec: Codec)
    requires Faithful(codec) && Listed(src, accounts, codec) && Complete(files, accounts, codec)
    ensures Listed(files, Explicits(accounts), codec)
  {
    hide ToLower, ExplicitChannels, Readable, ReadableFile;
    CompleteIsReadable(src, files, accounts, codec);
    ExplicitOrder(accounts);
    var e := Explicits(accounts);
    forall i | 0 <= i < |e| ensures InFile(files, e[i], codec) {
      CompleteFile(src, files, accounts, codec, i);
    }
    forall login | AccountName(login) in files ensures codec.decode(files[AccountName(login)]).value in e {
      assert BackupFile(files, AccountName(login), accounts, codec);
      var i :| 0 <= i < |accounts| && AccountName(login) == FileOf(accounts[i].login) && files[AccountName(login)] == TextOf(accounts[i], codec);
      assert e[i] == codec.decode(files[AccountName(login)]).value;
    }
  }

  lemma {:induction false} SameSummary(accounts: seq<Account>)
    ensures SummaryOf(Explicits(accounts)) == SummaryOf(accounts)
  {
    hide ExplicitChannels;
    if accounts != [] {
      var n := |accounts| - 1;
      SameSummary(accounts[..n]);
      assert Explicits(accounts)[..n] == Explicits(accounts[..n]);
    }
  }

  lemma CompleteManifestFits(src: Dir, files: Dir, accounts: seq<Account>, codec: Codec)
    requires Faithful(codec) && Listed(src, accounts, codec) && Complete(files, accounts, codec)
    ensures ManifestFits(files, Explicits(accounts), codec, true)
  {
    hide ToLower, ExplicitChannels, SummaryOf, Readable;
    assert BackupFile(files, ManifestName, accounts, codec);
    SameSummary(accounts);
    SavedTexts(files, accounts, codec);
    var e, entries := Explicits(accounts), EntriesOf(accounts, codec);
    forall i | 0 <= i < |entries| ensures EntryFits(entries[i], files, e, codec) {
      assert EntryIsOf(entries[i], files, e[i], codec);
    }
    forall i, j | 0 <= i < j < |entries| ensures entries[i].name != entries[j].name {
      assert ToLower(accounts[i].login) != ToLower(accounts[j].login);
    }
    forall name | name in files && !name.ManifestName? && !name.TempName?
      ensures exists i :: 0 <= i < |entries| && entries[i].name == name
    {
      assert BackupFile(files, name, accounts, codec);
      var i :| 0 <= i < |accounts| && name == FileOf(accounts[i].login) && files[name] == TextOf(accounts[i], codec);
      assert entries[i].name == name;
    }
  }

  /** A finished backup loads, and as the source. */
  lemma CompleteValidates(src: Dir, files: Dir, accounts: seq<Account>, codec: Codec)
    requires Faithful(codec) && Listed(src, accounts, codec) && Complete(files, accounts, codec)
    ensures Validates(files, Explicits(accounts), codec)
    ensures SameAccounts(Explicits(accounts), accounts)
  {
    hide ToLower, ExplicitChannels, Listed, ManifestFits, Complete;
    CompleteIsListed(src, files, accounts, codec);
    CompleteManifestFits(src, files, accounts, codec);
    forall i | 0 <= i < |accounts| ensures SameAccount(Explicits(accounts)[i], accounts[i]) {
      ListedIsValid(src, accounts, codec, i);
      ExplicitIsSame(accounts[i], codec.sound);
    }
  }

  lemma SameTransitive(a: seq<Account>, b: seq<Account>, c: seq<Account>)
    requires SameAccounts(a, b) && SameAccounts(b, c)
    ensures SameAccounts(a, c)
  {
    hide ChannelForCharacter;
    forall i | 0 <= i < |a| ensures SameAccount(a[i], c[i]) {
      assert SameAccount(a[i], b[i]) && SameAccount(b[i], c[i]);
    }
  }

  /** Backup, then restore into an empty directory: the restored directory lists the same accounts. */
  method BackupThenRestore(src: Dir, backup: Directory, restored: Directory, codec: Codec)
    returns (r: Result<seq<Account>, StoreError>)
    requires backup.Valid() && restored.Valid() && backup != restored && Faithful(codec)
    modifies backup, restored
    ensures forall accounts | Listed(src, accounts, codec) && r.Ok? :: SameAccounts(r.value, accounts)
    ensures forall accounts | old(backup.Reliable()) && old(restored.Reliable()) && old(backup.files) == map[] && old(restored.files) == map[]
      && Backable(src, accounts, codec) && (forall i | 0 <= i < |accounts| :: Savable(accounts[i], codec)) :: r.Ok?
  {
    hide Listed, Complete, ManifestFits, Partial, Explicits, SameAccounts, Savable;
    var done := BackupTo(src, backup, codec);
    if done.Err? {
      return Err(done.error);
    }
    ghost var accounts :| Listed(src, accounts, codec);
    forall other | Listed(src, other, codec) ensures other == accounts {
      ListedOnce(src, other, accounts, codec);
    }
    CompleteValidates(src, backup.files, accounts, codec);
    ExplicitsSavable(accounts, codec);
    done := RestoreFrom(backup.files, restored, codec);
    if done.Err? {
      return Err(done.error);
    }
    CompleteValidates(backup.files, restored.files, Explicits(accounts), codec);
    SameTransitive(Explicits(Explicits(accounts)), Explicits(accounts), accounts);
    r := List(restored.files, codec);
    if r.Err? {
      NotListed(restored.files, codec);
      assert false;
    }
    ListedOnce(restored.files, r.value, Explicits(Explicits(accounts)), codec);
  }

  lemma ExplicitsSavable(accounts: seq<Account>, codec: Codec)
    ensures forall i | 0 <= i < |accounts| && Savable(accounts[i], codec) :: Savable(Explicits(accounts)[i], codec)
  {
    hide ExplicitChannels, ToLower;
    forall i | 0 <= i < |accounts| && Savable(accounts[i], codec) ensures Savable(Explicits(accounts)[i], codec) {
      ExplicitIsSame(accounts[i], codec.sound);
    }
  }
}
