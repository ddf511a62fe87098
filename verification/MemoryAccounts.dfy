/** The in-memory account store. */
module MemoryAccounts {
  import opened Results
  import opened Ordered
  import opened Integers
  import opened Text
  import opened TextOrder
  import opened Accounts

  /** The channel map of a caller: Save completes it in place. */
  class ChannelMap {
    var entries: map<Uint32, Uint8>

    constructor (entries: map<Uint32, Uint8>)
      ensures this.entries == entries
    {
      this.entries := entries;
    }
  }

  /** An account as a caller passes it, its channel map by reference, or nil. */
  datatype Given = Given(login: string, empire: Uint8, characters: seq<Character>, channels: ChannelMap?)

  function Entries(channels: ChannelMap?): map<Uint32, Uint8>
    reads channels
  {
    if channels == null then map[] else channels.entries
  }

  /** The account a caller passes, as a value. */
  function ValueOf(given: Given): Account
    reads given.channels
  {
    Account(given.login, given.empire, given.characters, Entries(given.channels))
  }

  type Stored = map<string, Account>

  /** The snapshot that a save commits. */
  function Committed(stored: Stored, account: Account): Account {
    if ToLower(account.login) in stored
    then account.(channels := Preserved(account.characters, account.channels, stored[ToLower(account.login)]))
    else account
  }

  /** The snapshots after a save, which a rejected account leaves alone. */
  function Step(stored: Stored, account: Account, sound: seq<Character> -> bool): Stored {
    if ValidAccount(account, sound) then stored[ToLower(account.login) := Committed(stored, account)] else stored
  }

  method PreserveChannelAssignments(channels: ChannelMap, characters: seq<Character>, previous: Account)
    modifies channels
    ensures channels.entries == Preserved(characters, old(channels.entries), previous)
  {
    for c := 0 to |characters|
      invariant channels.entries == Preserved(characters[..c], old(channels.entries), previous)
    {
      var id := characters[c].id;
      assert characters[..c + 1][..c] == characters[..c];
      if id == 0 || id in channels.entries {
        continue;
      }
      var found := false;
      for o := 0 to |previous.characters|
        invariant !found && channels.entries == Preserved(characters[..c], old(channels.entries), previous)
        invariant forall p | 0 <= p < o :: previous.characters[p].id != id
      {
        if previous.characters[o].id == id {
          found := true;
          channels.entries := channels.entries[id := ChannelForCharacter(previous, id)];
          break;
        }
      }
    }
    assert characters[..|characters|] == characters;
  }

  /** What holds of every snapshot of the store. */
  predicate GoodSnapshot(key: string, account: Account, sound: seq<Character> -> bool) {
    key == ToLower(account.login) && ValidAccount(account, sound)
  }

  ghost predicate Good(stored: Stored, sound: seq<Character> -> bool) {
    forall key | key in stored :: GoodSnapshot(key, stored[key], sound)
  }

  lemma StepKeepsGood(stored: Stored, account: Account, sound: seq<Character> -> bool)
    requires Good(stored, sound)
    ensures Good(Step(stored, account, sound), sound)
  {
    if ValidAccount(account, sound) && ToLower(account.login) in stored {
      PreservedAreValid(account.characters, account.channels, stored[ToLower(account.login)]);
    }
  }

  datatype StoreError = LoginRequired | InvalidAccount | AccountNotFound

  class MemoryStore {
    var accounts: Stored

    constructor ()
      ensures accounts == map[]
    {
      accounts := map[];
    }

    /** Commits a copy of the account; the caller's own channel map is completed on the way. */
    method Save(given: Given, sound: seq<Character> -> bool) returns (r: Result<(), StoreError>)
      requires Good(accounts, sound)
      modifies this, given.channels
      ensures Good(accounts, sound)
      ensures accounts == Step(old(accounts), old(ValueOf(given)), sound)
      ensures r.Ok? <==> old(ValidAccount(ValueOf(given), sound))
      ensures r == Err(LoginRequired) <==> TrimSpace(given.login) == ""
      ensures r.Ok? ==>
        && ToLower(given.login) in accounts
        && var committed := accounts[ToLower(given.login)];
        committed.login == given.login && committed.empire == given.empire && committed.characters == given.characters
      ensures given.channels != null && r.Ok? ==> forall id | id in old(given.channels.entries) ::
        var channels := accounts[ToLower(given.login)].channels;
        id in channels && channels[id] == old(given.channels.entries)[id]
      ensures forall key | r.Err? || key != ToLower(given.login) ::
        (key in accounts <==> key in old(accounts)) && (key in old(accounts) ==> accounts[key] == old(accounts)[key])
      ensures given.channels != null && r.Ok? ==> given.channels.entries == accounts[ToLower(given.login)].channels
      ensures given.channels != null && r.Err? ==> given.channels.entries == old(given.channels.entries)
    {
      hide ToLower, Preserved, TrimSpace, Good, ValidChannels;
      ghost var account := ValueOf(given);
      StepKeepsGood(accounts, account, sound);
      if TrimSpace(given.login) == "" {
        return Err(LoginRequired);
      }
      if given.login != TrimSpace(given.login) || '\0' in given.login {
        return Err(InvalidAccount);
      }
      var valid := ValidateChannels(ValueOf(given));
      if !valid || !sound(given.characters) {
        return Err(InvalidAccount);
      }
      var channels := given.channels;
      if ToLower(given.login) in accounts {
        if channels == null {
          channels := new ChannelMap(map[]);
        }
        PreserveChannelAssignments(channels, given.characters, accounts[ToLower(given.login)]);
        forall id: Uint32 ensures id in account.channels ==> id in channels.entries && channels.entries[id] == account.channels[id] {
          PreservedEntries(given.characters, account.channels, accounts[ToLower(given.login)], id);
        }
      }
      var copy := Account(given.login, given.empire, given.characters, Entries(channels));
      accounts := accounts[ToLower(given.login) := copy];
      return Ok(());
    }

    /** The committed snapshot of a login, whatever the case of its letters. */
    method Load(login: string, sound: seq<Character> -> bool) returns (r: Result<Account, StoreError>)
      requires Good(accounts, sound)
      ensures r.Ok? <==> ProperName(login) && ToLower(login) in accounts
      ensures r.Ok? ==> r.value == accounts[ToLower(login)] && ToLower(r.value.login) == ToLower(login)
      ensures r == Err(LoginRequired) <==> TrimSpace(login) == ""
      ensures r == Err(AccountNotFound) <==> ProperName(login) && ToLower(login) !in accounts
    {
      if TrimSpace(login) == "" {
        return Err(LoginRequired);
      }
      if login != TrimSpace(login) || '\0' in login {
        return Err(InvalidAccount);
      }
      if ToLower(login) !in accounts {
        return Err(AccountNotFound);
      }
      var account := accounts[ToLower(login)];
      assert GoodSnapshot(ToLower(login), account, sound);
      var valid := ValidateChannels(account);
      if !ProperName(account.login) || ToLower(account.login) != ToLower(login) || !valid || !sound(account.characters) {
        return Err(InvalidAccount);
      }
      return Ok(account);
    }

    /** Every snapshot once, by login; the check for two spellings of a login never fires. */
    method List(ghost sound: seq<Character> -> bool) returns (r: Result<seq<Account>, StoreError>)
      requires Good(accounts, sound)
      ensures r.Ok? && |r.value| == |accounts| && AscendingBy(r.value, LoginBefore)
      ensures forall i, j | 0 <= i < j < |r.value| :: TextLess(ToLower(r.value[i].login), ToLower(r.value[j].login))
      ensures forall account :: account in r.value <==> exists key :: key in accounts && accounts[key] == account
    {
      hide ToLower, LoginBefore, TextLess, ValidAccount;
      var keys := AnyOrder(accounts.Keys);
      var seen: set<string> := {};
      var all: seq<Account> := [];
      for k := 0 to |keys|
        invariant |all| == k && forall l | 0 <= l < k :: keys[l] in accounts && all[l] == accounts[keys[l]] && ToLower(all[l].login) == keys[l]
        invariant forall v :: v in seen ==> v in keys[..k]
      {
        assert keys[k] in keys;
        var account := accounts[keys[k]];
        assert GoodSnapshot(keys[k], account, sound);
        if ToLower(account.login) in seen {
          assert false;
        }
        seen, all := seen + {ToLower(account.login)}, all + [account];
      }
      assert DistinctLogins(all);
      LoginOrder();
      var sorted := SortWith(all, LoginBefore);
      InMultiset(sorted, all);
      LoginsAscend(all, sorted);
      assert |keys| == |accounts.Keys|;
      forall key | key in accounts ensures accounts[key] in all {
        assert key in keys;
        var l :| 0 <= l < |keys| && keys[l] == key;
        assert all[l] == accounts[key];
      }
      return Ok(sorted);
    }
  }

  // ---------------------------------------------------------------------------------------------
  // Any run of saves.
  // ---------------------------------------------------------------------------------------------

  /** The store after a run of saves. */
  function Run(saves: seq<Account>, sound: seq<Character> -> bool): Stored {
    if saves == [] then map[] else Step(Run(saves[..|saves| - 1], sound), saves[|saves| - 1], sound)
  }

  /** The save is accepted and is one of this login. */
  predicate Counts(save: Account, login: string, sound: seq<Character> -> bool) {
    ValidAccount(save, sound) && ToLower(save.login) == ToLower(login)
  }

  /** The latest explicit assignment since the character was last absent from the login's snapshot. */
  function Assigned(saves: seq<Account>, login: string, id: Uint32, sound: seq<Character> -> bool): Option<Uint8> {
    if saves == [] then None
    else
      var n := |saves| - 1;
      var last := saves[n];
      if !Counts(last, login, sound) then Assigned(saves[..n], login, id, sound)
      else if !HasCharacter(last.characters, id) then None
      else if id in last.channels then Some(last.channels[id])
      else Assigned(saves[..n], login, id, sound)
  }

  /** Every stored snapshot is a valid account under its own login: its channels name its own characters. */
  lemma {:induction false} RunIsGood(saves: seq<Account>, sound: seq<Character> -> bool)
    ensures Good(Run(saves, sound), sound)
  {
    hide GoodSnapshot;
    if saves != [] {
      RunIsGood(saves[..|saves| - 1], sound);
      StepKeepsGood(Run(saves[..|saves| - 1], sound), saves[|saves| - 1], sound);
    }
  }

  /** The snapshot of a login has the characters of its last accepted save. */
  lemma {:induction false} AbsentFromStart(saves: seq<Account>, login: string, id: Uint32, sound: seq<Character> -> bool)
    requires ToLower(login) !in Run(saves, sound) || !HasCharacter(Run(saves, sound)[ToLower(login)].characters, id)
    ensures Assigned(saves, login, id, sound) == None
  {
    hide ValidAccount, HasCharacter, ToLower, Preserved;
    if saves != [] {
      var n := |saves| - 1;
      if !Counts(saves[n], login, sound) {
        AbsentFromStart(saves[..n], login, id, sound);
      }
    }
  }

  /** One save, seen from a login: the channel given, the channel before, or the default. */
  lemma ChannelAfterStep(stored: Stored, save: Account, login: string, id: Uint32, sound: seq<Character> -> bool)
    requires id != 0 && Good(stored, sound) && Counts(save, login, sound) && HasCharacter(save.characters, id)
    ensures var key, after := ToLower(login), Step(stored, save, sound);
      && key in after
      && ChannelForCharacter(after[key], id) ==
          if id in save.channels then save.channels[id]
          else if key in stored && HasCharacter(stored[key].characters, id) then ChannelForCharacter(stored[key], id)
          else DEFAULT_LOCAL_CHANNEL
  {
    hide ToLower, Preserved, HasCharacter;
    var key := ToLower(login);
    if key in stored {
      PreservedEntries(save.characters, save.channels, stored[key], id);
    }
  }

  /** The snapshot of a login is its last accepted save, channels aside; without one there is none. */
  lemma {:induction false} SnapshotIsLastSave(saves: seq<Account>, n: nat, login: string, sound: seq<Character> -> bool)
    requires n <= |saves| && forall k | n <= k < |saves| :: !Counts(saves[k], login, sound)
    ensures n == 0 ==> ToLower(login) !in Run(saves, sound)
    ensures n > 0 && Counts(saves[n - 1], login, sound) ==>
      && ToLower(login) in Run(saves, sound)
      && var snapshot, last := Run(saves, sound)[ToLower(login)], saves[n - 1];
      snapshot.login == last.login && snapshot.empire == last.empire && snapshot.characters == last.characters
  {
    hide ToLower, Preserved, ValidAccount;
    if n < |saves| {
      var m := |saves| - 1;
      assert forall k | 0 <= k < m :: saves[..m][k] == saves[k];
      SnapshotIsLastSave(saves[..m], n, login, sound);
    }
  }

  /** The history theorem: what the channel of a character of the current snapshot is. */
  lemma {:induction false} ChannelIsLatestAssignment(saves: seq<Account>, login: string, id: Uint32, sound: seq<Character> -> bool)
    requires id != 0 && ToLower(login) in Run(saves, sound) && HasCharacter(Run(saves, sound)[ToLower(login)].characters, id)
    ensures ChannelForCharacter(Run(saves, sound)[ToLower(login)], id)
      == match Assigned(saves, login, id, sound) case Some(channel) => channel case None => 1
  {
    hide ToLower, Preserved, HasCharacter, ValidAccount, ChannelForCharacter;
    if saves != [] {
      var n, key := |saves| - 1, ToLower(login);
      var before := Run(saves[..n], sound);
      if !Counts(saves[n], login, sound) {
        ChannelIsLatestAssignment(saves[..n], login, id, sound);
      } else {
        RunIsGood(saves[..n], sound);
        ChannelAfterStep(before, saves[n], login, id, sound);
        if key in before && HasCharacter(before[key].characters, id) {
          ChannelIsLatestAssignment(saves[..n], login, id, sound);
        } else {
          AbsentFromStart(saves[..n], login, id, sound);
        }
      }
    }
  }

  /** A character left out of one save and back in a later one, without a channel, starts over at the default. */
  lemma DeletedThenAdded(saves: seq<Account>, without: Account, again: Account, login: string, id: Uint32, sound: seq<Character> -> bool)
    requires id != 0 && Counts(without, login, sound) && Counts(again, login, sound)
    requires !HasCharacter(without.characters, id) && HasCharacter(again.characters, id) && id !in again.channels
    ensures var after := Run(saves + [without, again], sound);
      ToLower(login) in after && ChannelForCharacter(after[ToLower(login)], id) == 1
  {
    hide ToLower, Preserved, HasCharacter, ValidAccount, ChannelForCharacter;
    var all := saves + [without, again];
    assert all[..|all| - 1] == saves + [without];
    assert (saves + [without])[..|saves|] == saves;
    ChannelIsLatestAssignment(all, login, id, sound);
  }
}
