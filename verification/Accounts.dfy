/** Account snapshots and channel assignments. */
module Accounts {
  import opened Integers
  import opened Ordered
  import opened Text
  import opened TextOrder

  const DEFAULT_LOCAL_CHANNEL: Uint8 := 1
  const POINT_COUNT := 255
  const PLAYER_SLOTS := 4

  /** The columns that every step copies unchanged. */
  datatype Stats = Stats(
    job: int, raceNum: int, playMinutes: int, st: int, ht: int, dx: int, iq: int, mainPart: int, changeName: int,
    hairPart: int, x: int, y: int, z: int, empire: int, skillGroup: int, guildId: int)

  const NO_STATS := Stats(0, 0, 0, 0, 0, 0, 0, 0, 0, 0, 0, 0, 0, 0, 0, 0)

  /** The fixed array of point values. */
  predicate IsVector(points: seq<Int32>) {
    |points| == POINT_COUNT
  }

  type PointVector = points: seq<Int32> | IsVector(points) witness seq(POINT_COUNT, _ => 0)

  /** `rest` stands for the items, quickslots, shop prices and what else there is; empty when there is nothing. */
  datatype Character = Character(
    id: Uint32, name: string, level: Uint8, mapIndex: Uint32, gold: Uint64, guildName: string,
    stats: Stats, points: PointVector, rest: string)

  /** The channels are keyed by character id; a nil map is an empty one. */
  datatype Account = Account(login: string, empire: Uint8, characters: seq<Character>, channels: map<Uint32, Uint8>)

  predicate IsEmptySlot(c: Character) {
    && c.id == 0 && c.name == "" && c.level == 0 && c.mapIndex == 0 && c.gold == 0 && c.guildName == ""
    && c.stats == NO_STATS
    && (forall i | 0 <= i < POINT_COUNT :: c.points[i] == 0) && c.rest == ""
  }

  /** The zero value is the only empty slot. */
  lemma OneEmptySlot(c: Character)
    ensures IsEmptySlot(c) <==>
      c == Character(0, "", 0, 0, 0, "", Stats(0, 0, 0, 0, 0, 0, 0, 0, 0, 0, 0, 0, 0, 0, 0, 0), seq(255, _ => 0), "")
  {
    if IsEmptySlot(c) {
      assert c.points == seq(255, _ => 0);
    }
  }

  function ChannelForCharacter(account: Account, id: Uint32): Uint8 {
    if id == 0 then 0
    else if id in account.channels && account.channels[id] != 0 then account.channels[id]
    else DEFAULT_LOCAL_CHANNEL
  }

  predicate HasCharacter(characters: seq<Character>, id: Uint32) {
    exists i :: 0 <= i < |characters| && characters[i].id == id
  }

  /** Channels belong to characters of the account and are never zero. */
  predicate ValidChannels(characters: seq<Character>, channels: map<Uint32, Uint8>) {
    forall id | id in channels :: id != 0 && HasCharacter(characters, id) && channels[id] != 0
  }

  /** `sound` stands for the checks on the characters themselves. */
  predicate ValidAccount(account: Account, sound: seq<Character> -> bool) {
    ProperName(account.login) && ValidChannels(account.characters, account.channels) && sound(account.characters)
  }

  predicate DistinctLogins(accounts: seq<Account>) {
    forall i, j | 0 <= i < j < |accounts| :: ToLower(accounts[i].login) != ToLower(accounts[j].login)
  }

  /** The order in which snapshots are listed. */
  predicate LoginBefore(a: Account, b: Account) {
    TextLess(ToLower(a.login), ToLower(b.login))
  }

  lemma LoginOrder()
    ensures WeakOrder(LoginBefore)
  {
    forall x: Account, y: Account ensures LoginBefore(x, y) ==> !LoginBefore(y, x) {
      TextLessTotal(ToLower(x.login), ToLower(y.login));
    }
    forall x: Account, y: Account, z: Account | !LoginBefore(x, y) && !LoginBefore(y, z) ensures !LoginBefore(x, z) {
      NotBefore(ToLower(x.login), ToLower(y.login), ToLower(z.login));
    }
  }

  /** Different logins, sorted, are strictly ascending. */
  lemma LoginsAscend(accounts: seq<Account>, sorted: seq<Account>)
    requires multiset(accounts) == multiset(sorted) && AscendingBy(sorted, LoginBefore) && DistinctLogins(accounts)
    ensures DistinctLogins(sorted)
    ensures forall i, j | 0 <= i < j < |sorted| :: TextLess(ToLower(sorted[i].login), ToLower(sorted[j].login))
  {
    hide ToLower, TextLess;
    AllApartPermute(accounts, sorted, (x: Account, y: Account) => ToLower(x.login) != ToLower(y.login));
    forall i, j | 0 <= i < j < |sorted| ensures TextLess(ToLower(sorted[i].login), ToLower(sorted[j].login)) {
      assert !LoginBefore(sorted[j], sorted[i]);
      TextLessTotal(ToLower(sorted[i].login), ToLower(sorted[j].login));
    }
  }

  method ValidateChannels(account: Account) returns (ok: bool)
    ensures ok <==> ValidChannels(account.characters, account.channels)
  {
    var ids: set<Uint32> := {};
    for i := 0 to |account.characters|
      invariant forall v: Uint32 :: v in ids <==> v != 0 && HasCharacter(account.characters[..i], v)
    {
      assert account.characters[..i + 1][..i] == account.characters[..i];
      forall v: Uint32 ensures HasCharacter(account.characters[..i + 1], v) <==> HasCharacter(account.characters[..i], v) || account.characters[i].id == v {
        HasCharacterLast(account.characters[..i + 1], v);
      }
      if account.characters[i].id != 0 {
        ids := ids + {account.characters[i].id};
      }
    }
    assert account.characters[..|account.characters|] == account.characters;
    var keys := AnyOrder(account.channels.Keys);
    for k := 0 to |keys|
      invariant forall l | 0 <= l < k :: keys[l] in ids && keys[l] in account.channels && account.channels[keys[l]] != 0
    {
      assert keys[k] in keys;
      if keys[k] !in ids || account.channels[keys[k]] == 0 {
        return false;
      }
    }
    forall id | id in account.channels ensures id != 0 && HasCharacter(account.characters, id) && account.channels[id] != 0 {
      assert id in keys;
    }
    return true;
  }

  // ---------------------------------------------------------------------------------------------
  // Channels kept from the snapshot before.
  // ---------------------------------------------------------------------------------------------

  /** The given channels, completed for the first characters by those of the snapshot before. */
  function Preserved(characters: seq<Character>, given: map<Uint32, Uint8>, previous: Account): map<Uint32, Uint8> {
    if characters == [] then given
    else
      var channels := Preserved(characters[..|characters| - 1], given, previous);
      var id := characters[|characters| - 1].id;
      if id == 0 || id in channels || !HasCharacter(previous.characters, id) then channels
      else channels[id := ChannelForCharacter(previous, id)]
  }

  /** A given channel stays; a character that was there before keeps its channel; nothing else gets one. */
  lemma {:induction false} PreservedEntries(characters: seq<Character>, given: map<Uint32, Uint8>, previous: Account, id: Uint32)
    ensures id in given ==> id in Preserved(characters, given, previous) && Preserved(characters, given, previous)[id] == given[id]
    ensures id !in given ==>
      (id in Preserved(characters, given, previous) <==> id != 0 && HasCharacter(characters, id) && HasCharacter(previous.characters, id))
    ensures id !in given && id in Preserved(characters, given, previous) ==>
      Preserved(characters, given, previous)[id] == ChannelForCharacter(previous, id)
  {
    if characters != [] {
      var n := |characters| - 1;
      PreservedEntries(characters[..n], given, previous, id);
      HasCharacterLast(characters, id);
    }
  }

  lemma HasCharacterLast(characters: seq<Character>, id: Uint32)
    requires characters != []
    ensures HasCharacter(characters, id) <==> HasCharacter(characters[..|characters| - 1], id) || characters[|characters| - 1].id == id
  {
    var n := |characters| - 1;
    if HasCharacter(characters, id) && characters[n].id != id {
      var i :| 0 <= i < |characters| && characters[i].id == id;
      assert characters[..n][i].id == id;
    }
    if HasCharacter(characters[..n], id) {
      var i :| 0 <= i < n && characters[..n][i].id == id;
      assert characters[i].id == id;
    }
    if characters[n].id == id {
      assert HasCharacter(characters, id);
    }
  }

  lemma PreservedAreValid(characters: seq<Character>, given: map<Uint32, Uint8>, previous: Account)
    requires ValidChannels(characters, given)
    ensures ValidChannels(characters, Preserved(characters, given, previous))
  {
    hide Preserved;
    forall id | id in Preserved(characters, given, previous)
      ensures id != 0 && HasCharacter(characters, id) && Preserved(characters, given, previous)[id] != 0
    {
      PreservedEntries(characters, given, previous, id);
    }
  }
}
