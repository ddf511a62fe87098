/** Channels in account files. */
module AccountJson {
  import opened Results
  import opened Integers
  import opened Accounts
  import opened Backup
  import opened BackupStore

  /** A character in a file: its channel stands beside it, if it has one. */
  datatype CharacterRecord = CharacterRecord(character: Character, channel: Option<Uint8>)
  datatype AccountRecord = AccountRecord(login: string, empire: Uint8, characters: seq<CharacterRecord>)

  // ---------------------------------------------------------------------------------------------
  // Writing.
  // ---------------------------------------------------------------------------------------------

  function RecordOf(account: Account, c: Character): CharacterRecord {
    CharacterRecord(c, if c.id == 0 then None else Some(ChannelForCharacter(account, c.id)))
  }

  function Records(account: Account, characters: seq<Character>): (records: seq<CharacterRecord>)
    ensures |records| == |characters| && forall i | 0 <= i < |characters| :: records[i] == RecordOf(account, characters[i])
  {
    if characters == [] then []
    else Records(account, characters[..|characters| - 1]) + [RecordOf(account, characters[|characters| - 1])]
  }

  function Encoded(account: Account): AccountRecord {
    AccountRecord(account.login, account.empire, Records(account, account.characters))
  }

  method EncodeAccountWithChannels(account: Account) returns (record: AccountRecord)
    ensures record == Encoded(account)
    ensures record.login == account.login && record.empire == account.empire && |record.characters| == |account.characters|
    ensures forall i | 0 <= i < |account.characters| :: var c := account.characters[i];
      record.characters[i] == CharacterRecord(c,
        if c.id == 0 then None
        else if c.id in account.channels && account.channels[c.id] != 0 then Some(account.channels[c.id])
        else Some(1))
  {
    var characters := [];
    for i := 0 to |account.characters|
      invariant characters == Records(account, account.characters[..i])
    {
      var c := account.characters[i];
      assert account.characters[..i + 1][..i] == account.characters[..i];
      var channel: Option<Uint8> := None;
      if c.id != 0 {
        channel := Some(ChannelForCharacter(account, c.id));
      }
      characters := characters + [CharacterRecord(c, channel)];
    }
    assert account.characters[..|account.characters|] == account.characters;
    return AccountRecord(account.login, account.empire, characters);
  }

  // ---------------------------------------------------------------------------------------------
  // Reading.
  // ---------------------------------------------------------------------------------------------

  /** A channel is not zero and belongs to an occupied slot. */
  predicate ValidRecord(r: CharacterRecord) {
    r.channel.Some? ==> r.channel.value != 0 && r.character.id != 0
  }

  function CharactersOf(records: seq<CharacterRecord>): (characters: seq<Character>)
    ensures |characters| == |records| && forall i | 0 <= i < |records| :: characters[i] == records[i].character
  {
    if records == [] then [] else CharactersOf(records[..|records| - 1]) + [records[|records| - 1].character]
  }

  /** The last record of an id decides. */
  function ChannelsOf(records: seq<CharacterRecord>): map<Uint32, Uint8> {
    if records == [] then map[]
    else
      var channels, last := ChannelsOf(records[..|records| - 1]), records[|records| - 1];
      if last.channel.Some? then channels[last.character.id := last.channel.value] else channels
  }

  function Decoded(record: AccountRecord): Option<Account> {
    if exists i :: 0 <= i < |record.characters| && !ValidRecord(record.characters[i]) then None
    else Some(Account(record.login, record.empire, CharactersOf(record.characters), ChannelsOf(record.characters)))
  }

  method DecodeAccount(record: AccountRecord) returns (account: Option<Account>)
    ensures account == Decoded(record)
    ensures account.None? <==> exists i ::
      0 <= i < |record.characters| && record.characters[i].channel.Some? && (record.characters[i].channel.value == 0 || record.characters[i].character.id == 0)
    ensures account.Some? ==> account.value.login == record.login && account.value.empire == record.empire
    ensures account.Some? ==>
      && |account.value.characters| == |record.characters|
      && forall i | 0 <= i < |record.characters| :: account.value.characters[i] == record.characters[i].character
  {
    var channels: map<Uint32, Uint8>, characters: seq<Character> := map[], [];
    for i := 0 to |record.characters|
      invariant forall k | 0 <= k < i :: ValidRecord(record.characters[k])
      invariant channels == ChannelsOf(record.characters[..i]) && characters == CharactersOf(record.characters[..i])
    {
      var r := record.characters[i];
      assert record.characters[..i + 1][..i] == record.characters[..i];
      if r.channel.Some? {
        if r.channel.value == 0 || r.character.id == 0 {
          assert !ValidRecord(record.characters[i]);
          return None;
        }
        channels := channels[r.character.id := r.channel.value];
      }
      characters := characters + [r.character];
    }
    assert record.characters[..|record.characters|] == record.characters;
    return Some(Account(record.login, record.empire, characters, channels));
  }

  /** An account has a channel for the ids that have one in the file, and of several the last. */
  lemma {:induction false} LastChannelDecides(records: seq<CharacterRecord>, id: Uint32)
    ensures id in ChannelsOf(records) <==> exists i :: 0 <= i < |records| && records[i].channel.Some? && records[i].character.id == id
    ensures forall i | 0 <= i < |records| && records[i].channel.Some? && records[i].character.id == id
      && (forall j | i < j < |records| :: records[j].channel.None? || records[j].character.id != id) ::
      ChannelsOf(records)[id] == records[i].channel.value
  {
    if records != [] {
      var n := |records| - 1;
      LastChannelDecides(records[..n], id);
      if i :| 0 <= i < n && records[..n][i].channel.Some? && records[..n][i].character.id == id {
        assert records[i] == records[..n][i];
      }
    }
  }

  // ---------------------------------------------------------------------------------------------
  // What comes back.
  // ---------------------------------------------------------------------------------------------

  lemma {:induction false} RecordsReadBack(account: Account, characters: seq<Character>)
    ensures CharactersOf(Records(account, characters)) == characters
    ensures ChannelsOf(Records(account, characters)) == ExplicitChannels(characters, account)
  {
    hide ChannelForCharacter;
    if characters != [] {
      var n := |characters| - 1;
      RecordsReadBack(account, characters[..n]);
      assert Records(account, characters)[..n] == Records(account, characters[..n]);
    }
  }

  /** An account comes back with its channels written out: unchanged exactly when they already were. */
  lemma EncodedDecodes(account: Account)
    ensures Decoded(Encoded(account)) == Some(Explicit(account))
    ensures Decoded(Encoded(account)) == Some(account) <==> account.channels == ExplicitChannels(account.characters, account)
  {
    hide ExplicitChannels, Records, ChannelsOf, CharactersOf;
    RecordsReadBack(account, account.characters);
  }

  /** Written out once is written out. */
  lemma ExplicitTwice(account: Account)
    ensures Explicit(Explicit(account)) == Explicit(account)
  {
    hide ExplicitChannels;
    var once := Explicit(account);
    var twice := Explicit(once);
    forall id: Uint32 ensures id in twice.channels <==> id in once.channels
                      ensures id in once.channels ==> twice.channels[id] == once.channels[id] {
      ExplicitEntries(account.characters, account, id);
      ExplicitEntries(once.characters, once, id);
    }
  }

  // ---------------------------------------------------------------------------------------------
  // The file codec meets what the backup theorems ask of it.
  // ---------------------------------------------------------------------------------------------

  /** JSON without the channel fields in between. */
  datatype Json = Json(
    write: AccountRecord -> string, read: string -> Option<AccountRecord>,
    writeManifest: Manifest -> string, readManifest: string -> Option<Manifest>)

  /** Records come back, and manifests in which no count of zero is written. */
  ghost predicate Lossless(json: Json) {
    && (forall r :: json.read(json.write(r)) == Some(r))
    && forall m: Manifest | m.summary.emptySlots != Some(0) :: json.readManifest(json.writeManifest(m)) == Some(m)
  }

  function ReadAccount(json: Json, text: string): Option<Account> {
    var record := json.read(text);
    if record.None? then None else Decoded(record.value)
  }

  function FileCodec(json: Json, sha: string -> string, sound: seq<Character> -> bool, unique: seq<Character> -> bool): Codec {
    Codec(account => json.write(Encoded(account)), text => ReadAccount(json, text), json.writeManifest, json.readManifest, sha, sound, unique)
  }

  lemma FileCodecIsFaithful(json: Json, sha: string -> string, sound: seq<Character> -> bool, unique: seq<Character> -> bool)
    requires Lossless(json)
    ensures Faithful(FileCodec(json, sha, sound, unique))
    ensures var codec := FileCodec(json, sha, sound, unique);
      && (forall account :: codec.decode(codec.encode(account)) == Some(Explicit(account)))
      && codec.sha == sha && codec.sound == sound && codec.unique == unique
  {
    hide Encoded, Decoded, Explicit, Listed, ValidAccount, EntriesOf, SummaryOf;
    var codec := FileCodec(json, sha, sound, unique);
    forall text | codec.decode(text).Some? && ValidAccount(codec.decode(text).value, codec.sound)
      ensures codec.decode(TextOf(codec.decode(text).value, codec)) == Some(Explicit(codec.decode(text).value))
    {
      var account := codec.decode(text).value;
      EncodedDecodes(Explicit(account));
      ExplicitTwice(account);
    }
    forall account ensures codec.decode(codec.encode(account)) == Some(Explicit(account)) {
      EncodedDecodes(account);
    }
    forall accounts ensures ManifestOf(accounts, codec).summary.emptySlots != Some(0) {
      NoZeroWritten(accounts);
    }
  }

  lemma NoZeroWritten(accounts: seq<Account>)
    ensures SummaryOf(accounts).emptySlots != Some(0)
  {
  }
}
