/** Rebuilding accounts from roster and points. */
module PointRoster {
  import opened Results
  import opened Ordered
  import opened Integers
  import opened SqlTables
  import opened TextOrder
  import opened Accounts
  import opened PointStore
  import opened Ids
  import P = Points

  /** The vector of an array that nothing was written to. */
  function Zeros(): PointVector {
    seq(POINT_COUNT, _ => 0)
  }

  function EmptyCharacter(): (c: Character)
    ensures IsEmptySlot(c)
  {
    Character(0, "", 0, 0, 0, "", NO_STATS, Zeros(), "")
  }

  /** A roster character: level and map are placeholders that the checks accept. */
  function Shell(e: RosterEntry, points: seq<Int32>): Character
    requires 0 <= e.id < 0x1_0000_0000 && IsVector(points)
  {
    Character(e.id, e.name, 1, 1, 0, "", NO_STATS.(empire := e.empire), points, "")
  }

  /** Row j belongs to account owner[j], whose slot holds its shell with its points. */
  predicate Holds(account: Account, e: RosterEntry, points: seq<Int32>)
    requires 0 <= e.id < 0x1_0000_0000 && IsVector(points) && 0 <= e.slot < PLAYER_SLOTS
  {
    && account.login == e.login && account.empire == e.empire
    && |account.characters| == PLAYER_SLOTS && account.characters[e.slot] == Shell(e, points)
  }

  predicate HasSlot(roster: seq<RosterEntry>, owner: seq<nat>, i: nat, slot: nat) {
    |owner| == |roster| && exists j :: 0 <= j < |roster| && owner[j] == i && roster[j].slot == slot
  }

  /** Row j is the first of account i. */
  predicate IsFirst(owner: seq<nat>, j: nat, i: nat) {
    j < |owner| && owner[j] == i && forall k | 0 <= k < j :: owner[k] < i
  }

  predicate HasFirst(owner: seq<nat>, i: nat) {
    exists j: nat :: j < |owner| && IsFirst(owner, j, i)
  }

  /** Rows have one owner exactly when their logins are the same, and owners are numbered as they first appear. */
  predicate Numbered(roster: seq<RosterEntry>, owner: seq<nat>, n: nat) {
    && |owner| == |roster|
    && (forall j | 0 <= j < |owner| :: owner[j] < n)
    && (forall j, k | 0 <= j < |owner| && 0 <= k < |owner| :: owner[j] == owner[k] <==> ToLower(roster[j].login) == ToLower(roster[k].login))
    && forall i: nat | i < n :: HasFirst(owner, i)
  }

  predicate Vectors(vectors: seq<seq<Int32>>, n: nat) {
    |vectors| == n && forall j | 0 <= j < n :: IsVector(vectors[j])
  }

  /** Every row is held by its account. */
  predicate AllHeld(roster: seq<RosterEntry>, vectors: seq<seq<Int32>>, accounts: seq<Account>, owner: seq<nat>)
    requires LegalRoster(roster) && ReadableRoster(roster) && Vectors(vectors, |roster|) && |owner| == |roster|
  {
    forall j | 0 <= j < |roster| :: owner[j] < |accounts| && Holds(accounts[owner[j]], roster[j], vectors[j])
  }

  /** There is nothing else in the accounts. */
  predicate NothingElse(roster: seq<RosterEntry>, accounts: seq<Account>, owner: seq<nat>) {
    forall i: nat | i < |accounts| ::
      && |accounts[i].characters| == PLAYER_SLOTS && accounts[i].channels == map[]
      && forall slot: nat | slot < PLAYER_SLOTS :: HasSlot(roster, owner, i, slot) || accounts[i].characters[slot] == EmptyCharacter()
  }

  /** The rows of a roster put into accounts, which stand in the order in which they first appear. */
  predicate Placed(roster: seq<RosterEntry>, vectors: seq<seq<Int32>>, accounts: seq<Account>, owner: seq<nat>)
    requires LegalRoster(roster) && ReadableRoster(roster) && Vectors(vectors, |roster|)
  {
    Numbered(roster, owner, |accounts|) && AllHeld(roster, vectors, accounts, owner) && NothingElse(roster, accounts, owner)
  }

  /** Slot e.slot of the account of the row holds its character: named by the row, with the points, and bare otherwise. */
  predicate IsShown(account: Account, e: RosterEntry, points: seq<Int32>) {
    && account.login == e.login && account.empire == e.empire && account.channels == map[]
    && 0 <= e.slot < |account.characters| == 4
    && var c := account.characters[e.slot];
    && c.id == e.id && c.name == e.name && c.level == 1 && c.mapIndex == 1 && c.gold == 0 && c.guildName == "" && c.rest == ""
    && c.stats == Stats(0, 0, 0, 0, 0, 0, 0, 0, 0, 0, 0, 0, 0, e.empire, 0, 0) && c.points == points
  }

  /** What is placed is shown, and occupied slots show rows. */
  lemma PlacedIsShown(roster: seq<RosterEntry>, vectors: seq<seq<Int32>>, accounts: seq<Account>, owner: seq<nat>)
    requires LegalRoster(roster) && ReadableRoster(roster) && Vectors(vectors, |roster|) && Placed(roster, vectors, accounts, owner)
    ensures |owner| == |roster| && forall j | 0 <= j < |roster| :: owner[j] < |accounts| && IsShown(accounts[owner[j]], roster[j], vectors[j])
    ensures forall i, slot | 0 <= i < |accounts| && 0 <= slot < |accounts[i].characters| && !IsEmptySlot(accounts[i].characters[slot]) ::
      exists j | 0 <= j < |roster| :: owner[j] == i && roster[j].slot == slot
  {
    hide ToLower, HasFirst, IsEmptySlot;
    forall j | 0 <= j < |roster| ensures owner[j] < |accounts| && IsShown(accounts[owner[j]], roster[j], vectors[j]) {
      assert Holds(accounts[owner[j]], roster[j], vectors[j]);
    }
    forall i, slot | 0 <= i < |accounts| && 0 <= slot < |accounts[i].characters| && !IsEmptySlot(accounts[i].characters[slot])
      ensures exists j | 0 <= j < |roster| :: owner[j] == i && roster[j].slot == slot
    {
      assert HasSlot(roster, owner, i, slot);
    }
  }

  lemma LegalPrefix(roster: seq<RosterEntry>, j: nat)
    requires LegalRoster(roster) && ReadableRoster(roster) && j <= |roster|
    ensures LegalRoster(roster[..j]) && ReadableRoster(roster[..j])
  {
    hide ToLower;
    forall k, l | 0 <= k < l < j ensures Compatible(roster[..j][k], roster[..j][l]) {
      assert Compatible(roster[k], roster[l]);
    }
  }

  /** The next row, put into its account. */
  function Put(account: Account, e: RosterEntry, points: seq<Int32>): Account
    requires 0 <= e.id < 0x1_0000_0000 && IsVector(points) && 0 <= e.slot < |account.characters|
  {
    account.(characters := account.characters[e.slot := Shell(e, points)])
  }

  function NewAccount(e: RosterEntry): Account
    requires 0 <= e.empire < 0x100
  {
    Account(e.login, e.empire, [EmptyCharacter(), EmptyCharacter(), EmptyCharacter(), EmptyCharacter()], map[])
  }

  lemma FirstStays(owner: seq<nat>, i: nat, next: nat)
    requires HasFirst(owner, i)
    ensures HasFirst(owner + [next], i)
  {
    var j: nat :| j < |owner| && IsFirst(owner, j, i);
    assert IsFirst(owner + [next], j, i);
  }

  lemma SlotStays(roster: seq<RosterEntry>, owner: seq<nat>, i: nat, slot: nat, e: RosterEntry, next: nat)
    requires |owner| == |roster|
    ensures HasSlot(roster + [e], owner + [next], i, slot) <==> HasSlot(roster, owner, i, slot) || (next == i && e.slot == slot)
  {
    var roster', owner' := roster + [e], owner + [next];
    assert roster'[|roster|] == e && owner'[|owner|] == next;
    if HasSlot(roster, owner, i, slot) {
      var j :| 0 <= j < |roster| && owner[j] == i && roster[j].slot == slot;
      assert owner'[j] == i && roster'[j].slot == slot;
    }
  }

  /** One row more, of an account that is there. */
  lemma NumberKnown(roster: seq<RosterEntry>, owner: seq<nat>, n: nat, e: RosterEntry, k: nat)
    requires Numbered(roster, owner, n) && k < |roster| && ToLower(roster[k].login) == ToLower(e.login)
    ensures Numbered(roster + [e], owner + [owner[k]], n)
  {
    hide ToLower, HasFirst;
    forall i: nat | i < n ensures HasFirst(owner + [owner[k]], i) {
      FirstStays(owner, i, owner[k]);
    }
  }

  /** One row more, the first of its account. */
  lemma NumberNew(roster: seq<RosterEntry>, owner: seq<nat>, n: nat, e: RosterEntry)
    requires Numbered(roster, owner, n) && forall k | 0 <= k < |roster| :: ToLower(roster[k].login) != ToLower(e.login)
    ensures Numbered(roster + [e], owner + [n], n + 1)
  {
    hide ToLower, HasFirst;
    forall i: nat | i < n + 1 ensures HasFirst(owner + [n], i) {
      if i < n {
        FirstStays(owner, i, n);
      } else {
        NewIsFirst(owner, n);
      }
    }
  }

  lemma NewIsFirst(owner: seq<nat>, n: nat)
    requires forall j | 0 <= j < |owner| :: owner[j] < n
    ensures HasFirst(owner + [n], n)
  {
    assert IsFirst(owner + [n], |owner|, n);
  }

  lemma PlaceInto(roster: seq<RosterEntry>, vectors: seq<seq<Int32>>, accounts: seq<Account>, owner: seq<nat>, e: RosterEntry, points: seq<Int32>, k: nat)
    requires LegalRoster(roster) && ReadableRoster(roster) && LegalRoster(roster + [e]) && ReadableRoster(roster + [e])
    requires Vectors(vectors, |roster|) && IsVector(points) && Placed(roster, vectors, accounts, owner)
    requires k < |roster| && ToLower(roster[k].login) == ToLower(e.login)
    ensures owner[k] < |accounts| && accounts[owner[k]].empire == e.empire && 0 <= e.slot < |accounts[owner[k]].characters| && 0 <= e.id < 0x1_0000_0000
    ensures Placed(roster + [e], vectors + [points], accounts[owner[k] := Put(accounts[owner[k]], e, points)], owner + [owner[k]])
  {
    hide ToLower, Shell, EmptyCharacter, HasSlot, HasFirst;
    NumberKnown(roster, owner, |accounts|, e, k);
    var n, i, roster', vectors', owner' := |roster|, owner[k], roster + [e], vectors + [points], owner + [owner[k]];
    assert roster'[n] == e && Compatible(roster'[k], roster'[n]) && roster'[k] == roster[k];
    assert Holds(accounts[owner[k]], roster[k], vectors[k]);
    var accounts' := accounts[i := Put(accounts[i], e, points)];
    forall j | 0 <= j <= n ensures owner'[j] < |accounts'| && Holds(accounts'[owner'[j]], roster'[j], vectors'[j]) {
      if j < n {
        assert Holds(accounts[owner[j]], roster[j], vectors[j]);
        assert Compatible(roster'[j], roster'[n]);
      }
    }
    forall a: nat, slot: nat | a < |accounts'| && slot < PLAYER_SLOTS
      ensures HasSlot(roster', owner', a, slot) || accounts'[a].characters[slot] == EmptyCharacter()
    {
      SlotStays(roster, owner, a, slot, e, i);
    }
  }

  lemma PlaceNew(roster: seq<RosterEntry>, vectors: seq<seq<Int32>>, accounts: seq<Account>, owner: seq<nat>, e: RosterEntry, points: seq<Int32>)
    requires LegalRoster(roster) && ReadableRoster(roster) && LegalRoster(roster + [e]) && ReadableRoster(roster + [e])
    requires Vectors(vectors, |roster|) && IsVector(points) && Placed(roster, vectors, accounts, owner)
    requires forall k | 0 <= k < |roster| :: ToLower(roster[k].login) != ToLower(e.login)
    ensures 0 <= e.id < 0x1_0000_0000 && 0 <= e.slot < PLAYER_SLOTS && 0 <= e.empire < 0x100
    ensures Placed(roster + [e], vectors + [points], accounts + [Put(NewAccount(e), e, points)], owner + [|accounts|])
  {
    hide ToLower, Shell, EmptyCharacter, HasSlot, HasFirst;
    NumberNew(roster, owner, |accounts|, e);
    var n, i, roster', vectors', owner' := |roster|, |accounts|, roster + [e], vectors + [points], owner + [|accounts|];
    assert roster'[n] == e;
    var accounts' := accounts + [Put(NewAccount(e), e, points)];
    forall j | 0 <= j <= n ensures owner'[j] < |accounts'| && Holds(accounts'[owner'[j]], roster'[j], vectors'[j]) {
      if j < n {
        assert Holds(accounts[owner[j]], roster[j], vectors[j]);
      }
    }
    forall a: nat, slot: nat | a < |accounts'| && slot < PLAYER_SLOTS
      ensures HasSlot(roster', owner', a, slot) || accounts'[a].characters[slot] == EmptyCharacter()
    {
      SlotStays(roster, owner, a, slot, e, i);
    }
  }

  /** Where the rows so far went: every login seen has the account of one of its rows. */
  ghost predicate Indexed(byLogin: map<string, nat>, roster: seq<RosterEntry>, owner: seq<nat>)
    requires |owner| == |roster|
  {
    && (forall v | v in byLogin :: exists k :: 0 <= k < |roster| && ToLower(roster[k].login) == v && owner[k] == byLogin[v])
    && forall k | 0 <= k < |roster| :: ToLower(roster[k].login) in byLogin
  }

  lemma IndexOneMore(byLogin: map<string, nat>, roster: seq<RosterEntry>, owner: seq<nat>, e: RosterEntry, i: nat)
    requires |owner| == |roster| && Indexed(byLogin, roster, owner)
    ensures Indexed(byLogin[ToLower(e.login) := i], roster + [e], owner + [i])
  {
    hide ToLower;
    var roster', owner', more := roster + [e], owner + [i], byLogin[ToLower(e.login) := i];
    assert roster'[|roster|] == e && owner'[|owner|] == i;
    forall v | v in more ensures exists k :: 0 <= k < |roster'| && ToLower(roster'[k].login) == v && owner'[k] == more[v] {
      if v != ToLower(e.login) {
        var k :| 0 <= k < |roster| && ToLower(roster[k].login) == v && owner[k] == byLogin[v];
        assert roster'[k] == roster[k] && owner'[k] == owner[k];
      }
    }
  }

  /** The roster loop of a load: an account for every login, and every row in its slot. */
  method PlaceRoster(roster: seq<RosterEntry>, vectors: seq<seq<Int32>>) returns (r: Option<seq<Account>>, ghost owner: seq<nat>)
    requires LegalRoster(roster) && ReadableRoster(roster) && Vectors(vectors, |roster|)
    ensures r.Some? && Placed(roster, vectors, r.value, owner)
    ensures |owner| == |roster| && forall j | 0 <= j < |roster| :: owner[j] < |r.value| && IsShown(r.value[owner[j]], roster[j], vectors[j])
    ensures forall i, slot | 0 <= i < |r.value| && 0 <= slot < |r.value[i].characters| && !IsEmptySlot(r.value[i].characters[slot]) ::
      exists j | 0 <= j < |roster| :: owner[j] == i && roster[j].slot == slot
  {
    hide IsShown, IsEmptySlot, ToLower, Placed, Indexed, LegalRoster, Shell, EmptyCharacter;
    var accounts: seq<Account>, byLogin: map<string, nat> := [], map[];
    owner := [];
    NothingPlaced(vectors);
    for j := 0 to |roster|
      invariant LegalRoster(roster[..j]) && ReadableRoster(roster[..j]) && Vectors(vectors[..j], j)
      invariant Placed(roster[..j], vectors[..j], accounts, owner)
      invariant |owner| == j && Indexed(byLogin, roster[..j], owner)
    {
      var e := roster[j];
      LegalPrefix(roster, j + 1);
      assert roster[..j + 1] == roster[..j] + [e] && vectors[..j + 1] == vectors[..j] + [vectors[j]];
      var key := ToLower(e.login);
      ghost var k := Seen(byLogin, roster[..j], owner, key);
      if key !in byLogin {
        PlaceNew(roster[..j], vectors[..j], accounts, owner, e, vectors[j]);
        IndexOneMore(byLogin, roster[..j], owner, e, |accounts|);
        byLogin := byLogin[key := |accounts|];
        owner := owner + [|accounts|];
        accounts := accounts + [Put(NewAccount(e), e, vectors[j])];
      } else {
        var i := byLogin[key];
        PlaceInto(roster[..j], vectors[..j], accounts, owner, e, vectors[j], k);
        if accounts[i].empire != e.empire {
          assert false;
        }
        IndexOneMore(byLogin, roster[..j], owner, e, i);
        assert byLogin[key := i] == byLogin;
        owner := owner + [i];
        accounts := accounts[i := Put(accounts[i], e, vectors[j])];
      }
      OwnersCount(roster[..j + 1], vectors[..j + 1], accounts, owner);
    }
    assert roster[..|roster|] == roster && vectors[..|roster|] == vectors;
    PlacedIsShown(roster, vectors, accounts, owner);
    return Some(accounts), owner;
  }

  lemma NothingPlaced(vectors: seq<seq<Int32>>)
    ensures LegalRoster([]) && ReadableRoster([]) && Vectors(vectors[..0], 0) && Placed([], vectors[..0], [], []) && Indexed(map[], [], [])
  {
  }

  lemma OwnersCount(roster: seq<RosterEntry>, vectors: seq<seq<Int32>>, accounts: seq<Account>, owner: seq<nat>)
    requires LegalRoster(roster) && ReadableRoster(roster) && Vectors(vectors, |roster|) && Placed(roster, vectors, accounts, owner)
    ensures |owner| == |roster|
  {
  }

  /** The row behind an entry of the index, or none. */
  lemma Seen(byLogin: map<string, nat>, roster: seq<RosterEntry>, owner: seq<nat>, key: string) returns (k: nat)
    requires |owner| == |roster| && Indexed(byLogin, roster, owner)
    ensures key in byLogin ==> k < |roster| && ToLower(roster[k].login) == key && owner[k] == byLogin[key]
    ensures key !in byLogin ==> forall l | 0 <= l < |roster| :: ToLower(roster[l].login) != key
  {
    hide ToLower;
    k := 0;
    if key in byLogin {
      k :| 0 <= k < |roster| && ToLower(roster[k].login) == key && owner[k] == byLogin[key];
    }
  }

  // ---------------------------------------------------------------------------------------------
  // What a load returns.
  // ---------------------------------------------------------------------------------------------

  /** The vectors of the roster as the table stores them. */
  predicate StoredVectors(db: PointDb, vectors: seq<seq<Int32>>) {
    && Vectors(vectors, |db.roster|)
    && forall n, i | 0 <= n < |vectors| && 0 <= i < POINT_COUNT :: vectors[n][i] == PointAt(db.points, db.roster[n].id, i)
  }

  /** The accounts of the roster, every character in its slot with its stored points. */
  ghost predicate Loaded(db: PointDb, accounts: seq<Account>)
    requires Integrity(db) && ReadableRoster(db.roster)
  {
    exists vectors, owner :: StoredVectors(db, vectors) && Placed(db.roster, vectors, accounts, owner)
  }

  /** The row shows with the points that are stored for it, zero where none is. */
  ghost predicate Shows(account: Account, e: RosterEntry, points: Table<P.PointRow>) {
    exists vector | |vector| == 255 && IsShown(account, e, vector) :: forall k | 0 <= k < 255 ::
      vector[k] == if Key(e.id, k, 0, 0) in points then points[Key(e.id, k, 0, 0)].value else 0
  }

  /** Every row shows in an account, and an occupied slot shows a row. */
  ghost predicate ShowsRoster(db: PointDb, accounts: seq<Account>) {
    && (forall e | e in db.roster :: exists i :: 0 <= i < |accounts| && Shows(accounts[i], e, db.points))
    && forall i, slot | 0 <= i < |accounts| && 0 <= slot < |accounts[i].characters| && !IsEmptySlot(accounts[i].characters[slot]) ::
      exists e | e in db.roster :: e.slot == slot && Shows(accounts[i], e, db.points)
  }

  lemma ShownShows(account: Account, e: RosterEntry, points: Table<P.PointRow>, vector: seq<Int32>)
    requires IsVector(vector) && IsShown(account, e, vector) && forall k | 0 <= k < POINT_COUNT :: vector[k] == PointAt(points, e.id, k)
    ensures Shows(account, e, points)
  {
  }

  lemma LoadedShowsRoster(db: PointDb, accounts: seq<Account>)
    requires Integrity(db) && ReadableRoster(db.roster) && Loaded(db, accounts)
    ensures ShowsRoster(db, accounts)
  {
    hide LegalRoster, ReadableRoster, LegalPoint, IsEmptySlot, Shows, IsShown, Placed;
    var vectors, owner :| StoredVectors(db, vectors) && Placed(db.roster, vectors, accounts, owner);
    PlacedIsShown(db.roster, vectors, accounts, owner);
    forall j | 0 <= j < |db.roster| ensures Shows(accounts[owner[j]], db.roster[j], db.points) {
      ShownShows(accounts[owner[j]], db.roster[j], db.points, vectors[j]);
    }
    forall e | e in db.roster ensures exists i :: 0 <= i < |accounts| && Shows(accounts[i], e, db.points) {
      var j :| 0 <= j < |db.roster| && db.roster[j] == e;
      assert Shows(accounts[owner[j]], e, db.points);
    }
    forall i, slot | 0 <= i < |accounts| && 0 <= slot < |accounts[i].characters| && !IsEmptySlot(accounts[i].characters[slot])
      ensures exists e | e in db.roster :: e.slot == slot && Shows(accounts[i], e, db.points)
    {
      var j :| 0 <= j < |db.roster| && owner[j] == i && db.roster[j].slot == slot;
      assert db.roster[j] in db.roster;
    }
  }

  lemma VectorsOnce(db: PointDb, a: seq<seq<Int32>>, b: seq<seq<Int32>>)
    requires StoredVectors(db, a) && StoredVectors(db, b)
    ensures a == b
  {
    forall n | 0 <= n < |a| ensures a[n] == b[n] {
      assert forall i | 0 <= i < POINT_COUNT :: a[n][i] == PointAt(db.points, db.roster[n].id, i) == b[n][i];
    }
  }

  /** A row of a new account has the least number that is free. */
  lemma NewOwner(roster: seq<RosterEntry>, a: seq<nat>, b: seq<nat>, m: nat, n: nat, j: nat)
    requires Numbered(roster, a, m) && Numbered(roster, b, n) && j < |roster|
    requires forall k | 0 <= k < j :: a[k] == b[k] && a[k] != a[j]
    ensures b[j] <= a[j]
  {
    hide ToLower;
    assert a[j] < n ==> HasFirst(b, a[j]);
  }

  /** First appearance numbers the accounts in one way. */
  lemma {:induction false} OwnersOnce(roster: seq<RosterEntry>, a: seq<nat>, b: seq<nat>, m: nat, n: nat, j: nat)
    requires Numbered(roster, a, m) && Numbered(roster, b, n) && j <= |roster|
    ensures a[..j] == b[..j]
  {
    hide ToLower, HasFirst;
    if j > 0 {
      OwnersOnce(roster, a, b, m, n, j - 1);
      assert forall k | 0 <= k < j - 1 :: a[k] == a[..j - 1][k] == b[..j - 1][k] == b[k];
      if k :| 0 <= k < j - 1 && a[k] == a[j - 1] {
        assert b[k] == b[j - 1];
      } else {
        forall k | 0 <= k < j - 1 ensures b[k] != b[j - 1] {
          assert a[k] != a[j - 1];
        }
        NewOwner(roster, a, b, m, n, j - 1);
        NewOwner(roster, b, a, n, m, j - 1);
      }
      assert a[..j] == a[..j - 1] + [a[j - 1]] && b[..j] == b[..j - 1] + [b[j - 1]];
    }
  }

  lemma AccountsOnce(roster: seq<RosterEntry>, owner: seq<nat>, m: nat, n: nat)
    requires Numbered(roster, owner, m) && Numbered(roster, owner, n)
    ensures m <= n
  {
    hide ToLower;
    assert n < m ==> HasFirst(owner, n);
  }

  lemma SlotsOnce(roster: seq<RosterEntry>, vectors: seq<seq<Int32>>, a: seq<Account>, b: seq<Account>, owner: seq<nat>, i: nat, slot: nat)
    requires LegalRoster(roster) && ReadableRoster(roster) && Vectors(vectors, |roster|)
    requires Placed(roster, vectors, a, owner) && Placed(roster, vectors, b, owner) && i < |a| && i < |b| && slot < PLAYER_SLOTS
    ensures |a[i].characters| == |b[i].characters| == PLAYER_SLOTS && a[i].characters[slot] == b[i].characters[slot]
  {
    hide Shell, EmptyCharacter, Numbered;
    if HasSlot(roster, owner, i, slot) {
      var j :| 0 <= j < |roster| && owner[j] == i && roster[j].slot == slot;
      assert Holds(a[owner[j]], roster[j], vectors[j]) && Holds(b[owner[j]], roster[j], vectors[j]);
    }
  }

  lemma SameAccount(roster: seq<RosterEntry>, vectors: seq<seq<Int32>>, a: seq<Account>, b: seq<Account>, owner: seq<nat>, i: nat)
    requires LegalRoster(roster) && ReadableRoster(roster) && Vectors(vectors, |roster|)
    requires Placed(roster, vectors, a, owner) && Placed(roster, vectors, b, owner) && i < |a| && i < |b|
    ensures a[i] == b[i]
  {
    hide Shell, EmptyCharacter, ToLower;
    forall slot: nat | slot < PLAYER_SLOTS ensures a[i].characters[slot] == b[i].characters[slot] {
      SlotsOnce(roster, vectors, a, b, owner, i, slot);
    }
    assert a[i].characters == b[i].characters;
    assert HasFirst(owner, i);
    var j: nat :| j < |owner| && IsFirst(owner, j, i);
    assert Holds(a[owner[j]], roster[j], vectors[j]) && Holds(b[owner[j]], roster[j], vectors[j]);
  }

  /** A database loads in one way. */
  lemma LoadedOnce(db: PointDb, a: seq<Account>, b: seq<Account>)
    requires Integrity(db) && ReadableRoster(db.roster) && Loaded(db, a) && Loaded(db, b)
    ensures a == b
  {
    hide LegalRoster, ReadableRoster, Placed, Vectors;
    var vectors, p :| StoredVectors(db, vectors) && Placed(db.roster, vectors, a, p);
    var vectors', q :| StoredVectors(db, vectors') && Placed(db.roster, vectors', b, q);
    VectorsOnce(db, vectors, vectors');
    PlacedOnce(db.roster, vectors, a, b, p, q);
  }

  lemma PlacedOnce(roster: seq<RosterEntry>, vectors: seq<seq<Int32>>, a: seq<Account>, b: seq<Account>, p: seq<nat>, q: seq<nat>)
    requires LegalRoster(roster) && ReadableRoster(roster) && Vectors(vectors, |roster|)
    requires Placed(roster, vectors, a, p) && Placed(roster, vectors, b, q)
    ensures a == b
  {
    hide LegalRoster, ReadableRoster, Numbered, NothingElse, AllHeld;
    SameNumbering(roster, p, q, |a|, |b|);
    forall i | 0 <= i < |a| ensures a[i] == b[i] {
      SameAccount(roster, vectors, a, b, p, i);
    }
  }

  lemma SameNumbering(roster: seq<RosterEntry>, p: seq<nat>, q: seq<nat>, m: nat, n: nat)
    requires Numbered(roster, p, m) && Numbered(roster, q, n)
    ensures p == q && m == n
  {
    hide HasFirst, ToLower;
    OwnersOnce(roster, p, q, m, n, |roster|);
    assert p == p[..|roster|] == q[..|roster|] == q;
    AccountsOnce(roster, p, m, n);
    AccountsOnce(roster, p, n, m);
  }

  /** There are no more accounts than rows. */
  lemma FewAccounts(roster: seq<RosterEntry>, vectors: seq<seq<Int32>>, accounts: seq<Account>, owner: seq<nat>)
    requires LegalRoster(roster) && ReadableRoster(roster) && Vectors(vectors, |roster|) && Placed(roster, vectors, accounts, owner)
    ensures |accounts| <= |roster|
  {
    hide ToLower;
    if |accounts| > 0 {
      FirstIsLate(roster, owner, |accounts|, |accounts| - 1);
    }
  }

  /** An account first appears in a row of at least its number. */
  lemma {:induction false} FirstIsLate(roster: seq<RosterEntry>, owner: seq<nat>, n: nat, i: nat)
    requires Numbered(roster, owner, n) && i < n
    ensures exists j: nat :: i <= j < |owner| && IsFirst(owner, j, i)
  {
    hide ToLower;
    assert HasFirst(owner, i);
    var j: nat :| j < |owner| && IsFirst(owner, j, i);
    if i > 0 {
      FirstIsLate(roster, owner, n, i - 1);
      var k: nat :| i - 1 <= k < |owner| && IsFirst(owner, k, i - 1);
    }
  }
}
