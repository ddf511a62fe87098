/** The migration planner over a ledger. */
module Plan {
  import opened Results
  import opened Text
  import opened Decimals
  import opened Ordered
  import S = Statements

  datatype Migration = Migration(
    version: int, name: string, upPath: string, downPath: string,
    upSql: string, downSql: string, upSha256: string, downSha256: string)

  datatype LedgerEntry = LedgerEntry(version: int, name: string, upSha256: string)

  datatype Direction = Up | Down
  datatype PlanStep = PlanStep(version: int, name: string, direction: Direction, path: string, sha256: string)
  datatype MigrationPlan = MigrationPlan(currentVersion: nat, latestVersion: nat, upToDate: bool, pending: seq<PlanStep>)

  datatype PlanError = InvalidCatalog | InvalidLedger | InvalidTarget
  type Planned<+T> = Result<T, PlanError>

  // ---------------------------------------------------------------------------------------------
  // The catalog.
  // ---------------------------------------------------------------------------------------------

  predicate ValidName(name: string) {
    && name != "" && name[0] != '_' && name[|name| - 1] != '_'
    && (forall i | 0 <= i < |name| - 1 :: !(name[i] == name[i + 1] == '_'))
    && forall i | 0 <= i < |name| :: 'a' <= name[i] <= 'z' || '0' <= name[i] <= '9' || name[i] == '_'
  }

  predicate ValidSha256Hex(s: string) {
    |s| == 64 && forall i | 0 <= i < 64 :: '0' <= s[i] <= '9' || 'a' <= s[i] <= 'f'
  }

  /** %04d of a positive version. */
  function Padded(version: nat): string {
    var d := Decimal(version);
    if |d| < 4 then seq(4 - |d|, _ => '0') + d else d
  }

  function DirectionText(direction: Direction): string {
    if direction.Up? then "up" else "down"
  }

  function MigrationPath(version: nat, name: string, direction: Direction): string {
    Padded(version) + "_" + name + "." + DirectionText(direction) + ".sql"
  }

  /** The first line of a body behind leading blanks and newlines, without carriage returns at its end. */
  function HeaderLine(body: string): string {
    TrimCarriageReturns(UpToNewline(SkipBlankLines(body)))
  }

  function SkipBlankLines(body: string): string {
    if body != "" && body[0] in " \t\r\n" then SkipBlankLines(body[1..]) else body
  }

  function UpToNewline(body: string): string {
    if body == "" || body[0] == '\n' then "" else [body[0]] + UpToNewline(body[1..])
  }

  function TrimCarriageReturns(line: string): string {
    if line != "" && line[|line| - 1] == '\r' then TrimCarriageReturns(line[..|line| - 1]) else line
  }

  predicate ValidHeader(version: nat, name: string, direction: Direction, body: string) {
    HeaderLine(body) == "-- go-metin2 migration: " + Padded(version) + " " + name + " " + DirectionText(direction)
  }

  // ---------------------------------------------------------------------------------------------
  // What the texts of a migration say.
  // ---------------------------------------------------------------------------------------------

  lemma {:induction false} ZerosInFront(zeros: string, digits: string)
    requires AllDigits(digits) && forall i | 0 <= i < |zeros| :: zeros[i] == '0'
    ensures AllDigits(zeros + digits) && Value(zeros + digits) == Value(digits)
    decreases |zeros| + |digits|
  {
    var s := zeros + digits;
    if digits != "" {
      ZerosInFront(zeros, digits[..|digits| - 1]);
      assert s[..|s| - 1] == zeros + digits[..|digits| - 1];
    } else if zeros != "" {
      ZerosInFront(zeros[..|zeros| - 1], "");
      assert s[..|s| - 1] == zeros[..|zeros| - 1] + "";
    }
  }

  /** The version as at least four digits, and no more than it takes. */
  lemma PaddedReads(version: nat)
    ensures AllDigits(Padded(version)) && Value(Padded(version)) == version
    ensures |Padded(version)| >= 4 && (|Padded(version)| > 4 ==> Padded(version) == Decimal(version))
  {
    hide Decimal;
    var d := Decimal(version);
    ValueOfDecimal(version);
    if |d| < 4 {
      ZerosInFront(seq(4 - |d|, _ => '0'), d);
    }
  }

  /** Blanks, the line, carriage returns, and whatever follows on lines of its own. */
  predicate Framed(body: string, blanks: string, line: string, ends: string, rest: string) {
    && body == blanks + line + ends + rest
    && (forall i | 0 <= i < |blanks| :: blanks[i] in " \t\r\n") && (forall i | 0 <= i < |ends| :: ends[i] == '\r')
    && (rest == "" || rest[0] == '\n')
  }

  lemma {:induction false} SkipsBlanks(body: string) returns (blanks: string)
    ensures body == blanks + SkipBlankLines(body) && forall i | 0 <= i < |blanks| :: blanks[i] in " \t\r\n"
  {
    blanks := "";
    if body != "" && body[0] in " \t\r\n" {
      var more := SkipsBlanks(body[1..]);
      blanks := [body[0]] + more;
    }
  }

  lemma {:induction false} CutsLine(body: string) returns (rest: string)
    ensures body == UpToNewline(body) + rest && (rest == "" || rest[0] == '\n')
  {
    rest := body;
    if body != "" && body[0] != '\n' {
      rest := CutsLine(body[1..]);
    }
  }

  lemma {:induction false} DropsReturns(line: string) returns (ends: string)
    ensures line == TrimCarriageReturns(line) + ends && forall i | 0 <= i < |ends| :: ends[i] == '\r'
  {
    ends := "";
    if line != "" && line[|line| - 1] == '\r' {
      var more := DropsReturns(line[..|line| - 1]);
      ends := more + "\r";
    }
  }

  lemma {:induction false} SkipsAllBlanks(blanks: string, body: string)
    requires (forall i | 0 <= i < |blanks| :: blanks[i] in " \t\r\n") && body != "" && body[0] !in " \t\r\n"
    ensures SkipBlankLines(blanks + body) == body
  {
    if blanks == "" {
      assert blanks + body == body;
    } else {
      SkipsAllBlanks(blanks[1..], body);
      assert (blanks + body)[1..] == blanks[1..] + body;
    }
  }

  lemma {:induction false} CutsAtNewline(line: string, rest: string)
    requires '\n' !in line && (rest == "" || rest[0] == '\n')
    ensures UpToNewline(line + rest) == line
  {
    if line == "" {
      assert line + rest == rest;
    } else {
      CutsAtNewline(line[1..], rest);
      assert (line + rest)[1..] == line[1..] + rest;
    }
  }

  lemma {:induction false} DropsAllReturns(line: string, ends: string)
    requires line != "" && line[|line| - 1] != '\r' && forall i | 0 <= i < |ends| :: ends[i] == '\r'
    ensures TrimCarriageReturns(line + ends) == line
  {
    var all := line + ends;
    if ends == "" {
      assert all == line;
    } else {
      DropsAllReturns(line, ends[..|ends| - 1]);
      assert all[..|all| - 1] == line + ends[..|ends| - 1];
    }
  }

  /** What the header line is. */
  lemma LineStands(body: string, line: string)
    requires line != "" && line[0] !in " \t\r\n" && line[|line| - 1] != '\r' && '\n' !in line
    ensures HeaderLine(body) == line <==> exists blanks, ends, rest :: Framed(body, blanks, line, ends, rest)
  {
    hide SkipBlankLines, UpToNewline, TrimCarriageReturns;
    if HeaderLine(body) == line {
      var blanks := SkipsBlanks(body);
      var rest := CutsLine(SkipBlankLines(body));
      var ends := DropsReturns(UpToNewline(SkipBlankLines(body)));
      assert blanks + (line + ends + rest) == blanks + line + ends + rest;
      assert Framed(body, blanks, line, ends, rest);
    }
    if blanks, ends, rest :| Framed(body, blanks, line, ends, rest) {
      var front := line + ends + rest;
      assert body == blanks + front && front[0] == line[0];
      SkipsAllBlanks(blanks, front);
      CutsAtNewline(line + ends, rest);
      DropsAllReturns(line, ends);
    }
  }

  /** A migration has its header exactly when the header is the first line behind blanks, up to carriage returns. */
  lemma HeaderStands(version: nat, name: string, direction: Direction, body: string, header: string)
    requires header == "-- go-metin2 migration: " + Padded(version) + " " + name + " " + (if direction == Up then "up" else "down")
    requires '\n' !in name
    ensures ValidHeader(version, name, direction, body) <==> exists blanks, ends, rest :: Framed(body, blanks, header, ends, rest)
  {
    hide Padded, HeaderLine, Framed;
    PaddedReads(version);
    assert header[0] == '-' && header[|header| - 1] in "pn" && '\n' !in header;
    LineStands(body, header);
  }

  /** The file names of a migration. */
  lemma PathsRead(version: nat, name: string)
    ensures MigrationPath(version, name, Up) == Padded(version) + "_" + name + ".up.sql"
    ensures MigrationPath(version, name, Down) == Padded(version) + "_" + name + ".down.sql"
  {
    hide Padded;
    assert forall a: string, b: string, c: string, d: string :: a + b + c + d == a + (b + c + d);
    assert "." + "up" + ".sql" == ".up.sql" && "." + "down" + ".sql" == ".down.sql";
  }

  /** One direction of a migration: checksum, header and statement boundaries of its SQL. */
  predicate ValidSql(sha256Hex: string -> string, version: nat, name: string, direction: Direction, sql: string, sum: string) {
    && ValidSha256Hex(sum) && TrimSpace(sql) != "" && sha256Hex(sql) == sum
    && ValidHeader(version, name, direction, sql)
    && S.Split(sql).Ok?
  }

  predicate ValidMigration(sha256Hex: string -> string, migration: Migration, version: nat) {
    && migration.version == version
    && ValidName(migration.name)
    && migration.upPath == MigrationPath(version, migration.name, Up)
    && migration.downPath == MigrationPath(version, migration.name, Down)
    && ValidSql(sha256Hex, version, migration.name, Up, migration.upSql, migration.upSha256)
    && ValidSql(sha256Hex, version, migration.name, Down, migration.downSql, migration.downSha256)
  }

  predicate ValidCatalog(sha256Hex: string -> string, catalog: seq<Migration>) {
    catalog != [] && forall i | 0 <= i < |catalog| :: ValidMigration(sha256Hex, catalog[i], i + 1)
  }

  /** Versions are 1, 2, 3, ... */
  predicate Contiguous(catalog: seq<Migration>) {
    forall i | 0 <= i < |catalog| :: catalog[i].version == i + 1
  }

  method ValidatePlanCatalog(sha256Hex: string -> string, catalog: seq<Migration>) returns (ok: bool)
    ensures ok <==> ValidCatalog(sha256Hex, catalog)
  {
    hide ValidName, ValidSha256Hex, ValidHeader, MigrationPath, TrimSpace, S.Split;
    if |catalog| == 0 {
      return false;
    }
    for i := 0 to |catalog|
      invariant forall k | 0 <= k < i :: ValidMigration(sha256Hex, catalog[k], k + 1)
    {
      var migration, wantVersion := catalog[i], i + 1;
      if migration.version != wantVersion || !ValidName(migration.name) {
        return false;
      }
      if || migration.upPath != MigrationPath(wantVersion, migration.name, Up)
         || migration.downPath != MigrationPath(wantVersion, migration.name, Down) {
        return false;
      }
      if !ValidSha256Hex(migration.upSha256) || !ValidSha256Hex(migration.downSha256) {
        return false;
      }
      if TrimSpace(migration.upSql) == "" || TrimSpace(migration.downSql) == "" {
        return false;
      }
      if sha256Hex(migration.upSql) != migration.upSha256 || sha256Hex(migration.downSql) != migration.downSha256 {
        return false;
      }
      if !ValidHeader(wantVersion, migration.name, Up, migration.upSql) {
        return false;
      }
      var up := S.SplitStatements(migration.upSql);
      if up.Err? || !ValidHeader(wantVersion, migration.name, Down, migration.downSql) {
        return false;
      }
      var down := S.SplitStatements(migration.downSql);
      if down.Err? {
        return false;
      }
    }
    return true;
  }

  // ---------------------------------------------------------------------------------------------
  // The ledger.
  // ---------------------------------------------------------------------------------------------

  function EntryOf(migration: Migration): LedgerEntry {
    LedgerEntry(migration.version, migration.name, migration.upSha256)
  }

  /** The ledger at a version: the first `version` migrations of the catalog. */
  function LedgerAt(catalog: seq<Migration>, version: nat): (ledger: seq<LedgerEntry>)
    requires version <= |catalog|
    ensures |ledger| == version
    ensures forall i | 0 <= i < version :: ledger[i] == LedgerEntry(catalog[i].version, catalog[i].name, catalog[i].upSha256)
  {
    if version == 0 then [] else LedgerAt(catalog, version - 1) + [EntryOf(catalog[version - 1])]
  }

  /** The rows of a ledger, without their order. */
  function RowsOf(ledger: seq<LedgerEntry>): multiset<LedgerEntry> {
    multiset(ledger)
  }

  /** A permutation of the ledger at a version. */
  predicate IsLedgerAt(catalog: seq<Migration>, ledger: seq<LedgerEntry>, version: nat) {
    version <= |catalog| && RowsOf(ledger) == RowsOf(LedgerAt(catalog, version))
  }

  function VersionKey(entry: LedgerEntry): Key {
    Key(entry.version, 0, 0, 0)
  }

  lemma LedgerAtSorted(catalog: seq<Migration>, version: nat)
    requires Contiguous(catalog) && version <= |catalog|
    ensures Sorted(LedgerAt(catalog, version), VersionKey)
  {
  }

  /** A ledger is the ledger of at most one version. */
  lemma LedgerVersionIsLength(catalog: seq<Migration>, ledger: seq<LedgerEntry>, version: nat)
    requires IsLedgerAt(catalog, ledger, version)
    ensures version == |ledger|
  {
    InMultiset(ledger, LedgerAt(catalog, version));
  }

  /** A ledger validates with version n exactly when it is a permutation of the first n catalog entries. */
  method ValidateLedger(catalog: seq<Migration>, ledger: seq<LedgerEntry>) returns (r: Planned<nat>)
    requires catalog != [] && Contiguous(catalog)
    ensures r.Ok? <==> IsLedgerAt(catalog, ledger, |ledger|)
    ensures r.Ok? ==> r.value == |ledger|
    ensures r.Err? ==> r.error == InvalidLedger
  {
    if |ledger| == 0 {
      assert ledger == LedgerAt(catalog, 0);
      return Ok(0);
    }
    var entries := SortBy(ledger, VersionKey);
    InMultiset(entries, ledger);
    hide LedgerAt;
    if IsLedgerAt(catalog, ledger, |ledger|) {
      LedgerAtSorted(catalog, |ledger|);
      SortIsUnique(entries, LedgerAt(catalog, |ledger|), VersionKey);
    }
    var seen: set<int> := {};
    for i := 0 to |entries|
      invariant IsLedgerAt(catalog, ledger, |ledger|) ==> entries == LedgerAt(catalog, |ledger|)
      invariant forall v | v in seen :: v <= i
      invariant i <= |catalog| && forall k | 0 <= k < i :: entries[k] == EntryOf(catalog[k])
    {
      var entry := entries[i];
      if entry.version <= 0 {
        return Err(InvalidLedger);
      }
      if entry.version in seen {
        return Err(InvalidLedger);
      }
      seen := seen + {entry.version};
      var wantVersion := i + 1;
      if entry.version != wantVersion || entry.version > |catalog| {
        return Err(InvalidLedger);
      }
      var migration := catalog[entry.version - 1];
      if entry.name != migration.name || entry.upSha256 != migration.upSha256 {
        return Err(InvalidLedger);
      }
    }
    assert entries == LedgerAt(catalog, |entries|);
    return Ok(|entries|);
  }

  // ---------------------------------------------------------------------------------------------
  // The plan.
  // ---------------------------------------------------------------------------------------------

  function StepOf(migration: Migration, direction: Direction): PlanStep {
    if direction.Up? then PlanStep(migration.version, migration.name, Up, migration.upPath, migration.upSha256)
    else PlanStep(migration.version, migration.name, Down, migration.downPath, migration.downSha256)
  }

  /** The steps from one version to another: up in order, or down in reverse order. */
  function StepsBetween(catalog: seq<Migration>, current: nat, target: nat): (steps: seq<PlanStep>)
    requires current <= |catalog| && target <= |catalog|
    ensures |steps| == if target >= current then target - current else current - target
    decreases if target >= current then target - current else current - target
  {
    if target > current then [StepOf(catalog[current], Up)] + StepsBetween(catalog, current + 1, target)
    else if target < current then [StepOf(catalog[current - 1], Down)] + StepsBetween(catalog, current - 1, target)
    else []
  }

  /** Every step of a plan. */
  lemma {:induction false} StepAt(catalog: seq<Migration>, current: nat, target: nat, i: nat)
    requires current <= |catalog| && target <= |catalog| && i < |StepsBetween(catalog, current, target)|
    ensures StepsBetween(catalog, current, target)[i] ==
      if target > current then
        var m := catalog[current + i];
        PlanStep(m.version, m.name, Up, m.upPath, m.upSha256)
      else
        var m := catalog[current - 1 - i];
        PlanStep(m.version, m.name, Down, m.downPath, m.downSha256)
    decreases i
  {
    if i > 0 {
      StepAt(catalog, if target > current then current + 1 else current - 1, target, i - 1);
    }
  }

  lemma {:induction false} PlanGrowsUp(catalog: seq<Migration>, current: nat, target: nat)
    requires current < target <= |catalog|
    ensures StepsBetween(catalog, current, target) == StepsBetween(catalog, current, target - 1) + [StepOf(catalog[target - 1], Up)]
    decreases target - current
  {
    hide StepOf;
    if target > current + 1 {
      PlanGrowsUp(catalog, current + 1, target);
    }
  }

  lemma {:induction false} PlanGrowsDown(catalog: seq<Migration>, current: nat, target: nat)
    requires target < current <= |catalog|
    ensures StepsBetween(catalog, current, target) == StepsBetween(catalog, current, target + 1) + [StepOf(catalog[target], Down)]
    decreases current - target
  {
    hide StepOf;
    if target < current - 1 {
      PlanGrowsDown(catalog, current - 1, target);
    }
  }

  method PlanStepsToVersion(catalog: seq<Migration>, current: nat, target: nat) returns (steps: seq<PlanStep>)
    requires current <= |catalog| && target <= |catalog|
    ensures steps == StepsBetween(catalog, current, target)
  {
    steps := [];
    assert StepsBetween(catalog, current, current) == [];
    hide StepsBetween;
    if current == target {
      return;
    }
    if target > current {
      steps := StepsUp(catalog, current, target);
      return;
    }
    steps := StepsDown(catalog, current, target);
  }

  method StepsUp(catalog: seq<Migration>, current: nat, target: nat) returns (steps: seq<PlanStep>)
    requires current < target <= |catalog|
    ensures steps == StepsBetween(catalog, current, target)
  {
    steps := [];
    assert StepsBetween(catalog, current, current) == [];
    hide StepsBetween, StepOf;
    for i := current to target
      invariant steps == StepsBetween(catalog, current, i)
    {
      PlanGrowsUp(catalog, current, i + 1);
      steps := steps + [StepOf(catalog[i], Up)];
    }
  }

  method StepsDown(catalog: seq<Migration>, current: nat, target: nat) returns (steps: seq<PlanStep>)
    requires target < current <= |catalog|
    ensures steps == StepsBetween(catalog, current, target)
  {
    steps := [];
    assert StepsBetween(catalog, current, current) == [];
    hide StepsBetween, StepOf;
    var version := current;
    while version > target
      invariant target <= version <= current
      invariant steps == StepsBetween(catalog, current, version)
    {
      PlanGrowsDown(catalog, current, version - 1);
      steps := steps + [StepOf(catalog[version - 1], Down)];
      version := version - 1;
    }
  }

  /** What a plan is for a catalog, a ledger and a target, and when there is none. */
  function PlanFor(sha256Hex: string -> string, catalog: seq<Migration>, ledger: seq<LedgerEntry>, target: int): Planned<MigrationPlan>
  {
    if !ValidCatalog(sha256Hex, catalog) then Err(InvalidCatalog)
    else if !IsLedgerAt(catalog, ledger, |ledger|) then Err(InvalidLedger)
    else if !(0 <= target <= |catalog|) then Err(InvalidTarget)
    else Ok(MigrationPlan(|ledger|, |catalog|, |ledger| == target, StepsBetween(catalog, |ledger|, target)))
  }

  /** Each error exactly when its check is the first to fail; otherwise the versions and the steps between them. */
  lemma PlanSays(sha256Hex: string -> string, catalog: seq<Migration>, ledger: seq<LedgerEntry>, target: int)
    ensures var r := PlanFor(sha256Hex, catalog, ledger, target);
      && (r == Err(InvalidCatalog) <==> !ValidCatalog(sha256Hex, catalog))
      && (r == Err(InvalidLedger) <==> ValidCatalog(sha256Hex, catalog) && !IsLedgerAt(catalog, ledger, |ledger|))
      && (r == Err(InvalidTarget) <==>
            ValidCatalog(sha256Hex, catalog) && IsLedgerAt(catalog, ledger, |ledger|) && !(0 <= target <= |catalog|))
    ensures var r := PlanFor(sha256Hex, catalog, ledger, target);
      r.Ok? ==>
        && |ledger| <= |catalog| && 0 <= target <= |catalog|
        && r.value == MigrationPlan(|ledger|, |catalog|, |ledger| == target, StepsBetween(catalog, |ledger|, target))
  {
    hide ValidCatalog, RowsOf, LedgerAt, StepsBetween;
  }

  lemma CatalogIsContiguous(sha256Hex: string -> string, catalog: seq<Migration>)
    requires ValidCatalog(sha256Hex, catalog)
    ensures Contiguous(catalog)
  {
    hide ValidName, MigrationPath, ValidSql;
  }

  method PlanCatalogToVersion(sha256Hex: string -> string, catalog: seq<Migration>, ledger: seq<LedgerEntry>, target: int)
    returns (r: Planned<MigrationPlan>)
    ensures r == PlanFor(sha256Hex, catalog, ledger, target)
  {
    hide ValidCatalog;
    var ok := ValidatePlanCatalog(sha256Hex, catalog);
    if !ok {
      return Err(InvalidCatalog);
    }
    CatalogIsContiguous(sha256Hex, catalog);
    NonEmptyCatalog(sha256Hex, catalog);
    var current := ValidateLedger(catalog, ledger);
    if current.Err? {
      return Err(current.error);
    }
    var latest := catalog[|catalog| - 1].version;
    if target < 0 || target > latest {
      return Err(InvalidTarget);
    }
    var pending := PlanStepsToVersion(catalog, current.value, target);
    return Ok(MigrationPlan(current.value, latest, current.value == target, pending));
  }

  lemma NonEmptyCatalog(sha256Hex: string -> string, catalog: seq<Migration>)
    requires ValidCatalog(sha256Hex, catalog)
    ensures catalog != []
  {
  }

  // ---------------------------------------------------------------------------------------------
  // Replaying a plan on a ledger.
  // ---------------------------------------------------------------------------------------------

  /** The ledger row a step of the catalog inserts on the way up and deletes on the way down. */
  function Change(catalog: seq<Migration>, ledger: multiset<LedgerEntry>, step: PlanStep): multiset<LedgerEntry> {
    if !(1 <= step.version <= |catalog|) then ledger
    else if step.direction.Up? then ledger + multiset{EntryOf(catalog[step.version - 1])}
    else ledger - multiset{EntryOf(catalog[step.version - 1])}
  }

  function Replay(catalog: seq<Migration>, ledger: multiset<LedgerEntry>, steps: seq<PlanStep>): multiset<LedgerEntry>
    decreases |steps|
  {
    if steps == [] then ledger
    else Change(catalog, Replay(catalog, ledger, steps[..|steps| - 1]), steps[|steps| - 1])
  }

  /** One step up adds the next catalog row to the ledger of a version; one step down takes it off again. */
  lemma ChangeAcross(catalog: seq<Migration>, version: nat)
    requires Contiguous(catalog) && version < |catalog|
    ensures var below, above := RowsOf(LedgerAt(catalog, version)), RowsOf(LedgerAt(catalog, version + 1));
      && Change(catalog, below, StepOf(catalog[version], Up)) == above
      && Change(catalog, above, StepOf(catalog[version], Down)) == below
  {
    var row := EntryOf(catalog[version]);
    assert RowsOf(LedgerAt(catalog, version + 1)) == RowsOf(LedgerAt(catalog, version)) + multiset{row};
  }

  lemma ReplayLast(catalog: seq<Migration>, ledger: multiset<LedgerEntry>, steps: seq<PlanStep>, step: PlanStep)
    ensures Replay(catalog, ledger, steps + [step]) == Change(catalog, Replay(catalog, ledger, steps), step)
  {
    assert (steps + [step])[..|steps|] == steps;
  }

  /** The first k steps of a plan are the plan to the version k steps away. */
  lemma {:induction false} PrefixIsPlan(catalog: seq<Migration>, current: nat, target: nat, k: nat)
    requires current <= |catalog| && target <= |catalog| && k <= |StepsBetween(catalog, current, target)|
    ensures StepsBetween(catalog, current, target)[..k]
      == StepsBetween(catalog, current, if target >= current then current + k else current - k)
    decreases k
  {
    if k > 0 {
      PrefixIsPlan(catalog, if target > current then current + 1 else current - 1, target, k - 1);
    }
  }

  /** Replaying a plan turns the ledger of the current version into the ledger of the target. */
  lemma {:induction false} ReplayReachesTarget(catalog: seq<Migration>, current: nat, target: nat)
    requires Contiguous(catalog) && current <= |catalog| && target <= |catalog|
    ensures Replay(catalog, RowsOf(LedgerAt(catalog, current)), StepsBetween(catalog, current, target))
      == RowsOf(LedgerAt(catalog, target))
    decreases if target > current then target - current else current - target
  {
    var ledger := RowsOf(LedgerAt(catalog, current));
    if target == current {
      assert StepsBetween(catalog, current, target) == [];
    } else if target > current {
      ReplayReachesTarget(catalog, current, target - 1);
      PlanGrowsUp(catalog, current, target);
      ReplayLast(catalog, ledger, StepsBetween(catalog, current, target - 1), StepOf(catalog[target - 1], Up));
      ChangeAcross(catalog, target - 1);
    } else {
      hide StepsBetween, Replay, LedgerAt, Change;
      ReplayReachesTarget(catalog, current, target + 1);
      PlanGrowsDown(catalog, current, target);
      ReplayLast(catalog, ledger, StepsBetween(catalog, current, target + 1), StepOf(catalog[target], Down));
      ChangeAcross(catalog, target);
    }
  }

  /** After any number of steps of a plan the ledger is the ledger of a catalog version. */
  lemma ReplayStaysOnCatalog(catalog: seq<Migration>, current: nat, target: nat, k: nat)
    requires Contiguous(catalog) && current <= |catalog| && target <= |catalog|
    requires k <= |StepsBetween(catalog, current, target)|
    ensures var version := if target >= current then current + k else current - k;
      Replay(catalog, RowsOf(LedgerAt(catalog, current)), StepsBetween(catalog, current, target)[..k])
        == RowsOf(LedgerAt(catalog, version))
  {
    hide Replay, LedgerAt;
    PrefixIsPlan(catalog, current, target, k);
    ReplayReachesTarget(catalog, current, if target >= current then current + k else current - k);
  }

  function Flip(catalog: seq<Migration>, step: PlanStep): PlanStep
    requires 1 <= step.version <= |catalog|
  {
    StepOf(catalog[step.version - 1], if step.direction.Up? then Down else Up)
  }

  /** The plan back is the plan reversed, with every direction flipped. */
  lemma PlanBackIsReversed(catalog: seq<Migration>, from: nat, to: nat)
    requires Contiguous(catalog) && from <= |catalog| && to <= |catalog|
    ensures var there, back := StepsBetween(catalog, from, to), StepsBetween(catalog, to, from);
      && |back| == |there|
      && forall i | 0 <= i < |there| ::
           1 <= there[i].version <= |catalog| && back[|there| - 1 - i] == Flip(catalog, there[i])
  {
    hide StepsBetween;
    var there, back := StepsBetween(catalog, from, to), StepsBetween(catalog, to, from);
    forall i | 0 <= i < |there|
      ensures 1 <= there[i].version <= |catalog| && back[|there| - 1 - i] == Flip(catalog, there[i])
    {
      StepAt(catalog, from, to, i);
      StepAt(catalog, to, from, |there| - 1 - i);
    }
  }
}
