# Migrations, cube recipes and account stores: a verified model

This project models, in Dafny, the parts of a Go game server whose correctness rests on loops over text, maps, sorted
rows and files, and proves what they promise.

- **Migrations** (`Statements`, `Lexing`, `StatementsTheorems`, `SqlText`, `Plan`, `Apply`, `ApplyTheorems`): the SQL
  statement splitter as a refinement of a lexer, whose meaning is spelled out in texts, and as a round trip; the planner over a ledger; the applier, for every driver.
- **Cube recipes** (`CubeModel`, `CubeRows`, `CubeFlatten`, `CubeQuarantine`, `CubeIndex`, `CubeCanonical`, `CubeRebuild`,
  `CubeNormal`, `CubeRoundTrip`): snapshots flattened into four row tables, quarantined into a canonical form, rebuilt by
  position; (`CubeSql`, `CubeSqlStore`) the SQL store and the scoped import; (`CubeMatch`) the first-match matcher over
  wrapping counts; (`CubeText`) the command text and its decoding.
- **Account stores** (`Accounts`, `Roster`, `RosterQuarantine`): stable ids by probing; (`Points`, `PointStore`,
  `PointAccounts`, `PointRoster`, `PointSqlStore`) point vectors; (`MemoryAccounts`) channels over runs of saves; (`Disk`,
  `Backup`, `BackupStore`, `AccountJson`) backup and restore when any step may fail or be the last.
- **Bundle arithmetic** (`Drops`, `Regen`): weighted picks, pack grids, rectangle samples.

Shared: `Results`, `Integers`, `Ids`, `Text`, `TextOrder`, `Decimals`, `Ordered` (sorting and what it settles),
`SqlTables` (deletes and inserts in a transaction).

Loops are methods proved against predicates or functions; theorems about these are lemmas. Stores are classes whose
methods state the whole new state, and the state after an error.

Where the code differs from what one may expect of it, the model follows the code:

- A rollback to version zero is committed without a ledger check (`ApplyTheorems.CommitGuarantee` is an equivalence).
- `FormatMaterialInfoCommand` adds start and count as 64-bit integers; a count near the greatest int64 makes the sum
  negative, so that nothing cuts it down to the list, and allocating that many entries panics
  (`CubeText.FormatMaterialInfoCommand` says exactly when).
- Bound counts are uint32 sums; beyond 65537 cells one more cell can lose a match (`CubeMatch.OneCellTooMany`).
- `MemoryStore.Save` completes the channel map of its caller in place (`MemoryAccounts.MemoryStore.Save`).

`dafny verify dfyconfig.toml` checks the project.

## Model

| member | source | states |
|---|---|---|
| Statements.SplitStatements | db/migrations/statements.go:15-139 | For every body the five-state scanner returns what the declarative splitter returns: the same statements, or the same error |
| Statements.ScanToken | db/migrations/statements.go:62-118 | One turn of the scanner's switch keeps it in step with the lexer, which reads one character at a time without looking ahead, and meets a top-level semicolon exactly when the lexer does |
| Statements.ScanPending | db/migrations/statements.go:43-60 | With a terminator pending, blanks and a line comment join the statement and anything else cuts it where the terminator was |
| Statements.Cut | db/migrations/statements.go:29-36 | Emitting appends the trimmed fragment when it has executable text and drops it otherwise, and moves the start of the next statement behind it |
| Statements.HasExecutableText | db/migrations/statements.go:141-189 | True exactly when some character is neither blank nor semicolon nor inside a comment |
| Lexing.TerminatorIsFirst | db/migrations/statements.go:38-119 | The end of a statement is looked for from the first semicolon outside quotes and comments on |
| Lexing.FirstFragmentEnds | db/migrations/statements.go:43-106 | Behind the first top-level semicolon come blanks. A newline after them ends the fragment and belongs to it; a line comment ends it with its newline, or with the text; before anything else the fragment ends at its semicolon |
| Lexing.SingleQuotes | db/migrations/statements.go:62-118 | A text without quotes between quotes is one literal, open until the second quote |
| Lexing.DoubleQuotes | db/migrations/statements.go:62-118 | The same for identifiers in double quotes |
| Lexing.LineComments | db/migrations/statements.go:62-118 | A line comment runs from `--` to its newline |
| Lexing.BlockComments | db/migrations/statements.go:62-118 | A block comment runs from `/*` to the first `*/` behind it |
| Lexing.BlanksDoNothing | db/migrations/statements.go:141-189 | Blanks, newlines and semicolons execute nothing |
| Lexing.LineCommentsDoNothing | db/migrations/statements.go:141-189 | A line comment executes nothing, whatever it says; what follows on the next line decides |
| Lexing.BlockCommentsDoNothing | db/migrations/statements.go:141-189 | A block comment executes nothing, closed or not; what follows it decides |
| Lexing.OtherTextIsExecutable | db/migrations/statements.go:141-189 | Anything else at the front executes something, a lone dash or slash included |
| StatementsTheorems.FragmentsTile | db/migrations/statements.go:29-139 | The emitted and dropped fragments and the leftover, joined, are the body: no character is lost, repeated or moved |
| StatementsTheorems.FragmentsHoldOneSemicolonEach | db/migrations/statements.go:38-119 | Every fragment ends at exactly one top-level semicolon followed by blanks and at most one line comment; there are as many fragments as top-level semicolons, and the leftover has none |
| StatementsTheorems.SplitFailsExactly | db/migrations/statements.go:121-138 | Each of the errors occurs exactly when the lexer of the whole body ends inside a string, an identifier or a block comment, or executable text is left over; success exactly when none does and some fragment is executable |
| StatementsTheorems.JoinThenSplit | db/migrations/statements.go:15-139 | Any statements written one to a line split into the same list |
| StatementsTheorems.SplitRoundTrip | db/migrations/statements.go:15-139 | For every accepted body, the newline-join of its statements splits into exactly these statements, and each of them alone splits into itself |
| StatementsTheorems.StatementsAreSplits | db/migrations/statements.go:15-139 | A list of texts is the result for some body if and only if every text is a single trimmed statement |
| SqlText.DoublesQuotes | db/migrations/apply.go:281-283 | Quoting doubles the quotes of a value and changes nothing else |
| SqlText.QuoteReadsBack | db/migrations/apply.go:281-283 | A quoted value reads as one complete literal whose un-doubled contents are the value |
| SqlText.QuotePasses | db/migrations/apply.go:281-283 | The statement lexer crosses a quoted value without meeting a top-level semicolon and is outside quotes again behind it |
| SqlText.InsertIsOneStatement | db/migrations/apply.go:273-275 | For any version, name and checksum, quotes, semicolons and comment marks included, the ledger insert splits into exactly one statement, itself |
| SqlText.DeleteIsOneStatement | db/migrations/apply.go:277-279 | The same for the ledger delete |
| SqlText.InsertColumns | db/migrations/apply.go:273-275 | Reading the insert as SQL does gives the version, the name and the checksum, in the order of the columns it lists |
| SqlText.DeleteColumns | db/migrations/apply.go:277-279 | Reading the delete gives version, name and checksum, each compared with the column it belongs to |
| Plan.ValidatePlanCatalog | db/migrations/plan.go:137-178 | Accepts exactly the non-empty catalogs whose entry i is migration i + 1 with canonical paths, matching checksums and headers and splittable SQL in both directions |
| Plan.HeaderStands | db/migrations/catalog.go:302-313 | A body has its header exactly when the header is its first line behind blanks, carriage returns at its end aside |
| Plan.PaddedReads | db/migrations/catalog.go:302-313 | A padded version has at least four digits, no more than it takes, and reads as that number |
| Plan.ValidateLedger | db/migrations/plan.go:180-213 | A ledger validates if and only if it is a permutation of the first n catalog entries, and then its version is n |
| Plan.LedgerVersionIsLength | db/migrations/plan.go:180-213 | A ledger is the ledger of at most one version |
| Plan.PlanStepsToVersion | db/migrations/plan.go:105-135 | The up loop and the down loop build the steps between two versions |
| Plan.PlanCatalogToVersion | db/migrations/plan.go:83-103 | The plan, or the first of the three errors that applies, for every catalog, ledger and target |
| Plan.PlanSays | db/migrations/plan.go:83-135 | For every plan: the versions it starts and ends at, whether there is anything to do, and for each step its version, name, direction, path and checksum |
| Plan.StepAt | db/migrations/plan.go:105-135 | Step i of a plan is the i-th migration above the current version, or the i-th at or below it going down |
| Plan.ReplayReachesTarget | db/migrations/plan.go:105-135 | Replaying a plan turns the ledger of the current version into the ledger of the target |
| Plan.ReplayStaysOnCatalog | db/migrations/plan.go:105-135 | After any number of steps the ledger is the ledger of a catalog version |
| Plan.PlanBackIsReversed | db/migrations/plan.go:105-135 | The plan back is the plan reversed with every direction flipped |
| Apply.LedgerEntriesEqual | db/migrations/apply.go:203-221 | Only ledgers with the same rows are equal, and when no version repeats in one of them, all such ledgers are |
| Apply.VerifyTransactionalLedger | db/migrations/apply.go:170-186 | Accepts exactly when the ledger read inside the transaction holds the given rows, whatever their order |
| Apply.ExpectedLedger | db/migrations/apply.go:188-201 | The first `version` catalog entries |
| Apply.ExecuteMigrationStatements | db/migrations/apply.go:223-234 | Runs the statements of a body in order and stops at the first failure |
| ApplyTheorems.PerformRunsActions | db/migrations/apply.go:223-247 | On every driver, actions run one after the other, each in the state that the one before left, up to the first that fails: a statement that the driver rejects, or a ledger write that does not report exactly one row |
| Apply.ApplyStep | db/migrations/apply.go:125-156 | Up runs the statements of the up SQL, in order, before the ledger insert, down the ledger delete before the statements of the down SQL; a ledger write must affect exactly one row |
| Apply.Database.ApplyCatalogToVersion | db/migrations/apply.go:90-168 | For every driver: the outcome and the committed state for every input; every error but a failed commit leaves the committed state alone; success with a non-empty plan and a target above zero has committed the target's ledger; Applied is the plan and CurrentVersion the target |
| ApplyTheorems.LoggedStep | db/migrations/apply.go:125-156 | On a driver that keeps what it is given: an up step adds the statements of the up SQL and the insert to the log, a down step the delete and the statements of the down SQL |
| ApplyTheorems.LoggedApply | db/migrations/apply.go:90-168 | A successful apply adds to the log of what was committed exactly these texts, migration by migration from the version of the ledger to the target, and commits that log |
| ApplyTheorems.AttemptRunsSteps | db/migrations/apply.go:104-156 | On every driver, a successful attempt is a chain of states: one step of the plan after the other, each with its own statements and its own ledger row |
| ApplyTheorems.AttemptChecks | db/migrations/apply.go:90-168 | An attempt comes to what its steps come to, unless one of the two ledger checks fails: the one in front, skipped for an empty ledger, or the one behind, skipped for target zero |
| ApplyTheorems.CommitGuarantee | db/migrations/apply.go:158-162 | What is committed shows the target's ledger whatever the statements do, for all drivers, if and only if the target is above zero |
| ApplyTheorems.StepMovesRow | db/migrations/apply.go:125-156 | When the migrations leave the ledger to the applier at the ledgers where they run, a step that runs through adds or removes exactly its own row |
| ApplyTheorems.PlanReachesTargetLedger | db/migrations/apply.go:125-156 | With such migrations every plan that runs through ends in the target's ledger |
| ApplyTheorems.HonestLedgerVerifies | db/migrations/apply.go:119-162 | So neither ledger check ever fails an honest run: what an attempt comes to is what its statements come to |
| ApplyTheorems.DropTableKeepsLedger | db/migrations/0001_bootstrap_schema_migrations.down.sql:2-2 | A catalog whose first rollback drops the ledger table, rows and all, meets what these theorems ask, because it runs after the last row is gone and a missing table reads as empty |
| CubeModel.NormalizeSnapshot | internal/cubestore/store.go:369-403 | Fills the materials of OR-recipes from their first option and sorts the NPCs |
| CubeModel.FilledIn | internal/cubestore/store.go:369-403 | Filling gives an OR-recipe the materials of its first option and leaves everything else of every recipe alone |
| CubeModel.ValidateSnapshot | internal/cubestore/store.go:405-445 | Accepts exactly the valid snapshots: distinct non-zero NPCs, valid rewards, percents, materials and options |
| CubeModel.ValidateOptions | internal/cubestore/store.go:495-522 | At least two non-empty valid options, and materials equal to the first one |
| CubeModel.ExportCubeRecipeState | internal/cubestore/migration_export.go:90-150 | Exports the four row tables of the normalised snapshot, or the error for an invalid one or for gold beyond int64 |
| CubeRows.RecipesHaveRows | internal/cubestore/migration_export.go:105-150 | A row for every recipe, with its NPC, its position, reward, gold and percent, and no other recipe rows |
| CubeRows.MaterialsHaveRows | internal/cubestore/migration_export.go:105-150 | A row for every material of every recipe, with NPC, recipe and position, and no other material rows |
| CubeRows.OptionsHaveRows | internal/cubestore/migration_export.go:105-150 | A row for every material of every option, with NPC, recipe, option and position, and no other option rows |
| CubeFlatten.FlattenSorted | internal/cubestore/migration_export.go:105-150 | The exported tables are strictly ascending by primary key, and every row belongs to an exported NPC |
| CubeFlatten.FlattenInjective | internal/cubestore/migration_export.go:105-150 | Two snapshots in normal order with the same four tables are the same snapshot |
| CubeIndex.IndexRecipes | internal/cubestore/migration_export_quarantine.go:95-127 | Accepts the recipe rows exactly when keys are distinct, parents known and values in range, and indexes them by NPC and position |
| CubeIndex.IndexMaterials | internal/cubestore/migration_export_quarantine.go:129-150 | The same for material rows |
| CubeIndex.IndexOptions | internal/cubestore/migration_export_quarantine.go:152-181 | The same for option rows |
| CubeCanonical.MaterialMapsEqual | internal/cubestore/migration_export_quarantine.go:279-293 | True exactly when both maps have the same positions with the same items and counts |
| CubeCanonical.CheckGroups | internal/cubestore/migration_export_quarantine.go:183-205 | Accepts exactly when every recipe with option rows has options 0 to n without gaps, at least two of them, and materials equal to option 0 |
| CubeCanonical.EmitAll | internal/cubestore/migration_export_quarantine.go:221-264 | Emits every table as a permutation of its input, strictly ascending by key |
| CubeCanonical.Canonicalize | internal/cubestore/migration_export_quarantine.go:48-277 | Succeeds exactly on accepted exports, and returns their canonical form |
| CubeQuarantine.AcceptanceIgnoresOrder | internal/cubestore/migration_export_quarantine.go:48-277 | Success does not depend on the order of any input row list |
| CubeQuarantine.CanonicalIgnoresOrder | internal/cubestore/migration_export_quarantine.go:48-277 | Neither does the result |
| CubeQuarantine.CanonicalIsFixed | internal/cubestore/migration_export_quarantine.go:48-277 | A canonical export is accepted and is its own canonical form |
| CubeRebuild.BuildRecipes | internal/cubestore/sql_store.go:216-225 | Appends the recipe rows to their NPCs; succeeds exactly when positions count from zero without gaps, and the recipes built have exactly these rows |
| CubeRebuild.BuildMaterials | internal/cubestore/sql_store.go:226-235 | The same for materials |
| CubeRebuild.BuildOptions | internal/cubestore/sql_store.go:236-248 | The same for options, each new group opened by its position zero; the four tables of the result are the input |
| CubeRebuild.FindRecipe | internal/cubestore/sql_store.go:268-277 | Finds the recipe of an NPC by position whenever there is one |
| CubeRoundTrip.SnapshotFromCubeRecipeState | internal/cubestore/sql_store.go:207-258 | Succeeds exactly on accepted rows without gaps and returns a valid normal snapshot with exactly these rows; the validation and the export at its end never fail |
| CubeNormal.NormalizationIsUnique | internal/cubestore/store.go:369-403 | However the sort breaks ties, a snapshot has only one valid normal form |
| CubeNormal.AcceptedIsNormal | internal/cubestore/sql_store.go:249-256 | Rows that quarantine accepts rebuild into a valid snapshot whose OR-recipes have the materials of option 0 |
| CubeNormal.NormalIsAccepted | internal/cubestore/migration_export_quarantine.go:48-205 | The tables of every valid normal snapshot pass quarantine |
| CubeNormal.FlattenIsDense | internal/cubestore/migration_export.go:105-150 | The tables of a snapshot number every list from zero without gaps |
| CubeRoundTrip.ExportThenRebuild | internal/cubestore/sql_store.go:207-258 | The rows exported from any valid snapshot with gold in range, kept in any order, are accepted and without gaps, and only the normalised snapshot rebuilds from them |
| CubeRoundTrip.RebuildThenExport | internal/cubestore/sql_store.go:249-257 | Exporting a rebuilt snapshot gives the canonical rows back, and their NPC scope exactly when every declared NPC has a row |
| SqlTables.RequireSchema | internal/cubestore/cube_recipe_state_import.go:138-155 | Passes exactly when the ledger can be read and holds the migration |
| SqlTables.InsertRows | internal/cubestore/cube_recipe_state_import.go:173-221 | Inserts row by row: all rows or an error; without driver faults it succeeds when no key is taken and every row satisfies its constraints |
| SqlTables.ReplacedTable | internal/cubestore/cube_recipe_state_import.go:99-125 | Deleting an owner scope and inserting rows of the scope leaves exactly these rows inside it and everything outside as it was |
| CubeSql.DeleteFrom | internal/cubestore/cube_recipe_state_import.go:157-171 | One DELETE, refused by the foreign keys exactly when a child row would lose its parent |
| CubeSql.DeleteRows | internal/cubestore/cube_recipe_state_import.go:157-171 | The four DELETEs, children first, are never refused and clear exactly the scope |
| CubeSql.InsertTables | internal/cubestore/cube_recipe_state_import.go:106-125 | The INSERTs of the four tables, parents first, all of them or an error |
| CubeSqlStore.FreeRowsFit | internal/cubestore/cube_recipe_state_import.go:106-125 | Accepted rows of NPCs that the database does not have violate no constraint |
| CubeSqlStore.QueryCubeRecipeState | internal/cubestore/sql_store.go:109-192 | Reads the four tables in key order; the column constraints make every range check pass |
| CubeSqlStore.SqlStore.Save | internal/cubestore/sql_store.go:58-105 | Replaces the catalogue by exactly the rows of the normalised snapshot or changes nothing; without driver faults the result is determined: invalid snapshot, missing schema, or success |
| CubeSqlStore.SqlStore.Load | internal/cubestore/sql_store.go:35-56 | Without driver faults it succeeds exactly when the tables are those of some normal snapshot, and returns that snapshot |
| CubeSqlStore.SqlStore.Import | internal/cubestore/cube_recipe_state_import.go:63-136 | With replace, the declared NPCs end up with exactly the canonical rows, wiped when they have none, and all other rows of the four tables are unchanged; without, rows are only added and an NPC already there is refused; any error changes nothing |
| CubeSqlStore.SqlStore.SaveThenLoad | internal/cubestore/sql_store.go:35-105 | Whatever was stored, a saved snapshot loads back in normal form |
| CubeSqlStore.StoredOnce | internal/cubestore/sql_store.go:35-56 | A database holds the tables of at most one normal snapshot |
| CubeSqlStore.StoredIsReadable | internal/cubestore/sql_store.go:35-56 | The rows read from a database that holds a snapshot are accepted and without gaps |
| CubeMatch.AggregateMaterialCounts | internal/cubestore/store.go:322-331 | The uint32 map holds, for every item with a live cell, the sum of its counts modulo 2^32 |
| CubeMatch.MaterialSetNeedCounts | internal/cubestore/store.go:272-284 | None for an empty set or one with a zero item or count, otherwise the same sums |
| CubeMatch.MaterialCountsCover | internal/cubestore/store.go:335-345 | True exactly when there is a need and every needed count is there |
| CubeMatch.MatchSimpleRecipe | internal/cubestore/store.go:238-270 | Returns the lexicographically first recipe and group that the cells cover, with that group as its materials: one of its options if it has any, else its own materials. None exactly when no option of a recipe with options and no materials of a recipe without are covered |
| CubeMatch.MatchSimpleRecipeGold | internal/cubestore/store.go:290-296 | The gold of that recipe |
| CubeMatch.FirstMatchIsUnique | internal/cubestore/store.go:238-258 | There is at most one first match |
| CubeMatch.SameTotalsSameMatch | internal/cubestore/store.go:322-345 | Cells with the same exact sums find the same match, wrapped counts included |
| CubeMatch.MatchIgnoresArrangement | internal/cubestore/store.go:322-345 | Permuting the cells and splitting or merging cells of one item changes no match |
| CubeMatch.NeverWorseExactly | internal/cubestore/store.go:238-258 | Adding cells never loses a match or moves it later, for all recipe lists, if and only if no item's uint32 count becomes smaller |
| CubeMatch.FewCellsNeverWorse | internal/cubestore/store.go:238-258 | Up to 65537 cells adding cells never hurts |
| CubeMatch.OneCellTooMany | internal/cubestore/store.go:322-331 | The bound is sharp: one more item on 65537 full cells wraps the count to zero and loses the match |
| CubeText.FormatMaterialSetText | internal/cubestore/store.go:181-193 | The text of a set, exactly when the set is non-empty and every item and count is non-zero |
| CubeText.FormatRecipeMaterialInfoText | internal/cubestore/store.go:161-179 | The text of a recipe, exactly when every effective set has one |
| CubeText.MaterialTextReads | internal/cubestore/store.go:181-193 | The text of a material is its item number, a comma and its count |
| CubeText.TextsGrow | internal/cubestore/store.go:161-223 | Texts of lists grow at the end, with the separator of their level in between: & between materials, a bar between options, @ between recipes |
| CubeText.RecipeTextReads | internal/cubestore/store.go:161-179 | The text of a recipe is that of its options, or of its materials when it has none, and the gold when it is not zero |
| CubeText.FormatMaterialInfoCommand | internal/cubestore/store.go:199-223 | The command exactly when the window exists, every recipe in it has a text and the entry text is shorter than 532; a request count that overflows the sum panics, exactly then |
| CubeText.RecipeTextDecodes | internal/cubestore/store.go:161-179 | Two recipes with the same text need the same: the same options, or the same materials where there are none, and the same gold, absent gold meaning zero |
| CubeText.WindowTextDecodes | internal/cubestore/store.go:199-223 | Two windows with the same entry text agree recipe by recipe in options or materials and gold |
| CubeText.CommandDecodes | internal/cubestore/store.go:222-222 | The whole command determines the start, the count and the entry text |
| Roster.StableRosterAccountId | internal/accountstore/roster_export.go:237-253 | Terminates while fewer than 2^63 - 1 ids are taken and returns the first free id from the hash on, wrapping from the greatest int64 to one: every id passed over is taken |
| Roster.FreeId | internal/accountstore/roster_export.go:237-253 | With fewer ids taken than there are, one is free |
| Roster.ProbeIsUnique | internal/accountstore/roster_export.go:237-253 | The probe has one result |
| Roster.ExportCharacters | internal/accountstore/roster_export.go:126-163 | The rows of the occupied slots of an account, exactly when all are valid and no id or name repeats over the roster |
| Roster.SlotsHaveRows | internal/accountstore/roster_export.go:126-163 | Every occupied slot of an account has a row, and every row comes from one: the id of the account, the slot, and the character's id, name in both spellings, level, map, gold, guild and stats |
| Roster.ExportAccountCharacterRoster | internal/accountstore/roster_export.go:86-167 | Succeeds exactly on exportable rosters. Then every account has a row with its login in both spellings and its empire, every occupied slot has a row with all its columns and the id of its account, there are no other rows, and the account rows ascend by normalised login |
| Roster.ShowsInAnyOrder | internal/accountstore/roster_export.go:86-167 | Which rows show a roster does not depend on the order of its accounts |
| Roster.ExportableIgnoresOrder | internal/accountstore/roster_export.go:86-167 | Whether a roster can be exported does not depend on the order of its accounts: distinct logins, ids and names over all of them |
| Roster.ExportIgnoresOrder | internal/accountstore/roster_export.go:86-167 | The order of the accounts changes neither success nor any row or id |
| Roster.DistinctIds | internal/accountstore/roster_export.go:118-125 | Every account has a positive id of its own |
| RosterQuarantine.CheckAccounts | internal/accountstore/roster_quarantine.go:85-101 | Accepts the account rows exactly when valid with distinct ids and logins |
| RosterQuarantine.CheckCharacters | internal/accountstore/roster_quarantine.go:103-125 | Accepts the character rows exactly when valid, of known accounts, with distinct slots, ids and names |
| RosterQuarantine.Canonicalize | internal/accountstore/roster_quarantine.go:54-179 | Succeeds exactly on accepted exports and returns a permutation of their rows, accounts strictly ascending by normalised login, characters by account and slot |
| RosterQuarantine.AcceptanceIgnoresOrder | internal/accountstore/roster_quarantine.go:54-179 | Success does not depend on the order of rows or declared ids |
| RosterQuarantine.CanonicalIgnoresOrder | internal/accountstore/roster_quarantine.go:127-165 | The canonical form does not depend on the order of rows or declared ids |
| RosterQuarantine.CanonicalIsFixed | internal/accountstore/roster_quarantine.go:127-165 | A canonical roster, with its scope, is accepted and is its own canonical form |
| RosterQuarantine.ExportedSlots | internal/accountstore/roster_export.go:126-163 | Every exported character row comes from an account, and no two share a slot |
| RosterQuarantine.ExportIsAccepted | internal/accountstore/roster_quarantine.go:54-179 | Whatever the exporter returns is accepted by quarantine, which leaves the accounts in their order |
| Points.Pigeonhole | internal/accountstore/point_state_quarantine.go:98-107 | As many different indexes below n as there are leave none out |
| Points.CheckVector | internal/accountstore/point_state_quarantine.go:98-107 | Counting to 255 accepts exactly the complete vectors; the branch for a missing index is never taken |
| Points.IndexPoints | internal/accountstore/point_state_quarantine.go:76-96 | Accepts the rows exactly when in range and distinct, and indexes them |
| Points.Canonicalize | internal/accountstore/point_state_quarantine.go:50-145 | Succeeds exactly when every character with rows has all 255 indexes once; the canonical rows are a sorted permutation |
| Points.QuarantineIgnoresOrder | internal/accountstore/point_state_quarantine.go:50-145 | Row order changes neither success nor result, and the canonical form is its own |
| PointStore.ReplaceVector | internal/accountstore/point_state_sql_store.go:140-161 | One character's rows are replaced by its vector, everyone else's stay |
| PointStore.ReplaceAccount | internal/accountstore/point_state_sql_store.go:142-159 | The rows of the occupied slots of one account are replaced by their vectors, all others kept |
| PointStore.ReplaceSnapshot | internal/accountstore/point_state_sql_store.go:140-161 | The same for the occupied slots of all accounts |
| PointStore.ReadRoster | internal/accountstore/point_state_sql_store.go:188-232 | Reads the roster rows exactly when every id and empire fits its type, and notes where each character is; the check for a repeated id never fires |
| PointStore.FillVectors | internal/accountstore/point_state_sql_store.go:246-279 | The in-place loop never fails on constrained rows and leaves in every vector the value of its row, zero without one |
| PointStore.CountIsEnough | internal/accountstore/point_state_sql_store.go:280-284 | Counting the rows of each character passes exactly when no index is missing |
| PointRoster.PlaceRoster | internal/accountstore/point_state_sql_store.go:188-232 | Puts every roster row into its slot of the account of its login: id, name and empire of the row, level and map one, its points, and nothing else; every other slot is empty, accounts stand in the order in which they first appear, and the check for a drifted empire never fires |
| PointRoster.LoadedOnce | internal/accountstore/point_state_sql_store.go:163-300 | A database loads in one way only |
| PointRoster.LoadedShowsRoster | internal/accountstore/item_state_sql_store.go:621-628 | What a load returns shows every roster row with its stored points, zero where there is no row of the table, and an occupied slot shows a roster row |
| PointAccounts.ValidatePointStateAccounts | internal/accountstore/point_state_sql_store.go:317-352 | Accepts exactly valid accounts of distinct logins whose occupied slots are valid and have distinct ids |
| PointAccounts.ExportCharacterPointState | internal/accountstore/point_state_export.go:48-85 | Succeeds exactly on exportable rosters and returns the 255 points of every occupied slot and nothing else, by login and slot; its second check of a character never fails |
| PointAccounts.ExportedPointsAccepted | internal/accountstore/point_state_export.go:48-106 | Whatever points are exported, their quarantine accepts them |
| PointSqlStore.PointSqlStore.SaveAccounts | internal/accountstore/point_state_sql_store.go:75-102 | Rejects exactly the accounts that the roster export rejects; else every occupied slot has exactly its 255 rows, other characters' rows are unchanged, and any error changes nothing |
| PointSqlStore.PointSqlStore.Load | internal/accountstore/point_state_sql_store.go:163-300 | Without driver faults it succeeds exactly when ids and empires fit their types, no character lacks an index and the accounts pass the checks of a save; it returns the accounts of the roster, every character in its slot with its stored points |
| PointSqlStore.PointSqlStore.Import | internal/accountstore/point_state_import.go:92-148 | With replace, exactly the canonical rows for the declared characters and nothing else changed; without, rows are only added and a taken key is refused |
| PointSqlStore.PointSqlStore.SaveThenLoad | internal/accountstore/point_state_sql_store.go:68-138 | A save followed by a load shows every saved vector as it was given and everyone else's as it was stored |
| PointSqlStore.ProjectedHp | internal/accountstore/point_state_import.go:61-75 | The value at index 1 of the character's rows, absent exactly when it has none |
| PointSqlStore.ProjectionIsInserted | internal/accountstore/point_state_import.go:61-148 | After a scoped replace the table shows exactly the projected value |
| Accounts.PreservedEntries | internal/accountstore/channel_snapshot.go:55-73 | A given channel stays, a character that was there before keeps its channel, nothing else gets one |
| MemoryAccounts.PreserveChannelAssignments | internal/accountstore/channel_snapshot.go:55-73 | Completes the caller's channel map in place to exactly that |
| Accounts.ValidateChannels | internal/accountstore/store.go:1039-1050 | Accepts exactly when every channel is non-zero and of a character of the account |
| MemoryAccounts.MemoryStore.Save | internal/accountstore/memory_store.go:53-84 | Commits the login, empire and characters of a valid account with its completed channels and changes no other login; completes the caller's own map; rejects an invalid account without a change |
| MemoryAccounts.MemoryStore.Load | internal/accountstore/memory_store.go:26-51 | Returns the snapshot under any spelling of the login; stored snapshots never fail the checks |
| MemoryAccounts.MemoryStore.List | internal/accountstore/memory_store.go:86-108 | Every snapshot once, by login; the check for two spellings never fires |
| MemoryAccounts.RunIsGood | internal/accountstore/memory_store.go:53-84 | After any run of saves every snapshot is a valid account under its own login: channels name existing characters and are never zero |
| MemoryAccounts.SnapshotIsLastSave | internal/accountstore/memory_store.go:53-84 | After any run of saves the snapshot of a login has the login, empire and characters of its last accepted save, and there is none without one |
| MemoryAccounts.ChannelIsLatestAssignment | internal/accountstore/memory_store.go:53-84 | After any run of saves a character's channel is its latest explicit assignment since it was last absent from the login's snapshot, or 1 |
| MemoryAccounts.DeletedThenAdded | internal/accountstore/channel_snapshot.go:55-73 | A character left out of one save and back in the next without a channel starts over at 1 |
| Disk.Directory.WriteAtomically | internal/accountstore/store.go:840-866 | The target file gets the whole content or nothing but temporary files changes, wherever a step fails or the process ends |
| Backup.Load | internal/accountstore/store.go:311-346 | Succeeds exactly when the file of the login decodes to a valid account of that login |
| Backup.List | internal/accountstore/store.go:117-160 | Succeeds exactly when every file is readable, and returns every account once, by login; the check for duplicate logins never fires |
| Backup.SummarizeAccounts | internal/accountstore/store.go:177-194 | The counts and logins of the accounts |
| Backup.SummaryGrows | internal/accountstore/store.go:177-194 | An account more adds one to the accounts, its slots to the characters, its empty slots to the empty ones, and its login at the end; a count of zero empty slots is left out |
| Backup.ValidateBackupManifest | internal/accountstore/store.go:596-676 | Accepts exactly when the manifest fits the accounts read, file by file, in a closed directory if asked |
| Backup.LoadBackup | internal/accountstore/store.go:568-590 | Returns the accounts exactly when the directory lists and its manifest fits |
| Backup.ExplicitIsSame | internal/accountstore/channel_snapshot.go:11-50 | Writing the default channel out changes no channel as it is read |
| AccountJson.EncodeAccountWithChannels | internal/accountstore/channel_snapshot.go:11-50 | Writes every character and beside one with an id its channel, 1 where the account has none or a zero; nothing else of the channel map is written |
| AccountJson.DecodeAccount | internal/accountstore/store.go:921-949 | Reads login, empire and characters back, exactly when no channel is zero or stands beside an empty slot |
| AccountJson.LastChannelDecides | internal/accountstore/store.go:921-949 | The channels read are those beside characters; of two beside the same id the last |
| AccountJson.EncodedDecodes | internal/accountstore/channel_snapshot.go:11-50 | An account comes back with its channels written out; unchanged if and only if they already were |
| AccountJson.FileCodecIsFaithful | internal/accountstore/store.go:898-965 | With lossless JSON in between, every account that is written comes back with its channels written out, and the file codec meets what the backup theorems ask of a codec |
| BackupStore.Save | internal/accountstore/store.go:348-407 | The file first, then the stale manifest is removed; at every moment the files are in one of these states |
| BackupStore.SavedOverReads | internal/accountstore/store.go:348-407 | A save writes the account as given; beside a character stands the channel it was given, or else the one of the file, or else 1; a file that does not load stops the save |
| BackupStore.ManifestReads | internal/accountstore/store.go:478-499 | The manifest has an entry for every account: its login, the file of its lower-case login, and size and checksum of the text written |
| BackupStore.Rollback | internal/accountstore/store.go:459-476 | Removes the files of the accounts tried and the manifest; stopped anywhere it leaves only files of the backup |
| BackupStore.WriteAll | internal/accountstore/store.go:433-456 | All account files, then the manifest; on success everything is there, and wherever it stops only files of the backup are; on a working disk it fails exactly on an account that may not be saved, and then nothing is left |
| BackupStore.BackupTo | internal/accountstore/store.go:416-457 | For every failure and crash: an empty destination ends up with files of the backup only, and is the complete source if it validates; success means all of them; without failures it succeeds on every readable source it may save |
| BackupStore.RestoreFrom | internal/accountstore/store.go:501-535 | The same from a validated backup: whatever fails or crashes, the destination holds only files of the restored accounts, and if it validates they are all there |
| BackupStore.ValidatedIsComplete | internal/accountstore/store.go:556-703 | At every crash point of a backup, a destination that validates returns the complete source |
| BackupStore.CompleteValidates | internal/accountstore/store.go:556-703 | A finished backup validates and lists as the source |
| BackupStore.BackupThenRestore | internal/accountstore/store.go:416-535 | Backup followed by restore into an empty directory lists the same accounts, channels compared as they are read |
| Drops.ValidDropTableEntries | internal/contentbundle/bundle.go:5428-5451 | Accepts exactly no entries, or two to eight of different real known items with weights |
| Drops.TotalWeight | internal/contentbundle/bundle.go:1340-1343 | The uint64 total of an accepted table is the exact sum |
| Drops.EntryAt | internal/contentbundle/bundle.go:1350-1357 | For every slot below the total the loop returns the entry whose slots contain it; the return behind it is unreachable |
| Drops.PickWeightedDropVnum | internal/contentbundle/bundle.go:1336-1358 | Picks the item of the slot that is the hash of the trimmed seed modulo the total weight, exactly on non-empty accepted tables |
| Drops.SlotHasEntry | internal/contentbundle/bundle.go:1350-1356 | Every slot below the total belongs to exactly one entry |
| Drops.SlotsInOrder | internal/contentbundle/bundle.go:1350-1356 | Slots are laid out from zero in the order of the entries |
| Drops.ItemHasItsWeight | internal/contentbundle/bundle.go:1336-1358 | Over all slots, each item is picked by exactly as many as its weight |
| Regen.PackOffset | internal/contentbundle/bundle.go:5185-5196 | Succeeds exactly when the product fits int32, and is that product |
| Regen.PackMemberPoint | internal/contentbundle/bundle.go:5161-5183 | Succeeds exactly when both sums fit int32, and is these sums |
| Regen.PackColumnCount | internal/contentbundle/bundle.go:5136-5143 | The least c with c * c at least the count |
| Regen.RectanglePoint | internal/contentbundle/bundle.go:5198-5227 | Succeeds exactly when the sampled point fits int32; it lies inside the rectangle |
| Regen.SlotInRectangle | internal/contentbundle/bundle.go:5217-5219 | Every slot below the area has an offset inside the rectangle that determines it |
| Regen.OffsetHasSlot | internal/contentbundle/bundle.go:5217-5219 | Every offset inside the rectangle is that of a slot below the area |
| Regen.SpawnGroupsFromRegenSpawns | internal/contentbundle/bundle.go:5073-5134 | All spawns expand, in order, exactly when every one is valid |
| Regen.SingleStands | internal/contentbundle/bundle.go:5073-5108 | A lone spawn keeps reference, name and payload and stands at its origin; with a rectangle, at the slot that the text of its fields hashes to, counted row by row |
| Regen.BlocksInOrder | internal/contentbundle/bundle.go:5073-5134 | The groups of the spawns follow one another in the order of the spawns |
| Regen.MembersApart | internal/contentbundle/bundle.go:5117-5131 | No two members of a pack stand on the same point |
| Regen.PackShape | internal/contentbundle/bundle.go:5109-5131 | Member i of a grid pack stands in column i mod c and row i div c of the smallest square, c by c, with room for the pack; member i of a line pack in row i of column zero; references end in .m and two digits, names in the member's number |
| Regen.PackIsValid | internal/contentbundle/bundle.go:5102-5131 | A pack expands exactly when it has no rectangle, a positive spacing, the formation grid, line or none, and every offset and point of its members fits int32 |

## Left out

- Text is a sequence of code points, not of bytes; every delimiter is ASCII. Logins and names are lower-cased as ASCII;
  Go's case folding differs on a few code points.
- Hashes (SHA-256, FNV) and JSON codecs are parameters. The backup theorems ask of a codec only that accounts read from
  a file come back with their channels written out, and the manifests of such accounts; `AccountJson` models the channel
  fields and shows that the file codec does this.
- Contexts, nil interfaces, DSNs and drivers: a migration driver is any function on states, a table store is maps by
  primary key with an arbitrary set of failing statements. A failed commit of a table store changes nothing.
- Errors are told apart only where a caller can act on the difference; failures of a rollback are not reported.
- A nil slice and an empty one are the same, except where the code tells a missing table from an empty one.
- The text keys "npc:position" and "account:slot" are pairs.
- Directories are flat maps from names to contents; symbolic links, subdirectories and the order of fsync are not
  modelled.
- The checks on items, quickslots and shop prices of a character are parameters (`sound`, `unique`), and so are the
  overlay checks of a regen spawn, which are about floating-point angles and respawn delays.
- The columns that the roster export only copies are one field, `Stats`; items, quickslots, shop prices and the like are
  one text, `rest`. Normalising items is part of the codec and of `sound` and `unique`.
- Locks: each store operation is one step.
- Other single-file stores, item state and shop prices, summaries and previews of bundles, `FormatResultListCommand` and
  the fixed command texts: they repeat these patterns or are single expressions.
- Regen.SpawnGroupsFromRegenSpawns: reward and quest columns are handed on as one payload, because no branch looks at
  them.
- Apply.LedgerEntriesEqual: ledgers with the same rows that repeat a version may compare as different, because the sort
  leaves rows of one version in any order; its caller passes a catalog ledger, which repeats none.
- The roster tables are the rows of the query that joins them, without the normalised columns: rows whose logins differ
  only in case belong to one account, as the unique index demands of rows that the roster import wrote.
- Roster.StableRosterAccountId: the hash of the login is any uint64, because nothing depends on FNV.
- CubeSqlStore.SqlStore.Save: a driver fault at the commit leaves the old state, because what a real engine keeps after
  a failed commit is outside the code.
