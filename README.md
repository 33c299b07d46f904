# myhealth persistence core in Dafny

This project models the persistence layer of myhealth, a personal health-tracking bot. The bot
stores a food catalogue, a sport catalogue, body-weight measurements, per-user calorie settings,
food bundles (named recipes whose entries are foods with a weight, or other bundles), a meal
journal and sport activities. It produces reports and backups from them. Three pieces are
modelled.

- **Entity validators and meals** (`model.dfy`, `legacy_model.dfy`). The validators are the
  predicates `FoodValid`, `WeightValid`, `JournalValid`, `UserSettingsValid`, `BundleValid`,
  `SportValid` and `SportActivityValid`. The meal enumeration has six slots, a decoder from the
  stored ordinal, and display names. The older copy of these rules is modelled beside them and
  compared with them.
- **Migration engine** (`migrations.dfy`). A `Connection` class holds the rows of the `system`
  counter table and the log of committed schema changes. `Apply` runs the fixed step list in
  order. Each pending step runs in one transaction together with its counter update, and the
  first failing phase stops the call. Which phase fails is a parameter, because the DDL is not
  executed. `Apply` is proved equal to the functional specification `ApplyFrom`. Lemmas about
  `ApplyFrom` cover:
  - skipping;
  - ordering;
  - partial failure;
  - monotonicity;
  - reaching the latest id;
  - idempotence.
- **Integrity-checked store**:
  - `errors.dfy` holds the closed 19-kind `StorageError` taxonomy.
  - `tables.dfy` holds the tables keyed by their natural keys, and the referential-integrity
    invariant with the lemmas that preserve it.
  - `resolver.dfy` expands nested bundles using a visited set.
  - `queries.dfy` holds lookups, ordered listings, the food search and reports over a closed
    window. `ordering.dfy` and `text.dfy` are its building blocks.
  - `snapshot.dfy` holds backup and restore, with both round trips.
  - `store.dfy` holds the `Store` class. Its write methods return exactly the error kinds the
    storage tests expect.
  - `scenarios.dfy` replays those tests against the store's contracts.

Referential integrity (`Tables.RefIntegrity`) has two parts:
- every 0-valued bundle entry names an existing bundle of the same user, and every positive
  entry names an existing food;
- every journal row names an existing food, and every activity an existing sport.

Every write method of `Store` except `Restore` keeps it. `Restore` merges a snapshot without
checking bundle entries (`Snapshot.RestoreSkipsBundleChecks`). Acyclicity of bundles is neither assumed nor claimed.
Only direct self-reference is rejected on write. A longer cycle can be closed by a later update,
so the expansion tracks visited bundles.

Timestamps are integer milliseconds. Weights and nutrients are `real`. The SQLite
implementation of the store is not part of this model. The store is an abstract class over maps,
and its behaviour follows the storage test suite.

## Model

| member | source | states |
|---|---|---|
| `Model.FoodValid` | lib/model/src/lib.rs:77-84 | A food needs a non-empty key and name and non-negative calories, protein, fat and carbohydrates per 100 g |
| `Model.WeightValid` | lib/model/src/lib.rs:88-90 | A weight needs a value above 0 |
| `Model.JournalValid` | lib/model/src/lib.rs:121-123 | A journal row needs a food key and a weight above 0 |
| `Model.UserSettingsValid` | lib/model/src/lib.rs:127-129 | A calorie limit must be above 0 |
| `Model.BundleValid` | lib/model/src/lib.rs:133-145 | A bundle needs a key, at least one entry, and no negative entry |
| `Model.SportValid` | lib/model/src/lib.rs:149-151 | A sport needs a non-empty key and name |
| `Model.SportActivityValid` | lib/model/src/lib.rs:155-157 | An activity needs a sport key and at least one set |
| `Model.MealFromOrdinal` | lib/model/src/lib.rs:94-104 | `Meal::new`: ordinals 0..5 decode to the six slots in declaration order; any other value is an error |
| `Model.MealName` | lib/model/src/lib.rs:107-118 | The display name of each slot |
| `Model.ValidateBundle` | lib/model/src/lib.rs:133-145 | The early-exit loop returns true exactly when the key and data are non-empty and no entry is negative |
| `Model.MealOrdinal` | lib/model/src/lib.rs:25-32 | Every slot's stored ordinal is below 6 and decodes back to that slot |
| `Model.FoodValidIgnoresFreeText` | lib/model/src/lib.rs:77-84 | Brand and comment never change whether a food is valid |
| `Model.WeightBoundary` | lib/model/src/lib.rs:88-90 | A weight is valid exactly when its value is > 0, so 0 is rejected |
| `Model.BundleNegativeEntry` | lib/model/src/lib.rs:133-145 | One negative entry invalidates any bundle; a non-negative entry, including a 0-valued nested reference, keeps a valid bundle valid |
| `Model.MealDecodeExact` | lib/model/src/lib.rs:94-104 | `Meal::new` succeeds exactly for 0..5 and inverts the ordinal |
| `Model.MealNamesDistinct` | lib/model/src/lib.rs:107-118 | The six display names are pairwise distinct |
| `LegacyModel.LegacyFoodValid` | src/components/storage/model.rs:78-87 | The older food rule: non-empty key and name, non-negative nutrients |
| `LegacyModel.LegacyWeightValid` | src/components/storage/model.rs:89-93 | The older weight rule accepts any value >= 0 |
| `LegacyModel.LegacyJournalValid` | src/components/storage/model.rs:122-127 | The older journal rule: a food key and a weight above 0 |
| `LegacyModel.LegacyUserSettingsValid` | src/components/storage/model.rs:129-133 | The older settings rule: a limit above 0 |
| `LegacyModel.LegacyBundleValid` | src/components/storage/model.rs:135-149 | The older bundle rule: a key, at least one entry, no negative entry |
| `LegacyModel.LegacyMealFromOrdinal` | src/components/storage/model.rs:95-107 | The older decoder of ordinals 0..5 |
| `LegacyModel.LegacyMealName` | src/components/storage/model.rs:109-120 | The older display names |
| `LegacyModel.LegacyRulesAgree` | src/components/storage/model.rs:78-149 | The older Food, Journal, UserSettings and Bundle rules coincide with the current ones |
| `LegacyModel.LegacyWeightDiffersOnlyAtZero` | src/components/storage/model.rs:89-93 | The older Weight rule accepts the currently valid values plus exactly the value 0 |
| `LegacyModel.LegacyMealAgrees` | src/components/storage/model.rs:95-120 | The older decoder and display names equal the current ones |
| `StoreErrors.DefaultStorageError` | lib/storage/src/lib.rs:94-98 | The derived default kind is `Unknown` |
| `StoreErrors.Message` | lib/storage/src/lib.rs:94-142 | The display text of each of the 19 kinds |
| `StoreErrors.MessagesDistinct` | lib/storage/src/lib.rs:94-142 | The 19 kinds carry pairwise distinct messages |
| `Migrations.Connection.Apply` | lib/storage/src/storage_sqlite/migrations.rs:8-28 | The loop's final counter rows, change log and error equal `ApplyFrom` over the fixed step list |
| `Migrations.GetAllMigrations` | lib/storage/src/storage_sqlite/migrations.rs:36-46 | The fixed step list, ids 1..7 |
| `Migrations.LastMigrationId` | lib/storage/src/storage_sqlite/functions.rs:5-18 | The counter is the first row of `system`; no row is an error |
| `Migrations.RunStep` | lib/storage/src/storage_sqlite/migrations.rs:48-97 | A step's body: `insert_initial_migration_id` appends a counter row holding 0; every step, the `create_*` ones included, enters the change log |
| `Migrations.UpdateMigrationId` | lib/storage/src/storage_sqlite/migrations.rs:30-34 | `update_migration_id`: the UPDATE has no WHERE, so every counter row is set to the new id |
| `Migrations.ApplyOne` | lib/storage/src/storage_sqlite/migrations.rs:14-24 | One step in its own transaction: the first faulting phase of begin, body, counter update and commit is reported with nothing of the step kept; otherwise the body and the counter update commit together |
| `Migrations.ApplyFrom` | lib/storage/src/storage_sqlite/migrations.rs:8-28 | `apply` as a function: skip ids up to the start, run the rest in list order, stop at the first failure |
| `Migrations.AllMigrationsShape` | lib/storage/src/storage_sqlite/migrations.rs:36-46 | Seven steps with ids 1..7, strictly increasing; step 1 inserts the counter row and no other step does |
| `Migrations.PendingMembers` | lib/storage/src/storage_sqlite/migrations.rs:9-12 | The steps considered for running are exactly those with id above the starting counter |
| `Migrations.PendingIncreasing` | lib/storage/src/storage_sqlite/migrations.rs:9-12 | Skipping keeps the remaining steps in increasing id order |
| `Migrations.ApplyOneFails` | lib/storage/src/storage_sqlite/migrations.rs:14-24 | A step fails exactly when one of its phases (begin, body, counter update, commit) faults, and reports that step's fault |
| `Migrations.ApplyOutcome` | lib/storage/src/storage_sqlite/migrations.rs:9-27 | Success happens exactly when no pending step faults, and the database is then all pending steps committed in order. On a failure the fault belongs to a pending step and only the pending steps before it are committed |
| `Migrations.ReplayLog` | lib/storage/src/storage_sqlite/migrations.rs:9-25 | Committed steps enter the change log in list order |
| `Migrations.ReplayCounter` | lib/storage/src/storage_sqlite/migrations.rs:20-21 | After committed steps every counter row holds the last committed id |
| `Migrations.ReplayRowCount` | lib/storage/src/storage_sqlite/migrations.rs:48-52 | Replaying steps adds exactly one counter row per counter-insert step among them |
| `Migrations.ApplyCounterMonotone` | lib/storage/src/storage_sqlite/migrations.rs:9-21 | For any `last_migration_id` passed in, the first counter row after `apply` is unchanged or above that id |
| `Migrations.ApplyNeverLowersCounter` | lib/storage/src/storage_sqlite/functions.rs:5-18 | Called with the value `get_last_migration_id` reads, `apply` leaves a counter at or above it, whether every pending step commits or one fails |
| `Migrations.FreshDatabaseReachesLatest` | lib/storage/src/storage_sqlite/test.rs:13-20 | A fresh database ends with one counter row holding 7 after all seven steps ran in order |
| `Migrations.FreshReachesTop` | lib/storage/src/storage_sqlite/migrations.rs:48-52 | For any increasing list whose only counter insert is its first step, a fresh database ends with one counter row holding the last id and every step logged in order, with no error |
| `Migrations.PendingEmptyRunsNothing` | lib/storage/src/storage_sqlite/migrations.rs:9-12 | With nothing pending, `apply` changes nothing and succeeds |
| `Migrations.ApplyIdempotent` | lib/storage/src/storage_sqlite/migrations.rs:9-12 | After a successful `apply` the counter is at least 7, and exactly 7 from any lower start. A second `apply` from that value changes nothing |
| `Migrations.ReachesTop` | lib/storage/src/storage_sqlite/migrations.rs:9-25 | The same as `ApplyIdempotent`, for any increasing step list |
| `Ordering.SortBy` | lib/storage/src/storage_sqlite/test.rs:374-411 | A listing holds each row once, exactly the rows of the set, strictly sorted by the order key |
| `Ordering.SortedUnique` | lib/storage/src/storage_sqlite/test.rs:374-411 | Two sorted listings of the same rows are equal, so listings are deterministic |
| `Text.LowerChar` | lib/storage/src/storage_sqlite/test.rs:510-566 | Folds the Latin and basic Cyrillic capitals to non-capitals and leaves every other character unchanged |
| `Text.Lower` | lib/storage/src/storage_sqlite/test.rs:510-566 | Folds a string character by character, keeping its length |
| `Text.LowerIdempotent` | lib/storage/src/storage_sqlite/test.rs:510-566 | Folding twice is folding once |
| `Text.Contains` | lib/storage/src/storage_sqlite/test.rs:510-566 | True exactly when the pattern occurs at some position of the text |
| `Text.MatchIgnoresPatternCase` | lib/storage/src/storage_sqlite/test.rs:510-566 | Patterns that fold alike match the same texts |
| `Text.MatchBasics` | lib/storage/src/storage_sqlite/test.rs:510-566 | The empty pattern matches every text; a text matches any pattern equal to it up to case |
| `Queries.GetFood` | lib/storage/src/storage_sqlite/test.rs:346-371 | Returns the stored food exactly when its key is stored, otherwise FoodNotFound |
| `Queries.GetSport` | lib/storage/src/storage_sqlite/test.rs:651-671 | Returns the stored sport exactly when its key is stored, otherwise SportNotFound |
| `Queries.GetUserSettings` | lib/storage/src/storage_sqlite/test.rs:1067-1084 | Returns the user's limit exactly when set, otherwise UserSettingsNotFound |
| `Queries.GetBundle` | lib/storage/src/storage_sqlite/test.rs:1091-1122 | Returns the user's bundle exactly when stored, otherwise BundleNotFound |
| `Queries.GetFoodList` | lib/storage/src/storage_sqlite/test.rs:374-411 | Exactly the stored foods, sorted by name then key; EmptyResult exactly when there are none |
| `Queries.GetSportList` | lib/storage/src/storage_sqlite/test.rs:674-701 | Exactly the stored sports, sorted by name then key; EmptyResult exactly when there are none |
| `Queries.GetBundleList` | lib/storage/src/storage_sqlite/test.rs:1125-1163 | Exactly the user's bundles, sorted by key; EmptyResult exactly when the user has none |
| `Queries.FindFood` | lib/storage/src/storage_sqlite/test.rs:510-566 | Exactly the foods whose key, name, brand or comment contains the pattern ignoring case, in list order; EmptyResult exactly when none matches |
| `Queries.FindFoodCaseInsensitive` | lib/storage/src/storage_sqlite/test.rs:510-566 | Patterns that differ only in case find the same foods |
| `Queries.FindFoodEmptyPatternListsAll` | lib/storage/src/storage_sqlite/test.rs:510-566 | The empty pattern finds the whole food list |
| `Queries.GetWeightList` | lib/storage/src/storage_sqlite/test.rs:27-94 | Exactly the user's weights with from <= ts <= to, ascending by timestamp; EmptyResult exactly when there are none |
| `Queries.GetJournalReport` | lib/storage/src/storage_sqlite/test.rs:1609-1810 | One row per journal row of the user in the window. Each row is joined with its food and ordered by timestamp, meal ordinal, food name and key. EmptyResult exactly when there are none |
| `Queries.ReportRowScaling` | lib/storage/src/storage_sqlite/test.rs:1609-1810 | Each nutrient is weight / 100 times the per-100 value: at 100 it is the food's value, and doubling the weight doubles it |
| `Queries.GetJournalFoodAvgWeight` | lib/storage/src/storage_sqlite/test.rs:1609-1810 | 0 when the food has no rows in the window |
| `Queries.AvgWeightBounds` | lib/storage/src/storage_sqlite/test.rs:1609-1810 | The average lies between any lower and upper bound of the row weights it averages |
| `Queries.GetSportActivityReport` | lib/storage/src/storage_sqlite/test.rs:854-932 | Row i is activity i of the listing of the user's activities in the window, joined with its sport name. That listing holds each such activity exactly once, so every activity gives exactly one row. Rows are ordered by timestamp, then sport name. EmptyResult exactly when there are none |
| `Resolver.ExpandEntries` | lib/storage/src/storage_sqlite/test.rs:1414-1517 | One bundle's entries: 0-valued ones queue unseen children, positive ones add their food. Fails with FoodNotFound exactly when some positive entry names a missing food |
| `Resolver.Resolve` | lib/storage/src/storage_sqlite/test.rs:1414-1517 | Terminates on cyclic bundles. BundleNotFound for a missing root; always succeeds when bundles resolve. The result is exactly the foods of the reachable closed set, all existing with positive weights, and a food with a single source bundle gets that bundle's weight |
| `Tables.EntryError` | lib/storage/src/storage_sqlite/test.rs:1189-1215 | The kind one bundle entry raises: a 0-valued entry naming the bundle itself is recursive; a 0-valued entry naming a missing bundle of the user is a missing bundle; a positive entry naming a missing food is a missing food |
| `Tables.DepErrors` | lib/storage/src/storage_sqlite/test.rs:1189-1215 | The set of kinds the entries of a bundle raise |
| `Tables.CheckBundleDeps` | lib/storage/src/storage_sqlite/test.rs:1189-1215 | Accepts exactly when no entry raises a dependency error; otherwise reports the kind of one raising entry |
| `Tables.DepErrorCauses` | lib/storage/src/storage_sqlite/test.rs:1189-1215 | A 0-valued self entry gives BundleDepRecursive; a 0-valued entry naming a missing bundle of the user gives BundleDepBundleNotFound; a positive entry naming a missing food gives BundleDepFoodNotFound; nothing else is raised |
| `Tables.AcceptedBundleResolves` | lib/storage/src/storage_sqlite/test.rs:1217-1254 | Every entry of an accepted bundle resolves once the bundle is stored |
| `Tables.ScanBundlesForFood` | lib/storage/src/storage_sqlite/test.rs:463-507 | True exactly when some bundle lists the food with a positive weight |
| `Tables.ScanBundlesForChild` | lib/storage/src/storage_sqlite/test.rs:1276-1317 | True exactly when some bundle of the user nests the bundle |
| `Tables.ScanActivitiesForSport` | lib/storage/src/storage_sqlite/test.rs:985-1010 | True exactly when some activity names the sport |
| `Tables.CatalogueUpsertKeepsIntegrity` | lib/storage/src/lib.rs:12-84 | Upserting a food, sport, weight or calorie limit keeps referential integrity |
| `Tables.BundleUpsertKeepsIntegrity` | lib/storage/src/storage_sqlite/test.rs:1189-1254 | Storing a valid bundle that raises no dependency error keeps referential integrity |
| `Tables.RowInsertKeepsIntegrity` | lib/storage/src/storage_sqlite/queries.rs:66-76 | A journal row naming an existing food, or an activity naming an existing sport, keeps integrity |
| `Tables.JournalRowsKeepIntegrity` | lib/storage/src/storage_sqlite/test.rs:1414-1517 | Merging journal rows that all name existing foods keeps integrity |
| `Tables.RowRemovalKeepsIntegrity` | lib/storage/src/lib.rs:39-46 | Removing journal, activity or weight rows keeps integrity |
| `Tables.DeleteUnusedKeepsIntegrity` | lib/storage/src/storage_sqlite/test.rs:463-507 | Deleting an unreferenced food, bundle or sport keeps integrity |
| `Tables.DeleteUsedBreaksIntegrity` | lib/storage/src/storage_sqlite/queries.rs:90-109 | Deleting a referenced food, a bundle nested in another stored bundle, or a sport in use would break integrity, which is why those deletes are refused |
| `Snapshot.WeightRows` | lib/model/src/backup.rs:23-31 | The weight family of a backup: exactly the stored weights of every user, sorted by user and timestamp |
| `Snapshot.FoodRows` | lib/model/src/backup.rs:33-51 | Exactly the stored foods, sorted by key |
| `Snapshot.SettingsRows` | lib/model/src/backup.rs:53-59 | Exactly the stored calorie limits, sorted by user |
| `Snapshot.BundleRows` | lib/model/src/backup.rs:61-69 | Exactly the stored bundles, sorted by user and key |
| `Snapshot.JournalRows` | lib/model/src/backup.rs:71-83 | Exactly the stored journal rows with their meal ordinal, sorted by user, timestamp, meal and food |
| `Snapshot.SportRows` | lib/model/src/backup.rs:85-93 | Exactly the stored sports, sorted by key |
| `Snapshot.ActivityRows` | lib/model/src/backup.rs:95-105 | Exactly the stored activities, sorted by user, timestamp and sport |
| `Snapshot.TakeBackup` | lib/storage/src/lib.rs:87 | A backup carries the capture time and lists every family in canonical order |
| `Snapshot.RestoreTables` | lib/storage/src/lib.rs:88 | Succeeds exactly when every meal ordinal decodes and the merged journal and activities reference existing foods and sports. The result is then the merge; otherwise a foreign error with no change |
| `Snapshot.RestoreIsMerge` | lib/storage/src/lib.rs:88 | Restore overwrites rows with the snapshot's and keeps rows the snapshot lacks, family by family |
| `Snapshot.RestoreIdempotent` | lib/storage/src/lib.rs:88 | Restoring the same snapshot twice equals restoring it once |
| `Snapshot.RestoreKeepsWellKeyed` | lib/storage/src/lib.rs:88 | Restore keeps every food and sport stored under its own key |
| `Snapshot.RestoreSkipsBundleChecks` | lib/storage/src/lib.rs:88 | Restore does not check bundle entries: a bundle naming a missing food is restored |
| `Snapshot.RestoreOfBackup` | lib/storage/src/storage_sqlite/test.rs:1817-2188 | Restoring a backup of a consistent store into an empty one rebuilds exactly that store |
| `Snapshot.BackupOfRestore` | lib/storage/src/storage_sqlite/test.rs:1817-2188 | Backing up, for any user, an empty store restored from a canonical snapshot reproduces that snapshot, other users' rows included |
| `Store.SlotRows` | lib/storage/src/lib.rs:32-38 | The rows an expansion writes: exactly one per expanded food at the given user, time and meal, with that food's weight |
| `Store.UpsertRows` | lib/storage/src/lib.rs:88 | The per-family restore loop equals the upsert specification |
| `Store.ExpandBundle` | lib/storage/src/storage_sqlite/test.rs:1454-1461 | BundleNotFound for a missing bundle. Always succeeds in a consistent store. Fails only with BundleNotFound or FoodNotFound, and succeeds with an expansion |
| `Store.WriteSlot` | lib/storage/src/lib.rs:32-38 | The row-by-row write loop leaves the old journal merged with the slot's rows |
| `Store.MergeSnapshot` | lib/storage/src/lib.rs:88 | The restore procedure equals `RestoreTables` |
| `Store.Store.constructor` | lib/storage/src/storage_sqlite/test.rs:1167-1168 | A new store is empty and consistent |
| `Store.Store.SetFood` | lib/storage/src/storage_sqlite/test.rs:211-343 | FoodInvalid with no change, else an upsert on the key; keeps integrity |
| `Store.Store.DeleteFood` | lib/storage/src/storage_sqlite/test.rs:414-507 | FoodIsUsed with no change while a bundle or journal row uses the food, else removed; keeps integrity |
| `Store.Store.SetSport` | lib/storage/src/storage_sqlite/test.rs:573-648 | SportInvalid with no change, else an upsert on the key; keeps integrity |
| `Store.Store.DeleteSport` | lib/storage/src/storage_sqlite/test.rs:985-1010 | SportIsUsedViolation with no change while an activity uses the sport, else removed; keeps integrity |
| `Store.Store.SetWeight` | lib/storage/src/storage_sqlite/test.rs:139-204 | WeightInvalid with no change, else an upsert on (user, timestamp); keeps integrity |
| `Store.Store.DeleteWeight` | lib/storage/src/storage_sqlite/test.rs:97-136 | Always succeeds and removes only that (user, timestamp) |
| `Store.Store.SetUserSettings` | lib/storage/src/storage_sqlite/test.rs:1017-1064 | UserSettingsInvalid with no change, else an upsert on the user |
| `Store.Store.SetBundle` | lib/storage/src/storage_sqlite/test.rs:1166-1273 | BundleInvalid, else one raised dependency kind with no change, else an upsert on (user, key); keeps integrity |
| `Store.Store.DeleteBundle` | lib/storage/src/storage_sqlite/test.rs:1276-1317 | BundleIsUsed with no change while a bundle of the user, itself included, nests it, else removed; keeps integrity |
| `Store.Store.SetJournal` | lib/storage/src/storage_sqlite/test.rs:1324-1411 | JournalInvalid, else FoodNotFound for a missing food, each with no change, else an upsert on (user, ts, meal, food) |
| `Store.Store.SetJournalBundle` | lib/storage/src/storage_sqlite/test.rs:1414-1517 | BundleNotFound for a missing bundle. In a consistent store an existing bundle always succeeds. Failures change nothing. Success writes exactly the slot rows of the bundle's expansion; keeps integrity |
| `Store.Store.DeleteJournal` | lib/storage/src/storage_sqlite/test.rs:1520-1606 | Removes only the (user, ts, meal, food) row |
| `Store.Store.DeleteJournalMeal` | lib/storage/src/lib.rs:46 | Removes every row of (user, ts, meal) and nothing else |
| `Store.Store.SetSportActivity` | lib/storage/src/storage_sqlite/test.rs:747-851 | SportActivityInvalid, else SportInvalid for a missing sport, each with no change, else an upsert on (user, ts, sport) |
| `Store.Store.DeleteSportActivity` | lib/storage/src/storage_sqlite/test.rs:935-982 | Removes only the (user, ts, sport) activity |
| `Store.Store.Restore` | lib/storage/src/lib.rs:88 | Commits `RestoreTables` of the current tables, or fails with a foreign error and no change |
| `Scenarios.SetBundleErrors` | lib/storage/src/storage_sqlite/test.rs:1170-1215 | The three invalid bundles give BundleInvalid; then BundleDepRecursive, BundleDepBundleNotFound and BundleDepFoodNotFound in turn |
| `Scenarios.NestedExpansion` | lib/storage/src/storage_sqlite/test.rs:1414-1517 | bndl1 = {food: 456.456, bndl2: 0} over bndl2 = {food2: 123.123} expands to exactly those two foods |
| `Scenarios.JournalFromBundle` | lib/storage/src/storage_sqlite/test.rs:1454-1517 | An absent bundle gives BundleNotFound; bndl1 writes exactly the rows (food, 456.456) and (food2, 123.123) |
| `Scenarios.DeleteFoodInBundle` | lib/storage/src/storage_sqlite/test.rs:463-507 | A food listed in a bundle gives FoodIsUsed; an unused food is deleted |
| `Scenarios.DeleteNestedBundle` | lib/storage/src/storage_sqlite/test.rs:1276-1317 | A nested bundle gives BundleIsUsed; deleting the parent and then the child leaves no bundle |
| `Scenarios.DeleteSportInUse` | lib/storage/src/storage_sqlite/test.rs:985-1010 | A sport in use gives SportIsUsedViolation; after its activity goes, the delete succeeds |
| `Scenarios.SetJournalChecks` | lib/storage/src/storage_sqlite/test.rs:1324-1411 | Invalid rows give JournalInvalid, a missing food FoodNotFound, and a valid row is stored once |
| `Scenarios.DeleteJournalRows` | lib/storage/src/storage_sqlite/test.rs:1520-1606 | Deleting one row, then the rest of the meal, empties the journal |
| `Scenarios.SetSportActivityChecks` | lib/storage/src/storage_sqlite/test.rs:747-851 | Invalid activity gives SportActivityInvalid, a missing sport SportInvalid; the sets update leaves one row with [1, 2, 3] |
| `Scenarios.WeightUpsert` | lib/storage/src/storage_sqlite/test.rs:139-204 | A zero weight gives WeightInvalid; two sets at one timestamp leave one row, listed as [Weight(1, 71.0)] |
| `Scenarios.FoodRoundTrip` | lib/storage/src/storage_sqlite/test.rs:211-371 | Getting a food after setting it returns the value set, also after an update |

## Left out

- `Store.Store.DeleteFood` reports `FoodIsUsed` also for a food that journal rows name. The tests
  exercise only a food used in a bundle. For journal rows the schema's `ON DELETE RESTRICT` foreign
  key refuses the delete, and the error kind reported then is not in the source; `FoodIsUsed` is
  this model's choice.
- `StoreErrors.IsStorageError`: `is_storage_error` appears only as a signature (lib/storage/src/lib.rs:91).
  The model assumes it holds exactly when the failure carries the given storage kind; this is
  assumed, not derived.
- SQL, the database file, transactions of the store and concurrency are left out. The store is
  single-threaded maps; `Store.Store.Restore` is all-or-nothing, as one transaction would be.
- JSON encoding of backup fields is left out. Bundle data and activity sets, JSON strings in a
  backup, are kept decoded as a map and `seq<int>`.
- Floating-point rounding is left out; weights and nutrients are `real`.
- Full Unicode case folding is left out. `Text.LowerChar` folds Latin A-Z and the basic
  Cyrillic capitals А-Я and Ё only.
- Timestamps are integer milliseconds; time-zone and calendar handling are left out.
- The bot command handlers, HTML and chart rendering and process start-up are left out. They are
  I/O around the store.
- `Resolver.Resolve` leaves unspecified the weight of a food reached through two or more
  bundles. Neither the code nor the tests fix it.
- `Snapshot.RestoreTables` checks only what a restore into the schema's foreign keys would
  refuse: journal to food and activity to sport. Bundle entries are not checked on restore
  (`Snapshot.RestoreSkipsBundleChecks`). A restore can therefore break bundle resolution, so
  `Store.Store.Restore` promises only that keys stay well formed, not full integrity.
- `Snapshot.RestoreTables` fails on a journal meal ordinal that does not decode. The
  implementation of restore is not part of this model. The failure stands for its decoding
  error and is reported as a foreign error, not a storage kind.
- `Snapshot.TakeBackup` takes the user but backs up every user's rows. The restore test expects
  user 2's rows in a backup for user 1.
- Food and sport backup records follow the record definitions, which have no user id; the
  restore test gives them one.
- `Queries.GetWeightList` uses the closed window from <= ts <= to. This is a choice made to match
  the reports, whose tests exercise the closed upper bound. The weight tests never reach ts == to,
  and the SQL text of the weight query (storage_sqlite/queries.rs:36-43) excludes it. The model
  and that text therefore differ for a row at ts == to.
- `Queries.GetFoodList` and `Queries.GetSportList` order by name with the key breaking ties. The
  tests use keys and names that sort alike, so they do not separate the two orders.
- `Queries.GetJournalFoodAvgWeight` states only the empty case in its own contract. The mean's
  bounds are in `Queries.AvgWeightBounds`, and its exact value in the function's body.
- `Store.Store.SetJournalBundle` writes its rows as upserts, replacing a row of the same food
  already in the slot.
- `Store.Store.SetBundle` reports one of the raised dependency kinds, not a fixed one. Which one
  depends on the hash-map iteration order of the source.
- `Migrations.Connection.Apply`: the DDL of steps 2-7 is opaque. A step is recorded in the change
  log, and failures are a parameter.
