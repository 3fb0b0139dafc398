# Verified model of the CMS core

A Dafny model of the stateful core of the content management system: records that follow
their schema through dated versions, a background scrubber that shares a record store with
live traffic, the loader of cyclic entity graphs, chunked uploads, field and row
permissions, engagement counters, the two user stores, and time-based one-time passwords.

`dafny verify dfyconfig.toml` checks everything.

## How the model is laid out

| file | what it models |
|---|---|
| `Ordering.dfy` | Go's string order, sorting of keys, ranks, and paging |
| `Evolution.dfy` | the action language, timelines, and what an upgrade does to data and stamp |
| `FieldHistory.dfy` | what becomes of a single field in an upgrade |
| `RowStore.dfy` | the value-semantics record store with its compare-and-set |
| `EvolutionService.dfy` | `EvolveRecord` and `ScrubEntity`, in place |
| `Filters.dfy` | equality filters, pages, and filtering before or after evolving |
| `Listings.dfy` | which records a listing holds |
| `ScrubProtocol.dfy` | scrubbers and live traffic as an interleaving of atomic store operations, and its safety |
| `ScrubView.dfy` | what readers and updaters can see of scrubbing |
| `ScrubCoverage.dfy` | completeness of scrubs |
| `ScrubGaps.dfy` | runs in which an assumption fails |
| `MemoryDao.dfy` | the in-memory store, which shares record maps with its readers |
| `EntityService.dfy` | `List`, `Single`, `Insert`, `Update`, with permissions and filter pushdown |
| `ServiceRuns.dfy` | service operations as runs of that interleaving, and the removal that hides a record |
| `Permissions.dfy`, `RowFilters.dfy` | field permissions and row filters |
| `Splitting.dfy`, `SchemaLoader.dfy` | option texts, and the depth-first loader of linked entities |
| `ChunkNames.dfy`, `ChunkedUpload.dfy` | chunk file names, and both chunk stores |
| `Engagement.dfy` | the flush worker and its counters |
| `UserSync.dfy` | `syncUserStores` |
| `Totp.dfy` | one-time password generation and its window |

Methods carry the service code's loops and in-place updates and are proved against
functions of the old state; the lemmas then say what those functions mean.

## The main results

* **Scrubbing never overwrites a live update** (`NoLostUpdate`), as long as inserts are fresh
  and the latest version date is a whole second. Updates save unconditionally under "the
  revision I read, plus one", so revisions of up-to-date rows repeat (`RevisionsRepeat`). A
  scrubber only ever writes rows that nobody has written since the start, and for those the
  revision it read is still the stored one exactly when the row is untouched. Scrubbers alone
  never change an up-to-date row (`ScrubsKeepUpdates`). Both assumptions are needed: with fresh
  inserts the promise holds in all runs on all stores if and only if the latest date is a whole
  second (`NoLostUpdateIff`), and without them one insert and some updates lose the last of
  those writes, whatever revision the scrubber read (`ReinsertThenUpdatesLost`).
* **Scrubbing is invisible** (`ScrubbingInvisible`, `SafeRunsInvisible`): every interleaving
  looks, to updaters and to readers of single records and of pages, like the same interleaving
  with all scrub steps erased, unless in the latter a listing filters on a field that a pending
  action touches; such a listing can notice (`ScrubbingVisible`).
* **Scrubbing is complete** (`ScrubCompletes`): whatever happens meanwhile, a scrub that
  returns without error leaves every record present at its start up to date or gone, unless
  the store failed to write that record back, or the record was, still stale, the next one to
  be read when a smaller key was removed from a page already read. So a scrub misses at most one
  record per removal and per failure it reports (`MissesAtMost`), and in every store a removal
  can hide one (`RemovalHidesRecord`).
* **A cyclic entity graph is loaded once** (`LoadLoadedEntity`): loading ends on every finite
  graph, succeeds exactly when nothing faulty is reachable, and then holds exactly one
  object per reachable name, with every link pointing at that object. Targets and link fields
  are those that the option texts spell out (`LoadedJunction`, `LoadedCollection`).
* **Every field of an upgraded record is accounted for** (`FieldsFollowBack`): going back
  through the pending actions finds its value or its absence (`AddedField`, `RenamedField`,
  `DroppedField`).
* **Permissions decide what is read and written** (`SingleReturnsGranted`,
  `UpdateTakesGranted`): a field that some attribute has is returned, or taken over, if and only
  if a stored doc-perm of a held role gives the right; and a listing with a user's row filters
  holds what the user's grants admit (`ListedAreAdmitted`).
* **A commit writes the last uploads before its lock** (`CommitWritesLastUploads`), in every
  interleaving of uploads and commits. Clearing loses nothing for good if and only if the
  file holds the chunks now and every commit of the path still to write took chunks that join
  to the same bytes (`ClearKeepsFileIff`); whether the file holds them now is decided by the
  uploads since the lock of the last commit that wrote it (`LastWriterDecides`). Both can fail
  (`WindowLosesChunk`, `TwoCommitsLose`).
* **Both chunk stores commit the same bytes** for chunk numbers 0 to 999999 (`CommitBoth`),
  and not beyond (`BytesDifferBeyondRange`).
* **A user sync carries over what is stored** (`CreatedUser`, `CreatedRecord`), and makes nobody
  a super user whose record does not say so (`SuperUsersSaySo`).
* **A second user sync is idle** if and only if no record is made from a core user without a
  usable role list (`SecondSyncIdleIff`).

## Assumptions

* The versions of an entity's timeline have pairwise distinct dates; where `GoodTimeline` is
  required, the latest of them is a whole second. What happens otherwise is stated by
  `SecondUpgradeIdle`, `FractionReappliedForever`, `StagedUpgradeNeedsWholeSeconds`,
  `StagedUpgradeSettled` and `NoLostUpdateIff`.
* One manifest at most mentions an entity, and none is registered during a run.
* Where a protocol theorem asks for `Fresh`, records are inserted only under keys never used
  before. The insert itself is modelled as the code has it, unconditional. Scrubbers have a
  positive batch size.
* A store holds the rows of one namespace. Listings are in key order, as `MemoryDao` lists
  them; the SQL listing names no order.
* Time is counted in nanoseconds from Go's zero time. Formatting a date cuts it to its whole
  second, and zone offsets are whole minutes, so parsing gives that second back.
* JSON encoding followed by decoding is the identity on record data, and records are maps.
* `fmt`'s `%v`, the hash that turns an identifier into a number, and HMAC are parameters; where it
  matters, `%v` of a string is the string (`ShowsText`), and HMAC returns 32 bytes (`IsMac`).
* Clock readings and generated identifiers are parameters.

The documentation says that compare-and-set keeps migrations from overwriting live updates
(`ARCHITECTURE.md`, line 111). The code keeps that promise under the assumptions above, but
not because revisions are unique: they are not. It does not keep it when a record is inserted
over an old one, nor for the entity "User", whose records the authentication service saves
again with blank metadata.

## Model

| member | source | states |
|---|---|---|
| Ordering.SortedKeys | infrastructure/relationdbdao/memory.go:188-193 | collecting keys in map order and sorting them gives the one increasing enumeration of the key set |
| Ordering.IncreasingUnique | infrastructure/relationdbdao/memory.go:188-193 | two increasing sequences with the same keys are equal: the default order leaves no choice |
| Ordering.RankIsPosition | infrastructure/relationdbdao/memory.go:188-213 | the position of a key in a listing is the number of smaller keys, so inserts can only move it back |
| Ordering.LessIff | infrastructure/relationdbdao/memory.go:188-193 | a string is less than another if and only if, after some equal bytes, it ends first or has the smaller byte |
| Evolution.UntouchedField | core/services/evolution_service.go:90-109 | a field no action mentions keeps its presence and its value |
| Evolution.RenameToItself | core/services/evolution_service.go:93-97 | renaming a field to itself deletes it |
| FieldHistory.FieldsFollowBack | core/services/evolution_service.go:90-109 | for every list of actions, record and field: the field holds what going back through the actions finds, or nothing |
| FieldHistory.AddedField | core/services/evolution_service.go:98-101 | in an upgrade, an added field that was absent holds the action's default, whatever that is, and one that was present keeps its value, if no later pending action mentions it |
| FieldHistory.RenamedField | core/services/evolution_service.go:93-97 | a renamed field's value ends up under the new name, also when that was in use, and its old name is gone |
| FieldHistory.RenamedNothing | core/services/evolution_service.go:93-97 | renaming an absent field changes no field |
| FieldHistory.DroppedField | core/services/evolution_service.go:102-103 | a dropped field is absent |
| Evolution.PendingExactly | core/services/evolution_service.go:78-79 | pending are exactly the versions dated after the record, each as often as the timeline has it |
| Evolution.MissingExactly | core/services/evolution_service.go:68-79 | in terms of the metadata: applied are the versions dated after the stamp's date, or after zero if that is blank or unreadable |
| Evolution.PendingSorted | core/services/evolution_service.go:78-79 | they are applied in strictly increasing date order |
| Evolution.CurrentIff | core/services/evolution_service.go:68-85 | a sorted timeline has nothing pending exactly when it is empty or its last version is not after the record's date |
| Evolution.StampAfterUpgrade | core/services/evolution_service.go:78-85 | whatever was pending, an upgraded record is stamped with the name of the latest version and the last whole second not after its date |
| Evolution.TimelineUnique | core/services/evolution_service.go:54-66 | with distinct dates there is one date-ordered arrangement of the versions, whatever the map order |
| Evolution.SecondUpgradeIdle | core/services/evolution_service.go:70-85 | a second upgrade finds nothing to do if and only if the first had nothing to do or the latest date is a whole second |
| Evolution.FractionReappliedForever | core/services/evolution_service.go:70-85 | with a fractional latest date a stale record is stale again after any number of upgrades |
| Evolution.StagedReplay | core/services/evolution_service.go:54-87 | after a first stage, the second replays exactly the versions of the last fractional second and the extension |
| Evolution.StagedUpgrade | core/services/evolution_service.go:54-87 | upgrading under a timeline and then under an extension gives the data and stamp of one upgrade under the extension |
| Evolution.StagedUpgradeNeedsWholeSeconds | core/services/evolution_service.go:70-85 | a fractional date for which staging destroys a field |
| Evolution.StagedUpgradeSettled | core/services/evolution_service.go:54-87 | with a fractional latest date staging still works for a record stamped on a whole second if the replayed versions are settled |
| Evolution.StagedStamps | core/services/evolution_service.go:70-85 | the stamp after two stages is that after one, whatever the dates |
| Evolution.SettledIdempotent | core/services/evolution_service.go:90-109 | re-running a settled action list on its own result changes nothing, for every record |
| Evolution.DifferentFieldsSettled | core/services/evolution_service.go:90-109 | in particular every list is settled whose actions mention pairwise different fields |
| Evolution.SettledConditionsNeeded | core/services/evolution_service.go:90-109 | dropping either settledness condition loses data on the second run |
| RowStore.SaveThenConditional | infrastructure/relationdbdao/sqlite_p2p.go:148-214 | a conditional save after an unconditional one takes effect if and only if it expects the revision that one left; otherwise the unconditional save stands unchanged |
| RowStore.SecondWriterConflicts | infrastructure/relationdbdao/sqlite_p2p.go:148-237 | of two writers that read the same row, the conditional one fails and changes nothing if it comes second |
| RowStore.SqliteDao.SaveConditional | infrastructure/relationdbdao/sqlite_p2p.go:177-214 | succeeds exactly when the stored revision is the expected one, and otherwise changes nothing |
| RowStore.RemovedThenSaved | infrastructure/relationdbdao/sqlite_p2p.go:148-244 | after a removal no conditional save brings the row back, and any unconditional one does |
| RowStore.SqliteDao.List | infrastructure/relationdbdao/memory.go:188-213 | one page of the rows in key order |
| RowStore.RankListed | infrastructure/relationdbdao/memory.go:188-213 | a page holds every key whose rank lies in it, at its place, and is full when some rank lies beyond |
| RowStore.UpgradeSettles | core/services/evolution_service.go:68-88 | an upgraded row is up to date, and an up-to-date row is its own upgrade |
| RowStore.StaleIff | core/services/evolution_service.go:68-85 | a row is stale if and only if the latest version is dated after the row's date, where a blank or unreadable date is zero |
| RowStore.ScrubbedRow | core/services/evolution_service.go:131-152 | a visit leaves a stale row with its evolved data, the latest version's name and second, and the next revision, and any other row as it is |
| RowStore.RecordOutcome | core/services/evolution_service.go:131-152 | a record is left alone if it is not stale, upgraded and written if its revision stands, and else failed and not written |
| EvolutionService.RegisteringKeepsOthers | core/services/evolution_service.go:27-46 | registering a manifest changes the timeline of no entity that neither it nor its predecessor mentions |
| EvolutionService.TimelineHolds | core/services/evolution_service.go:33-66 | the timeline used for an entity holds every version of the one manifest that mentions it, with its date and actions, each once, by date, and nothing else |
| EvolutionService.SortByDate | core/services/evolution_service.go:59-66 | the exchange sort leaves the array sorted by date and a permutation of what it was |
| EvolutionService.EvolutionService.FindTimeline | core/services/evolution_service.go:33-46 | finds the timeline of a manifest that has the entity, or an empty one if none has |
| EvolutionService.EvolutionService.OrderedVersions | core/services/evolution_service.go:50-66 | the versions of a timeline, once each, by date |
| EvolutionService.TimelineForUnique | core/services/evolution_service.go:33-66 | neither the manifest found nor the order of its versions depends on map iteration |
| EvolutionService.EvolutionService.ApplyActions | core/services/evolution_service.go:90-109 | the in-place rewriting of the record map is the action list applied in order |
| EvolutionService.EvolutionService.EvolveRecord | core/services/evolution_service.go:32-88 | exactly the versions after the record's date are applied, in date order; the stamp follows; modified means something was pending |
| EvolutionService.EvolutionService.ScrubRecord | core/services/evolution_service.go:131-152 | a stale record is upgraded if its revision still stands and counted as failed otherwise; others are left alone |
| EvolutionService.EvolutionService.ScrubPages | core/services/evolution_service.go:119-159 | the records visited, page by page, are the whole listing once and in order, and the loop ends; a batch size of zero visits none |
| EvolutionService.EvolutionService.ScrubEntity | core/services/evolution_service.go:112-162 | without competing writers: every record visited exactly once in key order, every stale row upgraded under the next revision, the others untouched, the count that of the stale rows, no failure |
| EvolutionService.SecondScrubIdle | core/services/evolution_service.go:112-162 | after a full scrub no row is stale, so another scrub changes nothing |
| ScrubProtocol.InvRun | core/services/evolution_service.go:131-151 | in every run with fresh inserts each stored, held or paged row is either its key's unwritten original or up to date with a later revision |
| ScrubProtocol.RevisionTellsWrites | infrastructure/relationdbdao/sqlite_p2p.go:177-214 | for a row read stale, the stored revision is the one read if and only if nobody wrote the key since |
| ScrubProtocol.NoLostUpdate | ARCHITECTURE.md:111 | in every interleaving with fresh inserts a scrubber's write succeeds exactly when the row is untouched since it was read |
| ScrubProtocol.ScrubsKeepUpdates | ARCHITECTURE.md:111 | from any reachable state, any number of scrub steps leave an up-to-date row as it is, contents and revision, and upgrade a stale one at most once |
| ScrubProtocol.WritesCountChanges | infrastructure/relationdbdao/sqlite_p2p.go:148-214 | the write count used above misses no change of a row |
| ScrubGaps.RevisionsRepeat | core/services/entity_service.go:230-313 | for every timeline and row, two racing updates put the stored revision back to an earlier number over other contents |
| ScrubGaps.ReinsertOverwritten | core/services/entity_service.go:175-190 | an insert over a row that a scrubber holds as stale, visited right after the insert, is overwritten if and only if the scrubber read revision one |
| ScrubGaps.ReinsertThenUpdatesLost | core/services/entity_service.go:139-315 | for every stale row of revision r >= 1, a run with one insert over it and r - 1 updates in which the scrubber then overwrites the last of those writes |
| ScrubGaps.ReinsertLosesUpdate | core/services/entity_service.go:112-190 | a run from the start in which that happens |
| ScrubGaps.FractionalDateLosesUpdate | core/services/evolution_service.go:70-85 | for every timeline with a fractional latest date and every stale row, a run with fresh inserts in which a scrubber overwrites an update made after it read |
| ScrubGaps.NoLostUpdateIff | ARCHITECTURE.md:111 | in all runs with fresh inserts on all stores the revision tells a scrubber whether its stale row was written, if and only if the timeline is empty or its latest date is a whole second |
| ScrubView.StepRefines | core/services/entity_service.go:222-344 | each step is, on evolved rows, a plain read, listing, write, insert, removal or nothing; scrub steps are nothing |
| ScrubView.RunRefines | core/services/evolution_service.go:112-162 | whole runs refine the store without versions, revisions and scrubbers |
| ScrubView.ScrubbingInvisible | core/services/evolution_service.go:112-162 | a run and the same run without its scrub steps look the same to every reader and updater, if in the latter each listing filters only on fields without a pending action |
| ScrubView.HonestBeside | core/services/evolution_service.go:112-162 | listings that filter so without the scrubs also do so with them: what is stale with them is stale, and the same row, without them |
| ScrubView.SafeRunsInvisible | core/services/entity_service.go:36-69 | that holds for every run whose listings are unfiltered or filter on fields the timeline never touches |
| ScrubView.UnfilteredRunsInvisible | core/services/entity_service.go:36-69 | in particular for every run without filters |
| ScrubView.ScrubbingVisible | infrastructure/relationdbdao/memory.go:131-167 | a visit that writes back a row which only its evolved data lets pass a filter adds exactly one to the total of that listing |
| ScrubGaps.ScrubbingVisibleRun | core/services/entity_service.go:36-41 | for every such row and filter, a run whose listing finds the record with the scrub and not without it |
| ScrubCoverage.ListCovers | infrastructure/relationdbdao/memory.go:188-213 | a page read leaves every owed key up to date, on the page, or on a later page |
| ScrubCoverage.VisitedIsUpToDate | core/services/evolution_service.go:142-152 | after its visit a record is up to date or gone, also when the compare-and-set conflicts |
| ScrubCoverage.CoverageRun | core/services/evolution_service.go:119-159 | in every interleaving each owed key is up to date, still on the page, or on a page to come |
| ScrubCoverage.ScrubCompletes | core/services/evolution_service.go:112-162 | after a finished scrub every record present at its start is up to date or gone, unless its own write-back failed or it was, still stale, the next record to be read when a smaller key was removed from a page already read |
| ScrubCoverage.HidesAtMostOne | infrastructure/relationdbdao/memory.go:188-213 | there is at most one record that a removal behind a scrubber can hide from it |
| ScrubCoverage.MissesAtMost | core/services/evolution_service.go:112-162 | a finished scrub leaves stale at most one record per removal in the run and one per failure it reports |
| ScrubCoverage.VisitCounts | core/services/evolution_service.go:142-152 | in the protocol a visit of a stale record counts as upgraded if its revision stands, and else as failed |
| ScrubCoverage.ReportsAttempts | core/services/evolution_service.go:112-162 | over every run, the upgraded and failed records that a scrubber reports add up to the stale records it tried to write back |
| ServiceRuns.RemovalHidesRecord | core/services/evolution_service.go:119-159 | in every store, for every stale record and every smaller key: a run with that removal as its only traffic in which a scrub finishes without failures and leaves exactly that record hidden and stale |
| MemoryDao.MemoryDao.Save | infrastructure/relationdbdao/memory.go:31-61 | stores a copy of the data in a new map under the next revision |
| MemoryDao.MemoryDao.SaveConditional | infrastructure/relationdbdao/memory.go:63-97 | succeeds exactly when the key is stored with the expected revision, and otherwise changes nothing |
| MemoryDao.MemoryDao.Delete | infrastructure/relationdbdao/memory.go:115-123 | removes that row only |
| MemoryDao.MemoryDao.Satisfies | infrastructure/relationdbdao/memory.go:145-159 | the constraint loop accepts a value exactly when every equals-constraint lists its text |
| MemoryDao.MemoryDao.Accepts | infrastructure/relationdbdao/memory.go:131-163 | the filter loop accepts a record exactly when it has every filtered field with an allowed value |
| MemoryDao.MemoryDao.List | infrastructure/relationdbdao/memory.go:125-216 | the page of matching records in key order, and the number of all matches |
| Listings.ListingSelects | infrastructure/relationdbdao/memory.go:125-216 | a listing is increasing and holds exactly the matching keys whose rank among the matching keys is at least the offset, zero if none is given, and, only if a limit is given, below offset plus limit |
| Listings.UnpagedListing | infrastructure/relationdbdao/memory.go:199-213 | without offset and limit every matching key is listed |
| Listings.MatchesIff | infrastructure/relationdbdao/memory.go:131-163 | a record matches if and only if it has every filtered field with a value whose text is among those of each "equals" constraint; constraints of other kinds are ignored |
| MemoryDao.ReadInPlace | core/services/entity_service.go:71-84 | a read rewrites the stored data of that record, leaves its metadata stale, and touches nothing else |
| MemoryDao.StaleReadsAgree | infrastructure/relationdbdao/memory.go:99-113 | with settled pending actions any number of such reads return the same data |
| MemoryDao.SecondReadLosesData | infrastructure/relationdbdao/memory.go:110-112 | with unsettled actions the second read returns a default in place of the value |
| MemoryDao.ReadRepeatedly | core/services/entity_service.go:71-87 | any number of reads in a row through the shared map: what each returns, what is stored afterwards, and that with settled actions all return the same |
| MemoryDao.ScrubInPlace | core/services/evolution_service.go:131-152 | one record of a scrub over the shared map changes the stored rows as over a copy, whether or not the map is still the stored one |
| MemoryDao.SettledReadsHarmless | infrastructure/relationdbdao/memory.go:99-113 | with settled actions, reads in between do not change what a later scrub persists or a later update starts from |
| MemoryDao.ReadThenScrubLosesData | infrastructure/relationdbdao/memory.go:110-112 | otherwise one read can make a later scrub persist a default in place of the value |
| Permissions.PermLevels | core/services/permission_service.go:172-224 | a level is granted a right exactly when some doc-perm of a held role grants it |
| Permissions.GetFieldPermissions | core/services/permission_service.go:138-238 | one entry per field, holding the union of the held grants at the level of the last attribute with that field; everything for "sa" |
| Permissions.FieldRights | core/services/permission_service.go:150-238 | in terms of stored doc-perms: a field may be read, or written, if and only if "sa" is held or some doc-perm of a held role at the level of the field's last attribute has that right as true or one |
| Permissions.RolesMonotone | core/services/permission_service.go:138-238 | more roles never take a permission away |
| RowFilters.GetRowFilters | core/services/permission_service.go:81-136 | no filter without grants, otherwise one per lookup to an entity with grants, and an error only if the entity is needed and missing |
| RowFilters.FiltersAdmit | core/services/permission_service.go:115-133 | a record passes the row filters if and only if each lookup with grants is present and holds a granted value |
| RowFilters.AdmitsIff | core/services/permission_service.go:97-133 | in terms of stored grants: for every lookup to an entity that some grant allows, the record holds a value whose text is that of such a grant |
| RowFilters.OneMoreGrant | core/services/permission_service.go:97-103 | a further grant for an entity already granted admits more records, a first grant for an entity admits fewer |
| EntityService.EntityService.CopyReadable | core/services/entity_service.go:92-98 | keeps exactly the fields not forbidden to read |
| EntityService.EntityService.Patch | core/services/entity_service.go:252-272 | overwrites the record with exactly the input fields not forbidden to write |
| EntityService.EntityService.Single | core/services/entity_service.go:71-101 | of the evolved record exactly the fields without a permission entry and those whose entry allows reading, with their values, or an error if there is no record; the store keeps its rows |
| EntityService.EntityService.Update | core/services/entity_service.go:222-344 | the evolved record with the writable input and the time, saved under the next revision, then read back |
| EntityService.EntityService.Insert | core/services/entity_service.go:103-220 | the writable input under the given or generated identifier with blank metadata, then read back |
| EntityService.UpdateStores | core/services/entity_service.go:230-313 | stored is the evolved record with exactly the input fields that have no entry or one that allows writing replaced, the time as "updated_at", the evolved stamp and the next revision |
| EntityService.InsertStores | core/services/entity_service.go:112-190 | stored under the given identifier, or the generated one if that is missing, null or empty, are exactly the writable input fields and the two times, without a stamp, as revision one |
| EntityService.SingleReturnsGranted | core/services/entity_service.go:89-98 | from the stored doc-perms: a field of the evolved record is returned if and only if no attribute has it, or a held role may read at the level of its last attribute |
| EntityService.UpdateTakesGranted | core/services/entity_service.go:249-273 | from the stored doc-perms: an update takes over an input field if and only if a held role may write at the level of its last attribute, and else keeps what the evolved record has |
| EntityService.ListedShows | core/services/entity_service.go:57-63 | a listed record shows exactly the readable fields of its evolved data |
| EntityService.ListedAreAdmitted | core/services/entity_service.go:36-41 | with a user's row filters added, a listing matches exactly the records that match without them and that the user's grants admit |
| EntityService.SingleHidesUnreadable | core/services/entity_service.go:71-101 | records that evolve to the same fields and agree on the readable ones give the same answer |
| EntityService.UpdateIgnoresUnwritable | core/services/entity_service.go:252-274 | inputs that agree on writable fields and the key store the same rows |
| EntityService.UpdateThenSingle | core/services/entity_service.go:222-344 | an update leaves the row up to date, keeps unwritable fields, and what it wrote is read back |
| Filters.FilterPushdown | core/services/entity_service.go:36-41 | filtering stored data and filtering evolved data list the same page and total if no pending action touches a filtered field |
| EntityService.ScrubbedPushdown | core/services/entity_service.go:36-41 | after a full scrub that holds for all filters |
| EntityService.PushdownMissesRenamed | infrastructure/relationdbdao/memory.go:131-167 | a filter on a field that a pending rename introduces misses the record |
| EntityService.List | core/services/entity_service.go:36-69 | on the shared store: the page and total, each record with exactly the readable fields of its evolved data; listed data is evolved in place, all metadata and other rows stay |
| ServiceRuns.UpdateIsTwoSteps | core/services/entity_service.go:222-315 | an undisturbed update does to the rows what the protocol's read and write steps do |
| ServiceRuns.SingleIsRead | core/services/entity_service.go:71-101 | a read returns the readable part of what the protocol's read step replies |
| ServiceRuns.ListIsReadPage | core/services/entity_service.go:36-69 | a listing returns the readable parts of the page the protocol's listing step replies, and its total |
| ServiceRuns.InsertIsOneStep | core/services/entity_service.go:139-190 | an insert, fresh or not, does to the rows what the protocol's insert step does |
| ServiceRuns.ScrubEntityIsRun | core/services/evolution_service.go:112-162 | from any state a scrubber's own steps can end with the rows, count and failures that `ScrubEntity` ends with when undisturbed |
| SchemaLoader.ReachesFurther | core/services/schema_service.go:473-538 | what a link's target reaches, the entity reaches |
| Splitting.SplitJoins | core/services/schema_service.go:485 | the parts joined with the separator give the text back, and none holds a separator |
| Splitting.SplitUnique | core/services/schema_service.go:485 | no other parts do that |
| Splitting.SplitCount | core/services/schema_service.go:486-488 | there is one part more than there are separators |
| SchemaLoader.FaultyIff | core/services/schema_service.go:484-517 | an entity is faulty if and only if it is unknown, or a junction text does not hold three bars or a collection text not one |
| SchemaLoader.ToLoadedEntity | core/descriptors/entity.go:55-92 | one new unlinked slot per attribute, in order, under the table of the entity, and a "deleted" attribute; the four special attributes are picked from the bare slots |
| SchemaLoader.FindSlot | core/services/schema_service.go:524-530 | the first slot of the target's own array with the field, or none |
| SchemaLoader.Loader.Load | core/services/schema_service.go:418-436 | ends; on success the name is memoized and everything memoized by the call is completely linked; on failure something faulty is reachable |
| SchemaLoader.Loader.LinkAll | core/services/schema_service.go:439-453 | every slot of the entity is linked to the memoized object of its target |
| SchemaLoader.Loader.LoadLink | core/services/schema_service.go:473-538 | one slot: an error for options that do not split as required, else the link to the target's object |
| SchemaLoader.Loader.SetLink | core/services/schema_service.go:473-538 | a lookup, junction or collection points at the target's object, a collection also at the target's own slot |
| SchemaLoader.PickMeans | core/descriptors/entity.go:59-74 | a pick is the last slot with the field, and keeps what was there before exactly if no slot has it |
| SchemaLoader.Loader.AssignSpecials | core/services/schema_service.go:454-469 | primary key, label, publication status and update time are linked copies of the last slots with their field, or absent |
| SchemaLoader.AllLoaded | core/services/schema_service.go:414-436 | a completely linked memo holds everything reachable, and nothing of it is faulty |
| SchemaLoader.LoadLoadedEntity | core/services/schema_service.go:414-538 | succeeds if and only if nothing faulty is reachable; then one object per reachable name and every link right |
| SchemaLoader.LoadedLookup | core/services/schema_service.go:473-481 | in a loaded graph a lookup points at the object of the entity its options name, and has no other link |
| SchemaLoader.LoadedJunction | core/services/schema_service.go:484-510 | a junction whose options are table, target, source field and target field, with bars in between, joins its own object with that of the target through that table and those fields |
| SchemaLoader.LoadedCollection | core/services/schema_service.go:512-538 | a collection whose options are target and link field, with a bar in between, points at the target's object and at the slot of its first attribute with that field, or at no slot if it has none |
| SchemaLoader.LoadedScalar | core/services/schema_service.go:439-453 | any other attribute has no link |
| SchemaLoader.LoadedSpecials | core/services/schema_service.go:455-469 | primary key, label, "publicationStatus" and "updatedAt" are linked copies of the last slots with those fields |
| SchemaLoader.LoadedWithout | core/services/schema_service.go:455-469 | without an attribute of that field they are absent |
| ChunkNames.FixedOrder | infrastructure/filestore/local.go:159-169 | fixed-width decimal strings sort as their numbers, for every width |
| ChunkNames.NameIsFixed | infrastructure/filestore/local.go:169 | below one million a chunk name has exactly six digits |
| ChunkNames.NameOrder | infrastructure/filestore/local.go:159-169 | chunk names sort as chunk numbers from 0 to 999999 |
| ChunkNames.NameOrderEnds | infrastructure/filestore/local.go:169 | the bound is tight |
| ChunkNames.ItoaInjective | infrastructure/filestore/sqlite_p2p.go:284 | different chunk numbers have different unpadded names |
| ChunkNames.ItoaReads | infrastructure/filestore/sqlite_p2p.go:284 | an unpadded name is the sign and the digits of its number, which read back as it |
| ChunkNames.ChunkNameReads | infrastructure/filestore/local.go:169 | a padded name has six characters or more, sign included, reads back as its number, and is padded with zeros no further |
| ChunkNames.TenBeforeTwo | infrastructure/filestore/sqlite_p2p.go:286 | unpadded names do not sort as numbers |
| ChunkedUpload.P2PFileStore.GetUploadedChunks | infrastructure/filestore/sqlite_p2p.go:273-288 | the names of exactly the stored chunks, each once, in string order |
| ChunkedUpload.P2PFileStore.UploadChunk | infrastructure/filestore/sqlite_p2p.go:291-305 | sets that chunk of that path and nothing else |
| ChunkedUpload.P2PFileStore.Assemble | infrastructure/filestore/sqlite_p2p.go:309-326 | the stored chunks joined in ascending number, or an error if there are none |
| ChunkedUpload.AssembledLast | infrastructure/filestore/sqlite_p2p.go:317-326 | the chunk of the greatest number comes last, behind all the others assembled |
| ChunkedUpload.P2PFileStore.CommitChunks | infrastructure/filestore/sqlite_p2p.go:308-337 | undisturbed: writes the joined chunks, clears the path, and changes nothing on an error |
| ChunkedUpload.HoldsLastUploads | infrastructure/filestore/sqlite_p2p.go:291-337 | after any run of uploads and commits on all paths, a path holds per number the last data uploaded to it since it was last cleared |
| ChunkedUpload.CommitWritesLastUploads | infrastructure/filestore/sqlite_p2p.go:308-330 | whatever ran before and in between, a commit writes the last uploads before its first lock, joined in ascending number |
| ChunkedUpload.CommitIsThreeSteps | infrastructure/filestore/sqlite_p2p.go:308-337 | lock, write and unlock in a row do to chunks and files what an undisturbed commit does |
| ChunkedUpload.OtherPathsUntouched | infrastructure/filestore/sqlite_p2p.go:291-337 | no step changes the chunks or the file of another path |
| ChunkedUpload.ClearKeepsFileIff | infrastructure/filestore/sqlite_p2p.go:326-334 | in every state: what an unlock deletes stays in the file for every continuation without an upload to the path if and only if it is there now and every commit of the path still to write took chunks joining to the same bytes |
| ChunkedUpload.LastWriterDecides | infrastructure/filestore/sqlite_p2p.go:308-337 | the file holds what the last commit that wrote it took, and that is what the path holds now if and only if nothing new was uploaded since its lock |
| ChunkedUpload.ClearLosesNothing | infrastructure/filestore/sqlite_p2p.go:326-334 | in particular, in every run: without an upload since the lock, and if all commits of the path that have written took the same chunks, the file holds all that clearing deletes, for good exactly if no commit still to write takes other bytes |
| ChunkedUpload.TwoCommitsLose | infrastructure/filestore/sqlite_p2p.go:308-337 | two commits of one path that took different chunks: the later one clears a chunk that is in no file, although none arrived since its lock |
| ChunkedUpload.WindowKeepsSnapshot | infrastructure/filestore/sqlite_p2p.go:308-334 | what a commit took is what its path holds at the end of its window if and only if, per number, the last upload in the window is absent or the chunk it took |
| ChunkedUpload.WindowLosesChunk | infrastructure/filestore/sqlite_p2p.go:326-334 | a chunk uploaded in the window, new or with other data, ends up in neither the file nor the chunk map |
| ChunkedUpload.LocalFileStore.UploadChunk | infrastructure/filestore/local.go:163-183 | writes the chunk file named by its number and no other |
| ChunkedUpload.LocalFileStore.GetUploadedChunks | infrastructure/filestore/local.go:142-161 | the chunk file names in string order |
| ChunkedUpload.LocalFileStore.CommitChunks | infrastructure/filestore/local.go:185-218 | joins the chunk files in name order into the file and removes their directory |
| ChunkedUpload.SameBytes | infrastructure/filestore/local.go:142-218 | for chunk numbers from 0 to 999999 a directory that mirrors the chunk map joins to the same bytes |
| ChunkedUpload.CommitBoth | infrastructure/filestore/local.go:163-218 | the same uploads in any order and repetition to both stores, then a commit in each: identical files, except that without any chunk one store reports an error and the other writes an empty file |
| ChunkedUpload.BytesDifferBeyondRange | infrastructure/filestore/local.go:169 | with chunks 999999 and 1000000 the mirrored directory swaps the data |
| Engagement.BatchesDoNotMatter | core/services/engagement_service.go:59-87 | flushing two batches is flushing their concatenation |
| Engagement.EngagementService.Track | core/services/engagement_service.go:26-36 | appends to the channel of one hundred; flushed, buffered and queued statuses remain what was tracked, in order |
| Engagement.EngagementService.Receive | core/services/engagement_service.go:44-49 | moves one status to the buffer and flushes all of it, in order, at fifty |
| Engagement.EngagementService.Tick | core/services/engagement_service.go:50-54 | flushes the whole buffer, in order |
| Engagement.EngagementService.Flush | core/services/engagement_service.go:59-87 | takes the store through the whole buffer in order, however lookups and saves of each status fail |
| Engagement.EngagementService.FlushStatus | core/services/engagement_service.go:61-86 | drops a status that cannot be saved, else saves it and counts it unless it is a visit found to be repeated; a failed lookup counts as not found |
| Engagement.EngagementService.FlushCounts | core/services/engagement_service.go:89-114 | adds the delta to that counter, or changes nothing if its read or save fails; the others stay |
| Engagement.LastSaved | core/services/engagement_service.go:61-74 | under "entity_record_kind_user" the store holds the last saved status with that key |
| Engagement.CounterIsTotal | core/services/engagement_service.go:59-114 | whatever fails, each counter is its start value plus the deltas that count towards its key |
| Engagement.KeysInjective | core/services/engagement_service.go:62-90 | counter keys are equal only for equal parts if entity name and kind hold no underscore, status keys if the user holds none either, whatever the record identifier holds |
| Engagement.KeysCollide | core/services/engagement_service.go:90 | an underscore in the entity name or in the kind lets two records share a counter |
| Engagement.NonVisitCounter | core/services/engagement_service.go:75-90 | the counter under "entity_record_kind" is, for any kind but "visit", the number of active less that of inactive statuses saved and counted for that record and kind |
| Engagement.VisitCounter | core/services/engagement_service.go:64-90 | for "visit" it is that of each user's first saved statuses, as far as counted, and of those whose lookup failed |
| UserSync.AuthService.SyncUserStores | core/services/auth_service.go:530-624 | both passes, each over the records present when it starts, every save without metadata |
| UserSync.CreatedUser | core/services/auth_service.go:45-104 | a core user that a sync creates is that of the first record, in key order, with its email: id, phone, avatar and password hash are the record's, its roles the usable ones the record lists, in order, or if there are none the stated list for its single role |
| UserSync.SuperUsersSaySo | core/services/auth_service.go:76-104 | a created core user holds "sa" only if its record lists "sa" or has the role "sa" or "superadmin" |
| UserSync.CreatedRecord | core/services/auth_service.go:576-621 | a record that a sync creates is for a core user with an email and without a record under its id or with its email, the first in key order with that id; it stands under that id and holds the user's id, email, phone, avatar, password hash, first role and roles, without a stamp, as revision one |
| UserSync.OrphansGetRecords | core/services/auth_service.go:576-621 | every core user with an email and without a record under its id or with its email gets its record; of several with one id the first in key order |
| UserSync.RepairFills | core/services/auth_service.go:548-565 | a record with an email is repaired if it lacks a role or a role list; "admin" stands in for the role, and for the list the roles its core user would get |
| UserSync.SyncPreserves | core/services/auth_service.go:530-624 | no core user is overwritten, nothing is deleted, and exactly the records in need of repair are rewritten: their role fields filled in, their stamp blank and their revision one |
| UserSync.RepairResets | core/services/auth_service.go:558-565 | a repair keeps all other fields, and leaves the record stale if and only if its timeline has a version after the zero time |
| UserSync.CreatedFrom | core/services/auth_service.go:583-620 | every record a sync creates is made from a core user with no entity under its id or email, the first such user with that id |
| UserSync.CreatedFor | core/services/auth_service.go:583-620 | for each such user a record is created |
| UserSync.SyncLinks | core/services/auth_service.go:530-624 | said of the stored texts: afterwards every entity user with an email has a core user and every core user with an email has an entity record |
| UserSync.SecondSyncIdle | core/services/auth_service.go:548-621 | in particular if all core users have usable role lists |
| UserSync.SecondSyncIdleIff | core/services/auth_service.go:530-624 | a second sync changes nothing if and only if every core user from which the first makes a record has a role list without an empty first role; which users these are is said of the stores before the first sync |
| UserSync.RecordNeedsRepair | core/services/auth_service.go:601-618 | a record made from a core user needs repair if and only if the role list is nil or starts with an empty role |
| UserSync.NilRolesSyncTwice | core/services/auth_service.go:550-565 | for every such user alone in the store a second sync writes again |
| Totp.CounterBytes | core/services/whatsapp_service.go:194 | the eight counter bytes, weighted most significant first, sum up to the counter, for every 64-bit counter |
| Totp.CopyInto | core/services/whatsapp_service.go:191-193 | copies as much as fits and keeps the rest of the buffer |
| Totp.CopyParts | core/services/whatsapp_service.go:190-193 | the buffer starts with exactly the three identity parts when they fit, and is full otherwise |
| Totp.Truncate | core/services/whatsapp_service.go:200-202 | the four bytes read lie inside every 32-byte hash, and the code is below one million |
| Totp.TruncateReads | core/services/whatsapp_service.go:200-202 | the code is the last six digits of the four bytes, without their top bit, at the offset given by the low half of byte 31 |
| Totp.GenerateAtTime | core/services/whatsapp_service.go:186-203 | for identity parts of at most 288 bytes the message is exactly key, user, application and counter, and longer ones panic; the code is the truncated hash |
| Totp.Verify | core/services/whatsapp_service.go:205-215 | accepts exactly the codes of the three wrapped offsets |
| Totp.WindowSteps | core/services/whatsapp_service.go:209 | from second 30 up, short of overflow, the wrapped offsets hit exactly the previous, current and next step |
| Totp.AcceptedInWindow | core/services/whatsapp_service.go:205-215 | a code generated at any time whose step differs by at most one is accepted |
| Totp.WindowIsThreeSteps | core/services/whatsapp_service.go:205-215 | a code is accepted if and only if it is the code of the previous, current or next step |
| Totp.FirstStepWraps | core/services/whatsapp_service.go:209 | in the first thirty seconds the previous step wraps to the end of the 64-bit range |

## Left out

- ScrubProtocol.NoLostUpdate: not for the entity "User", whose records `UpdateUser` and `syncUserStores` save again without metadata; such a save is an insert over a used key, for which the promise fails (`ReinsertOverwritten`).
- ScrubCoverage.ScrubCompletes: not for a record whose write-back failed or that a removal hid from the scrubber, which the code does miss (`RemovalHidesRecord`).
- EntityService.EntityService.Update: not for the entity "User", whose password hash, role list and mirrored core user need bcrypt and a second namespace.
- EntityService.EntityService.Insert: not for the entity "User", for the same reason; owner and roles in the metadata are not modelled.
- EntityService.List: field permissions arrive computed and row filters are part of the filter list; errors of both services are ignored by the code as here.
- MemoryDao.MemoryDao.List: no explicit sort keys (the descending comparator is not a strict order), and no negative offset or limit.
- RowStore.SqliteDao.List: in key order, without filters; the SQL text and its missing order are not modelled.
- RowStore.SqliteDao.Save: revisions are unbounded integers; 64-bit wrap-around and driver errors are not modelled, except as failing protocol steps.
- SchemaLoader.LoadLoadedEntity: the schema lookup is a fixed map during one load, and the junction's own entity is reduced to its table and field names.
- Permissions.GetFieldPermissions: numbers follow their decoding as float64 or int; errors of the store and the schema lookup are not modelled.
- RowFilters.GetRowFilters: `docs` stands for the grants the store lists for the user.
- ChunkedUpload.LocalFileStore.CommitChunks: no file system errors, and no path nested inside another path's chunk directory.
- ChunkedUpload.P2PFileStore.CommitChunks: the upload of the joined bytes does not fail.
- Engagement.EngagementService.Flush: counters are integers, while beyond two to the 53rd the stored float64 loses digits.
- UserSync.AuthService.SyncUserStores: saves succeed; owner and roles in the metadata, which a save also drops, and creation and update times are left out; the email filter compares texts as the in-memory store does.
- Totp.GenerateAtTime: HMAC-SHA-256 is any function to 32 bytes.
- Deleting entities, collection and junction operations, document permissions beyond fields and rows, and one-time passwords stored in memory: they would only add easy members.
- Transport, pages, SQL, replication, other stores and file back ends, language model features, and log rotation.
