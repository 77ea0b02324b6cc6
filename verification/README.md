# Account databases, their replication, and the object relinker of OpenStack Swift

This project models the account database of Swift, the protocol that replicates it, and the
relinker that moves object files when the partition power grows, and proves what they guarantee.
`dafny verify dfyconfig.toml` checks all of it.

**The account table** (`Rows`, `Stamps`, `Digest`, `AccountBroker`). A table maps ROWIDs to container
records and remembers the last ROWID given out. `merge_items` replaces the row of a name by a new row
that keeps the newest put and the newest delete timestamp; the other columns come from the record that
arrives last. `AccountBroker.Broker` is the broker as an object: its methods delete and insert rows, its
triggers update the totals, the per-policy totals and the rolling hash, and its invariant says that all
of these equal what the rows give. `Auditor` compares them the way the auditor does.

**Buffered puts** (`Pending`). Puts wait in the pending file until a commit. When a put finds the file
full, it is merged at once, *before* the records that were waiting. Timestamps survive that; the counts
may not, and `OverflowIsExactIff` says exactly when they do.

**Reclaiming** (`Reclaim`), **metadata** (`Metadata`), **listings** (`Names`, `NameOrder`, `Listing`,
`ListContainers`, `ListingLaws`, `Paging`). The listing loop of range queries is proved equal to a plain
definition (filter, collapse, truncate), which is itself shown to be exactly the set of entries in range,
each once, in order; reverse listings and page-by-page reading follow from that.

**Replication.** `Replicator` and `Usync` are the two transfers as the code performs them on two brokers,
with other writers and lost requests in between. `Replication` is the whole protocol as a state machine:
any number of databases, any number of passes in progress, requests that are lost, late or repeated,
passes that fail or vanish at any point, databases created, copied over and removed. A deletion and the
completion of a copy are two steps each, as in the code: first the test, later the act.
`ReplicationInv`, `ReplicationSteps`, `ReplicationPasses` and `ReplicationRuns` prove in exactly which runs no
sync point claims more than a peer holds; `Placement` and `Losses` exactly which steps lose rows, and that
replication loses none if nothing interferes between its tests and its acts; `ReplicationHistory` draws the
conclusions: what was committed is kept, nothing is invented, and databases judged in sync agree. `Windows`,
`StaleRequests` and `UnsoundRun` show the failures. "Covers" means: has a row of the same name whose two
timestamps are both at least as new.

**The relinker** (`Relinker`, `RelinkRuns`). One hash directory at a time, with failures and interruptions
at any point, and the state file that carries progress from one run to the next.

## What does not hold

Some things one might expect of the code are false. Each has its exact condition and an example.

- *A record committed to a handoff is kept.* It is lost if it comes between the decision to delete the
  handoff and the deletion, and no other database has it: `Losses.DeletionKeepsRowsIff`,
  `Losses.LateRowsDecide`; examples `Windows.DeletionWindowLoses`, and `Windows.SuccessorWindowLoses` where the
  deletion meets a database created after the handoff was gone.
- *A record committed to a new database is kept.* It is lost if a copied file is renamed over that
  database after the test that found none: `Losses.RenameKeepsRowsIff`; example `Windows.RenameWindowLoses`.
- *A handoff is deleted only when a primary has its rows.* That holds if and only if `handoff_delete` is not
  set or is above the number of handoffs contacted: `ReplicationPasses.ApprovalNeedsPrimaryIff`; otherwise a
  handoff may even answer itself: `Windows.SelfAnswerRemoves`.
- *Sync points are sound.* They are in every run that takes no database away
  (`Placement.UndisturbedPointsAreSound`). Otherwise a request for a database that is gone may reach another on
  the same node. All points are sound in all states of a run if and only if each such database, when the request
  reaches it, covers what the request takes for granted: `ReplicationRuns.SyncPointsSoundIff`,
  `StaleRequests.StaleBatchSoundIff`, `StaleRequests.StaleSyncsSoundIff`; examples
  `StaleRequests.StaleBatchOverclaims`, `StaleRequests.StaleSyncsOverclaim`, and a whole run from the empty
  system, `UnsoundRun.SyncPointsCanBeUnsound`.
  Such a point can be adopted by others and let a handoff be judged in sync too early.
- *Nor after `rsync_then_merge`:* the point recorded for the sender is too high whenever the receiver had
  rows, and hides that many of the sender's next rows; it holds if and only if the receiver covers those of
  them that are not replaced later: `Replicator.RecordedPointSoundIff`, `Replicator.RecordedPointHidesRows`,
  `Replicator.RecordedPointHoldsIff`; example `Replicator.RecordedPointLosesRow`.
- *`rsync_then_merge` keeps the rows of the database it replaces.* Not those that come after its last page
  was read, unless the copy covers them: `Replicator.RsyncThenMerge`; example `Replicator.TakeOverWindowLoses`.
- *Buffering changes nothing.* A put that meets a full pending file may leave older counts in place:
  `Pending.OverflowIsExactIff`; example `Pending.OverflowKeepsStaleCounts`.
- *A listing has no repeats.* A delimiter listing starts over at a container with an empty name unless it
  already has all it was asked for: `ListContainers.ListContainersIter`; example `ListContainers.EmptyNameRepeats`.
- *A reader of pages comes to an end.* It does if and only if no empty name is listed, or it goes forward with
  pages of two or more and there is another entry: `Paging.IterItems`; example `Paging.NamelessNeverEnds`.
- *The auditor reports only inconsistent databases.* It reads totals and policies one after the other:
  `Auditor.AuditDatabase`; example `Auditor.AuditReportsConsistent`.
- *Exchanging metadata makes it equal.* Not two values under one timestamp: `Metadata.ExchangeAgreesIff`,
  `Metadata.ExchangeIsFinal`; example `Metadata.ConflictStays`.
- *Relinking keeps every required file in one of the two directories.* Not with
  `clobber_hardlink_collisions`, if the directory moved away held the only one:
  `Relinker.Location.ProcessLocation`; example `Relinker.ClobberLosesFile`.
- *`get_tombstone_count` counts tombstones.* A second call counts the last page again, so it is right if and
  only if that has none: `Reclaim.TombstoneReclaimer.CountTwice`; example `Reclaim.SecondCountIsWrong`.

## Modelling decisions

- Timestamps are natural numbers: the code only compares them. Names are sequences of code points.
- The MD5 of a row is an arbitrary function to 128-bit values. The hash-match branch assumes that no two
  tables that occur in a run collide (`Replication.CollisionFree`).
- Failures, lost requests, lost answers and interruptions are nondeterministic choices; contracts about
  runs in which nothing fails take a flag that excludes them.
- `get_replication_info` is one snapshot. A request names a node, not a database, as in the code.
- A run may take the modelled steps in any order the code may. Theorems about runs name what they need:
  that a request which reaches another database than the one it was meant for fits that one
  (`Replication.FitsUpTo`; requests that reach their own database need no condition), deletions and renames that
  take no row away for good (`Losses.SparesRowsUpTo`), or that meet what their tests found (`Losses.CarefulUpTo`).
- One ring: all nodes have the same primaries for the whole run. With different rings two nodes could each take
  the other for a primary and both delete.
- Which database answered a request with success is remembered with the success, as history; no step reads it.
- Page sizes and caps (10000 rows, 1000 rows, `per_diff`, `max_diffs`, listing limits) are parameters.
- The check of `list_containers_iter` for a full result inside a page (swift/account/backend.py:481-483)
  can never fire, because each query is limited to the missing entries; the model leaves it out.
- `prefix` and `delimiter` are empty where the code has `None`: it treats both alike.

## Model

| member | source | states |
|---|---|---|
| `Rows.MergeOneGrows` | swift/account/backend.py:518-561 | merging a record keeps one row per name, gives the row a new ROWID, never makes a row older, and covers the record |
| `Rows.MergeItemsGrows` | swift/account/backend.py:515-576 | the same for a list of records, with one new ROWID per record |
| `Rows.MergeItemsAppend` | swift/account/backend.py:515-576 | merging two lists one after the other is merging their concatenation |
| `Rows.BatchSplit` | swift/common/db.py:693-707 | the rows after a point are a batch followed by the rows after its last ROWID |
| `Rows.BatchHasNoGaps` | swift/common/db.py:693-707 | a batch of `get_items_since` holds every row between its start and its last ROWID |
| `Stamps.MergeOneStamps` | swift/account/backend.py:540-545 | a merge leaves the newest put and delete timestamps of the row and the record, and touches no other name |
| `Stamps.MergeItemsStamps` | swift/account/backend.py:515-561 | after any merge each name has the newest timestamps of the table and of all merged records |
| `Stamps.MergeOrderIrrelevant` | swift/account/backend.py:515-561 | the order of two lists does not matter for names and timestamps |
| `Stamps.MutualCoverageIsAgreement` | swift/account/backend.py:515-561 | tables that cover each other hold the same names with the same timestamps |
| `Digest.ChexorLaws` | swift/common/db.py:176-192 | the rolling hash ignores order and removing a row undoes inserting it |
| `Digest.HashInsert` | swift/account/backend.py:94-104 | the insert trigger turns the hash of the rows into the hash of the rows with the new one |
| `Digest.HashRemove` | swift/account/backend.py:112-122 | the delete trigger turns the hash of the rows into the hash of the rows without the old one |
| `Digest.HashIgnoresHistory` | swift/common/db.py:176-192 | tables with the same contents have the same hash, whatever order and ROWIDs led there |
| `Digest.SumRemove` | swift/account/backend.py:112-117 | subtracting a row's share gives the sum over the remaining rows, for the account and for any policy |
| `Digest.SumInsert` | swift/account/backend.py:94-99 | adding a row's share gives the sum over the rows with it |
| `Digest.SumOfPoliciesUpdate` | swift/account/backend.py:28-50 | changing one policy's row changes the sum over policies by the difference |
| `AccountBroker.InsertKeepsStatistics` | swift/account/backend.py:28-50 | after both insert triggers totals, policy totals and hash are those of the new rows |
| `AccountBroker.DeleteKeepsStatistics` | swift/account/backend.py:112-122 | after both delete triggers they are those of the remaining rows |
| `AccountBroker.MergeStep` | swift/account/backend.py:552-561 | DELETE by name and INSERT together are one merge |
| `AccountBroker.Broker.constructor` | swift/account/backend.py:59-72 | a new database satisfies the invariant |
| `AccountBroker.Broker.OnInsert` | swift/account/backend.py:94-104 | what the insert triggers do to totals, hash and policy totals |
| `AccountBroker.Broker.OnDelete` | swift/account/backend.py:112-122 | what the delete triggers do to them |
| `AccountBroker.Broker.Insert` | swift/account/backend.py:556-561 | an insert keeps the invariant and uses the next ROWID |
| `AccountBroker.Broker.Delete` | swift/account/backend.py:552-555 | deleting any set of rows keeps the invariant, row by row |
| `AccountBroker.Broker.MergeRecord` | swift/account/backend.py:518-561 | lookup, delete and insert make exactly one merge |
| `AccountBroker.Broker.MergeItems` | swift/account/backend.py:506-591 | the loop is the merge of all items, keeps the invariant, and records the highest ROWID for a source without ever lowering it |
| `AccountBroker.Broker.GetItemsSince` | swift/common/db.py:693-707 | pending puts are committed, then the rows after `start` are returned |
| `AccountBroker.Broker.MergePoints` | swift/common/db.py:900-923 | every point is inserted or raised, none is lowered, the other table is untouched |
| `AccountBroker.Broker.NewId` | swift/common/db.py:608-627 | a new id, and the highest ROWID present as the sync point of the source |
| `AccountBroker.Broker.UpdateMetadata` | swift/common/db.py:1015-1056 | only newer values overwrite; the early return does not change the result |
| `AccountBroker.Broker.CommitPuts` | swift/common/db.py:822-862 | extra records then the pending ones that decode are merged and the file is emptied, or nothing happens and records to commit are refused |
| `AccountBroker.Broker.PutRecord` | swift/common/db.py:782-817 | the record is appended, or committed ahead of the pending ones when the file is full |
| `AccountBroker.Broker.PutContainer` | swift/account/backend.py:228-252 | the record put has the deleted flag of a tombstone exactly when it is one |
| `Auditor.Audit` | swift/account/auditor.py:30-49 | the audit passes if and only if the policies add up to the totals, and otherwise names a key that differs with both values |
| `Auditor.AuditDatabase` | swift/common/db_auditor.py:130-158 | on a consistent database it fails if and only if merges or removals of rows between the two reads changed the totals |
| `Auditor.AuditReportsConsistent` | swift/common/db_auditor.py:137-142 | an example: a container that appears in between |
| `Pending.DoKeepsStamps` | swift/common/db.py:782-862 | a put, commit, overflow or merge changes the timestamps known in table and file only by the records that arrived |
| `Pending.BufferingKeepsStamps` | swift/common/db.py:782-862 | after any interleaving with overflows a commit leaves the timestamps of merging every record on arrival |
| `Pending.BufferingIsExact` | swift/common/db.py:782-862 | without overflow a commit leaves the very table of merging in put order |
| `Pending.FindMerged` | swift/account/backend.py:518-561 | the row of a name after a merge depends only on its old row and the records under that name |
| `Pending.FoldShape` | swift/account/backend.py:535-551 | counts and policy come from the last record, the flag is recomputed unless there was nothing to merge with |
| `Pending.OverflowIsExactIff` | swift/common/db.py:807-808 | an overflowing put leaves the contents of the order of arrival if and only if the last pending record of that name agrees in counts and policy |
| `Pending.OverflowKeepsStaleCounts` | swift/common/db.py:807-808 | an example of an update whose counts are lost to an older one |
| `Pending.ReplayKeepsContentsIff` | swift/common/db.py:845-862 | merging the same pending records again changes no row if and only if lone records carry a consistent deleted flag |
| `Pending.ReplayKeepsHash` | swift/common/db.py:845-862 | such a replay keeps the hash |
| `Pending.ReplayKeepsTotals` | swift/common/db.py:845-862 | and the totals of the account and of each policy |
| `Pending.SumIgnoresHistory` | swift/account/backend.py:94-122 | totals depend on the contents of the table alone |
| `Reclaim.FilterCounts` | swift/common/db.py:250-254 | the tombstone query returns as many rows as match it |
| `Reclaim.PageSize` | swift/common/db.py:247-265 | between the marker and the end marker lie exactly as many tombstones as a page has |
| `Reclaim.PageCounts` | swift/common/db.py:266-271 | page size minus rows deleted is the number of tombstones the page leaves |
| `Reclaim.PagesAddUp` | swift/common/db.py:261-276 | what the pages delete adds up to what one DELETE up to the new marker would |
| `Reclaim.TombstoneReclaimer.constructor` | swift/common/db.py:234-246 | a new reclaimer has counted and reclaimed nothing |
| `Reclaim.TombstoneReclaimer.ReclaimPage` | swift/common/db.py:261-276 | one page deletes the expired tombstones in its range and nothing else, and both counters stay exact |
| `Reclaim.TombstoneReclaimer.Reclaim` | swift/common/db.py:278-285 | it ends, removes exactly the tombstones older than the cutoff, and counts them |
| `Reclaim.TombstoneReclaimer.GetTombstoneCount` | swift/common/db.py:287-305 | the first call returns the number of tombstones left; a later one adds the last page again |
| `Reclaim.TombstoneReclaimer.CountTwice` | swift/common/db.py:287-305 | of two calls the second is right if and only if the last page has no tombstone, and twice too high if all fit on one page |
| `Reclaim.SecondCountIsWrong` | swift/common/db.py:287-305 | an example: one young tombstone is counted as one, then as two |
| `Metadata.RedundantIffUnchanged` | swift/common/db.py:1024-1030 | the early return is taken if and only if the update would change nothing |
| `Metadata.ExchangeAgreesIff` | swift/common/db_replicator.py:561-564 | after an exchange both sides are equal if and only if equal timestamps carried equal values |
| `Metadata.ExchangeIsFinal` | swift/common/db_replicator.py:1055-1057 | further exchanges change nothing |
| `Metadata.ConflictStays` | swift/common/db.py:1048-1051 | an example of two values that never become one |
| `Metadata.UpdateAssociative` | swift/common/db.py:1048-1051 | updates may be gathered in any grouping |
| `Names.PrefixIsInterval` | swift/account/backend.py:401-402 | the names with a prefix are exactly those from the prefix up to its successor |
| `Names.OutsidePrefix` | swift/account/backend.py:485-495 | a name outside a subdirectory lies on the same side of all of it |
| `Names.FindFrom` | swift/account/backend.py:484 | the first occurrence of the delimiter at or after the prefix, if any |
| `Names.SameDir` | swift/account/backend.py:484-496 | two names have the same subdirectory exactly when the second extends that of the first |
| `ListContainers.AdmitsIsInRange` | swift/account/backend.py:413-433 | the query's conditions, whatever bound they drop, admit exactly the names in range |
| `ListContainers.AdmitsBeyond` | swift/account/backend.py:420-424 | after jumping past a subdirectory exactly the names in range beyond all of it remain |
| `ListContainers.FetchIsNextPage` | swift/account/backend.py:406-440 | each query returns the next rows to list, in order, and nothing only at the end |
| `ListContainers.ListPage` | swift/account/backend.py:472-501 | one pass over a page moves the bounds exactly past the rows it listed or collapsed |
| `ListContainers.ListsEmptyIff` | swift/account/backend.py:413-433 | an empty name is listed if and only if one is live and the query has no lower marker or prefix and shows reserved names |
| `ListContainers.ListContainersIter` | swift/account/backend.py:376-504 | for every table and all arguments the loop ends, with the first `limit` entries of the plain listing if and only if it does not start over at an empty name before it has that many; if it does, going forward it is `limit` times the same entry |
| `ListContainers.EmptyNameRepeats` | swift/account/backend.py:476-479 | an example of a listing that is one entry twice |
| `ListingLaws.EntryOrder` | swift/account/backend.py:484-501 | names with different entries compare as their entries do |
| `ListingLaws.CollapseMembers` | swift/account/backend.py:484-501 | collapsing lists every entry of the rows except the subdirectory that is the lower marker, and nothing else |
| `ListingLaws.CollapseInOrder` | swift/account/backend.py:484-501 | collapsed entries are strictly ordered by name, in either direction |
| `ListingLaws.ListedExactly` | swift/account/backend.py:376-504 | a listing is exactly the entries of the live names in range, each once, in order |
| `Paging.ReverseListing` | swift/account/backend.py:395-397 | between the same bounds a reverse listing is the forward one reversed |
| `Paging.NextPage` | swift/account/backend.py:395-430 | with a non-empty entry name as the new marker the listing is what followed that entry, in either direction |
| `Paging.EmptyAfter` | swift/account/backend.py:413-430 | going on from another name a forward listing has no empty name, a reverse one has it again |
| `Paging.EmptyIsFirst` | swift/account/backend.py:413-440 | an empty name that is listed comes first going forward |
| `Paging.IterItems` | swift/common/internal_client.py:322-338 | reading pages of any size, each from the last name of the one before, gives the whole listing without gap or repeat if it ends; and it ends, within as many requests as there are entries and one, if and only if no empty name is listed or it goes forward with pages of two or more and there is another entry |
| `Paging.NamelessNeverEnds` | swift/common/internal_client.py:322-338 | an example: an account whose only container has no name |
| `NodeOrder.ComputeReplNodes` | swift/common/db_replicator.py:732-738 | the search loop computes the rotation of the node list |
| `NodeOrder.TargetAt` | swift/common/db_replicator.py:732-738 | the k-th peer of a primary is the primary k + 1 places further round |
| `NodeOrder.StepHasNoFixedPoint` | swift/common/db_replicator.py:1131-1142 | at no step does a primary contact itself |
| `NodeOrder.StepIsInjective` | swift/common/db_replicator.py:1131-1142 | at no step do two primaries contact the same one |
| `NodeOrder.StepIsOnto` | swift/common/db_replicator.py:1131-1142 | at every step each primary is contacted by some primary |
| `NodeOrder.PrimaryContactsOthers` | swift/common/db_replicator.py:732-738 | a primary contacts every other primary exactly once |
| `NodeOrder.HandoffContactsAll` | swift/common/db_replicator.py:732-738 | a handoff contacts every primary |
| `Replicator.TakeOverRows` | swift/common/db_replicator.py:1115-1121 | page by page the copy comes to cover every row of the existing database, whatever others write to it meanwhile; if they do not, it is the merge of all its rows |
| `Replicator.RsyncThenMerge` | swift/common/db_replicator.py:1106-1129 | unless a file is missing at either test the copy takes over rows, sync points and metadata and replaces the database, whatever others write to it meanwhile; no row is lost if and only if the copy covers those that came after the last page, no metadata if and only if none newer came after it was read |
| `Replicator.TakeOverWindowLoses` | swift/common/db_replicator.py:1120-1128 | a container that comes after the last page is lost |
| `Replicator.RemoteMergeIsNewest` | swift/common/db_replicator.py:1115-1120 | the result has the names of both databases with the newest timestamps of both |
| `Replicator.RecordedPointSoundIff` | swift/common/db_replicator.py:1122-1124 | the sender's recorded point lies within its rows if and only if the existing database had none; otherwise it is too high by their number |
| `Replicator.RecordedPointHidesRows` | swift/common/db_replicator.py:493-496 | the sender then finds itself in sync for exactly that many further records |
| `Replicator.RecordedPointHoldsIff` | swift/common/db_replicator.py:493-496 | whatever the sender takes next, the point holds if and only if the receiver covers those of that many records whose names do not come again |
| `Replicator.RecordedPointLosesRow` | swift/common/db_replicator.py:493-496 | so a container neither database knew is hidden if it comes next |
| `Replicator.ExchangeMetadata` | swift/common/db_replicator.py:1055-1057 | after a sync exchange each side has the newest values of both, and they are equal if and only if there was no conflict |
| `Usync.BatchArrives` | swift/common/db_replicator.py:446-454 | a batch that arrives extends a sound point to its last row |
| `Usync.PushBatch` | swift/common/db_replicator.py:446-451 | a batch sent, while others write to the peer, leaves every point sound and reaches its last row on success |
| `Usync.PushRows` | swift/common/db_replicator.py:443-455 | so does the loop, while others write to both databases; it stops with the first lost batch, at the end or at the cap |
| `Usync.ExchangeSyncs` | swift/common/db_replicator.py:471-478 | the captured sync table is adopted by the peer and the point reached is recorded only on success; points stay sound |
| `Usync.UsyncDb` | swift/common/db_replicator.py:424-479 | whatever is lost and whatever others write to both databases meanwhile, points stay sound on both sides, adopted points of third databases too; success means the peer has adopted them and covers the table as last read; if all goes smoothly the peer is per_diff * max_diffs rows further |
| `Usync.Passes` | swift/common/db_replicator.py:446-479 | the number of passes is the row count divided by the cap, rounded up |
| `Usync.CatchUp` | swift/common/db_replicator.py:424-479 | a reachable peer catches up with a quiet database in exactly that many passes |
| `StaleRequests.StaleBatchSoundIff` | swift/common/db_replicator.py:1081-1083 | a batch that reaches any database, however its source has grown, leaves a sound point if and only if that database with the batch covers the source's rows up to where the batch began |
| `StaleRequests.StaleBatchOverclaims` | swift/common/db_replicator.py:1081-1083 | two steps, create and deliver: at a new database a batch that skips a row leaves a point above a row it lacks |
| `StaleRequests.StaleSyncsSoundIff` | swift/common/db_replicator.py:1077-1079 | an adopted sync table leaves sound points at any database if and only if it covers what they claim |
| `StaleRequests.StaleSyncsOverclaim` | swift/common/db_replicator.py:1077-1079 | two steps, create and deliver: at a new database an adopted point that reaches a row is one that does not hold |
| `UnsoundRun.SyncPointsCanBeUnsound` | swift/common/db_replicator.py:1081-1096 | a run from the empty system, of a configuration without hash collisions, that ends with an unsound point |
| `Losses.DeletionKeepsRowsIff` | swift/common/db_replicator.py:618-641 | a deletion keeps every row if and only if other databases cover each it takes away |
| `Losses.LateRowsDecide` | swift/common/db_replicator.py:618-641 | in a run whose deliveries fit: if and only if they cover those that came since the pass began, or all if no other database that answered the pass still exists |
| `Losses.CarefulDeletion` | swift/common/db_replicator.py:618-641 | a deletion of the database the pass is about, without rows that came since, by enough answers, keeps every row |
| `Losses.KeptRowsAreEnough` | swift/common/db_replicator.py:618-641 | keeping the rows keeps every record ever committed |
| `Windows.DeletionWindowLoses` | swift/common/db_replicator.py:618-641 | decide, commit, delete: the record is lost unless another database has it |
| `Windows.SuccessorWindowLoses` | swift/common/db_replicator.py:618-641 | create, commit, delete: a pass that still means to delete removes the successor of its database |
| `Losses.RenameKeepsRowsIff` | swift/common/db_replicator.py:1089-1095 | a rename keeps every row if and only if the copy or another database covers what it replaces |
| `Placement.StepKeepsSane` | swift/common/db_replicator.py:1022-1096 | whatever is delivered where, each node keeps a database of its own, tables stay valid, and only deletions and renames take a database away |
| `Losses.StepKeepsRowsIff` | swift/common/db_replicator.py:618-641 | a step keeps every row if and only if it is no deletion or rename that takes one away for good |
| `Losses.RowsKeptIff` | swift/common/db_replicator.py:618-641 | and so over any run |
| `Losses.CarefulRunsKeepRows` | swift/common/db_replicator.py:604-644 | no row is taken away for good in a run whose deliveries fit and whose deletions and renames meet what their tests found |
| `Windows.RenameWindowLoses` | swift/common/db_replicator.py:1089-1095 | test, create, commit, rename: the record is lost |
| `Windows.SelfAnswerRemoves` | swift/common/db_replicator.py:629-632 | with `handoff_delete` at 1 a handoff that is its own further peer is removed on its own word |
| `ReplicationSteps.CreateKeepsInv` | swift/account/backend.py:59-72 | a new database on a node without one keeps the invariant, whatever is still in transit there |
| `ReplicationSteps.LocalMergeKeepsInv` | swift/account/backend.py:506-561 | a put keeps it |
| `ReplicationSteps.HandleSyncKeepsInv` | swift/common/db_replicator.py:1035-1075 | answering a sync request keeps it, including the point adopted on a hash match |
| `ReplicationSteps.HandleItemsKeepsInv` | swift/common/db_replicator.py:1081-1083 | merging a batch that fits keeps it, however late or often it arrives |
| `ReplicationSteps.HandleSyncsKeepsInv` | swift/common/db_replicator.py:1077-1079 | adopting a sync table that fits keeps it |
| `ReplicationSteps.OwnRequestFits` | swift/common/db_replicator.py:1077-1083 | a request that reaches the database it was meant for always fits |
| `ReplicationSteps.TestRsyncKeepsInv` | swift/common/db_replicator.py:1085-1092 | finding no database in the way of a copied file keeps it |
| `ReplicationSteps.RenameKeepsInv` | swift/common/db_replicator.py:1093-1096 | renaming the copied file over whatever is there keeps it, for any set of primaries whose databases are not replaced |
| `ReplicationSteps.BatchExtendsClaim` | swift/common/db_replicator.py:451-454 | a delivered batch extends a claim from its lower to its upper end |
| `ReplicationPasses.StartKeepsInv` | swift/common/db_replicator.py:659-739 | starting a pass keeps the invariant |
| `ReplicationPasses.ContactKeepsInv` | swift/common/db_replicator.py:526-549 | sending a sync request keeps it |
| `ReplicationPasses.OnSyncRespKeepsInv` | swift/common/db_replicator.py:559-594 | acting on the answer keeps it: nothing to do, hash match, or pushing rows from the higher point |
| `ReplicationPasses.OnMissingKeepsInv` | swift/common/db_replicator.py:553-557 | starting to copy the file to a peer without one keeps it |
| `ReplicationPasses.QueryKeepsInv` | swift/common/db_replicator.py:443-479 | reading the next batch, or ending the push, keeps it |
| `ReplicationPasses.OnSyncsAckKeepsInv` | swift/common/db_replicator.py:474-478 | recording the outgoing point keeps it |
| `ReplicationPasses.NotMountedKeepsInv` | swift/common/db_replicator.py:757-760 | going on to a handoff after an unmounted drive keeps it |
| `ReplicationPasses.CaughtUp` | swift/common/db_replicator.py:464-473 | when no rows are left above the point the peer covers the table, and each captured third-party point holds of the peer |
| `ReplicationPasses.DecideKeepsInv` | swift/common/db_replicator.py:618-635 | deciding to delete keeps it |
| `ReplicationPasses.DeleteKeepsInv` | swift/common/db_replicator.py:798-803 | deleting whatever is there keeps it |
| `ReplicationPasses.AnswerIsCovered` | swift/common/db_replicator.py:604-644 | a database that answered with success covers, as long as it exists, all rows the pass set out with, and all rows if none came since |
| `ReplicationPasses.DefaultAsksAll` | swift/common/db_replicator.py:633 | without `handoff_delete` every primary has succeeded |
| `ReplicationPasses.ApprovalNeedsPrimaryIff` | swift/common/db_replicator.py:629-633 | approval implies a success by a primary if and only if all must succeed or more successes are asked for than handoffs were contacted |
| `ReplicationPasses.EnoughAsksOne` | swift/common/db_replicator.py:629-632 | so some primary has succeeded with every pass that may delete |
| `ReplicationRuns.StepKeepsInv` | swift/common/db_replicator.py:424-644 | every step of the protocol keeps the invariant, given that a request which reaches another database than its own fits that one |
| `ReplicationRuns.RunKeepsInv` | swift/common/db_replicator.py:424-644 | it holds in every state of every run in which such deliveries fit |
| `ReplicationRuns.SyncPointsAreSound` | swift/common/db_replicator.py:424-503 | in every state of every such run, an incoming or outgoing sync point claims no more than the receiver covers |
| `ReplicationRuns.SyncPointsSoundIff` | swift/common/db_replicator.py:424-503 | in any run all points are sound in all states if and only if all such deliveries fit |
| `Placement.UndisturbedPointsAreSound` | swift/common/db_replicator.py:424-503 | in every run that takes no database away all points are sound, with no condition on what is lost, late or repeated |
| `ReplicationRuns.AdoptedSyncPointsAreSound` | swift/common/db_replicator.py:443-478 | in every run whose deliveries fit, a third party's point in a merge_syncs request is sound for the database it was sent to for as long as that exists |
| `ReplicationRuns.HandoffRemovalIsSafe` | swift/common/db_replicator.py:604-644 | in every run whose deliveries fit, a handoff goes only by a deletion, which finds each primary (with `handoff_delete`, each that succeeded) whose database was not replaced by a copy covering the rows its pass set out with, and all rows if none came since |
| `ReplicationHistory.NothingIsLost` | swift/common/db_replicator.py:604-644 | in every state of every run without a step that takes a row away for good, each record ever committed is covered by some database |
| `ReplicationHistory.CarefulRunsLoseNothing` | swift/common/db_replicator.py:604-644 | and so if deliveries fit and deletions and renames meet what their tests found |
| `ReplicationHistory.NothingIsInvented` | swift/account/backend.py:515-561 | every timestamp in every table and request was written under that name |
| `ReplicationHistory.InSyncCovers` | swift/common/db_replicator.py:493-503 | being judged in sync on fresh snapshots means the peer covers every row |
| `ReplicationHistory.InSyncPairAgrees` | swift/common/db_replicator.py:493-503 | while points are sound, two databases judged in sync both ways hold the same names and timestamps |
| `ReplicationHistory.FittingPairAgrees` | swift/common/db_replicator.py:493-503 | and so in every state of a run whose deliveries fit |
| `ReplicationHistory.Convergence` | swift/common/db_replicator.py:493-503 | while points are sound and no row was taken away for good, if all pairs are judged in sync, each database holds exactly the newest timestamps ever written |
| `ReplicationHistory.UndisturbedIsOrderly` | swift/common/db_replicator.py:604-644 | in a run that takes no database away deliveries fit, and deletions and renames meet what their tests found |
| `ReplicationHistory.OrderlyRunsConverge` | swift/common/db_replicator.py:493-503 | in a run of which that is true, if all pairs are judged in sync, each database holds exactly the newest timestamps ever written |
| `Relinker.Location.RelinkPaths` | swift/obj/diskfile.py:489-540 | a link is made, found in place, not needed because the old file is gone, or collides; a failure changes nothing |
| `Relinker.Location.Quarantine` | swift/obj/diskfile.py:334-366 | the whole directory moves away |
| `Relinker.Location.DoRelink` | swift/cli/relinker.py:398-494 | success means the name is in the new directory, as the same file or a tolerated one; at most one quarantine and one retry |
| `Relinker.Location.LinkAll` | swift/cli/relinker.py:540-571 | the loop quarantines at most once, if and only if a required link must be clobbered, and counts every missing link |
| `Relinker.Location.RemoveAll` | swift/cli/relinker.py:586-605 | old files only disappear, unchanged, and removals are counted |
| `Relinker.Location.ProcessLocation` | swift/cli/relinker.py:496-605 | in cleanup a file is removed only when every required name is in the new directory; outside it a required name is missing from both if and only if a clobbered directory held the only one |
| `Relinker.ClobberLosesFile` | swift/cli/relinker.py:459-471 | a required file that only the new directory had is in neither afterwards, at literal directories |
| `RelinkRuns.SortDescending` | swift/cli/relinker.py:278 | the partitions in strictly descending order |
| `RelinkRuns.RestrictDescends` | swift/cli/relinker.py:283-285 | restricting to configured partitions keeps the order |
| `RelinkRuns.Device.LoadState` | swift/cli/relinker.py:191-212 | the saved state is used if and only if both part powers match; otherwise work starts afresh, and an earlier part power is remembered for this and later devices |
| `RelinkRuns.Device.Offer` | swift/cli/relinker.py:233-287 | exactly the configured partitions not marked done are offered |
| `RelinkRuns.Device.Run` | swift/cli/relinker.py:184-379 | through any interruptions a partition of the first run is marked only if some run finished it without error, and every other one is offered again |

## Left out

- AccountBroker.Broker.MergeRecord: does not model NULL columns of a record (swift/account/backend.py:537-539); `put_container` never writes one, and without an old row to fill it from it would make the totals NULL; filling one would only add easy members.
- `rsync_then_merge` as a step of the runs: there a pass that would choose it answers with a failure, because the point it records is not sound (`Replicator.RecordedPointSoundIff`).
- Reclaiming inside replication runs: removing a tombstone removes coverage, and the system relies on the reclaim age instead.
- The removal of a whole database that is reclaimable (swift/common/db_replicator.py:717-721), and a database found on the wrong partition, which is replicated out and removed (swift/common/db_replicator.py:687-697).
- Agreement of object counts, bytes and policy between replicas: the last arrival wins by design.
- Records still in the pending file of a handoff when it is deleted: only committed rows count there.
- Other writers between the pages of a reclaim, and object servers changing a hash directory while it is relinked.
- A missing database file or pending file, and the error raised for them; a pending file that does not exist counts as empty.
- Schema migrations, `validate_metadata`, metadata and sync-point reclaiming, `merge_timestamps`, account status.
- A prefix or delimiter that ends in U+10FFFF or U+D7FF: the successor the code computes does not exist, or cannot be encoded for a query, and an error is raised.
- Suffix hashes, recon data, statistics other than errors and removed files, and the removal of empty partition directories in the relinker; `cleanup_ondisk_files` and `get_ondisk_files` are arbitrary functions of the file names.
- Containers, objects, shards, rings, proxies and middleware.
- SQLite itself, locks, connections, HTTP and JSON, rsync processes, quarantine of databases, logging.
