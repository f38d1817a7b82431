# Verified core of the UNC coordinator

A Dafny model of the parts of the UNC coordinator whose correctness rests on reasoning across several
operations, and proofs of what those parts are for:

* **Change tracking in the DAL** (`DirtyCache.dfy`, `ChangeTracking.dfy`, `OdbcManager.dfy`, `Store.dfy`,
  `StoreEnd.dfy`, `StoreRuns.dfy`, `StoreLimits.dfy`, `PlainStore.dfy`, `Transaction.dfy`). The DAL never compares
  CANDIDATE with RUNNING. It keeps create and update flags on candidate rows, the shadow table CANDIDATE_DEL and dirty
  marks per table and operation, in memory and in two database tables; commit and abort skip what is not marked. The
  proofs show that all of this together is the difference of the two configurations on every run, in all modes mixed,
  that abort and commit are exact although they skip, that the whole store does what two plain configurations without
  tracking do, and exactly where the marks fall short.
* **The write-exclusion lock on RUNNING** (`RunningLock.dfy`, `QueryRecogniser.dfy`), as single lock, unlock, test and
  assignment steps of any number of threads.
* **Cluster state events** (`ClusterEvent.dfy`, `CleventThread.dfy`, `SessionList.dfy`): raise, sentinel and shutdown, the
  background CLEVENT thread, and the list of cancellable sessions, with one step per critical section.
* **Column binding** (`BindList.dfy`, `BufferCopy.dfy`): the role of each entry, the counters, the numbering of
  parameters, and the copies between application and DAL buffers.
* **Controller capabilities and versions** (`Capability.dfy`, `Version.dfy`): inheritance along the parent chain, and
  acceptance of an actual version.

`Common.dfy` holds the option and byte types. To verify: `dafny verify dfyconfig.toml`.

## How the model reads the source

* A table is three maps from primary key to row: RUNNING, CANDIDATE with its two flags, CANDIDATE_DEL. A row's
  controller and domain columns (`ext`) are not part of the primary key, but CheckInstance matches them too. The meaning
  of each statement is that of its template in `coordinator/modules/dal/dal_query_builder.cc`.
* `DirtyCache` states every dirty-table operation as a function on values; the class `OdbcManager.DalOdbcMgr` has the
  fields of the source's class and its methods are proved to compute those functions. Whether a database write succeeds
  is a parameter where the code reacts to a failure.
* `ChangeTracking` sees one table in one mode: the mode's rows and its three answers of IsTblDirty. Its two invariants
  are *tracked* (the flags, CANDIDATE_DEL and marks are the difference, with records identified by key, controller and
  domain) and the weaker *accounted for* (every change is recorded so that commit and abort are exact), which updates
  of any column outside the primary key keep.
* `ConfigStore`, in `Store.dfy`, has all tables and the dirty state together and derives the answers from the dirty
  sets; `own` gives the VTN of a key, and VTN mode works on the rows of one VTN. `StoreEnd` ends transactions,
  `StoreRuns` has the run theorems, `StoreLimits` the runs in which marks are missing, `PlainStore` the refinement to
  plain configurations, and `Transaction` drives the manager object through a whole commit or abort.
* Protocols are state machines: a state, a set of actions, `Can` and `Do`, and runs as sequences of actions. Timeouts,
  spurious wakeups, failed posts and failed thread creation are actions or parameters of actions.

## Where the code and its promises differ

For each of these there is an exact condition, for all inputs or states, and an input or a run that fails.

* A VTN-mode clear drops the overflow flag as soon as the cache has room, even if rows of other VTNs are only in the
  database (`VtnClearKeepsAnswersIff`, `VtnClearCanLoseAnswers`).
* The comment on the VTN lookup speaks of cache and database; without a VTN name the code never reads the database
  (`GlobalModeMissesOverflowedTables`, `GlobalModeCanMiss`). It does not matter while every operation has fewer dirty
  pairs than the caches hold (`ModesAgreeOnSmallRuns`). What it does to the rows: each VTN's difference stays right
  (`EditKeepsAllIff`, `EveryRunIsTracked`), and a global commit or abort is right exactly if the marks that are visible
  cover its changes (`GlobalCommitWorksIff`, `GlobalAbortWorksIff`); a run that loses an update: `HiddenPairSkipsCommit`.
* In VTN mode a create marks update only when its own pair was newly written and the delete pair is cached
  (`VtnRecreateMarksUpdateIff`, `VtnRecreateCanMissUpdate`); a global-mode create does not see a VTN's delete pair
  (`CrossModeRecreateMarksUpdateIff`). What this does to the rows: `EditInModeKeepsIff`, `EditKeepsAllIff`. A record
  deleted in VTN mode and created again in global mode is committed rightly exactly if it comes back unchanged or with
  another controller or domain, and aborted rightly exactly if it comes back unchanged (`CrossModeCommitIff`,
  `CrossModeAbortIff`).
* A delete whose WHERE clause tells the running and the candidate version of a record apart saves the wrong rows
  (`DeleteKeepsIff`, `DeleteIsUndoableIff`, `ValuePredicateBreaksTracking`, `DeleteCanLoseARow`).
* An update that moves a record to another controller or domain is reported as an update, although the record is
  identified by them elsewhere (`UpdateKeepsTrackedIff`, `ControllerUpdateBreaksTracking`). Commit and abort stay exact
  (`UpdateKeepsAccounted`, `ExactEndOnEveryRun`).
* The interface documents a delete without a match as a delete of all records. On CANDIDATE, without truncation, it
  deletes them, saves nothing and returns an error, for every table (`DeleteAllCannotBeUndone`).
* The interface says that BindInput is ignored by queries that only match. It shifts the numbers of the match parameters
  (`WhereIsAlignedIff`, `InputShiftsMatch`, `InputShiftsMatchHappens`).
* A bind can be refused after its role was given; counters, and with them INSERT statements, are then wrong, and an
  UPDATE all of whose inputs were so refused is not built (`LateIff`, `CountersFromEmptyIff`, `InsertIsWellFormedIff`,
  `UpdateIsRefusedIff`, `LateRefusalMiscounts`).
* A second role on an entry is checked against the column with its own application type and then copied with that of the
  first role. The copy stays inside the second caller's array exactly if the first type is no wider or the column is
  binary (`ArrayIsCoveredIff`, `SecondRoleCanOverrun`).
* The comment on the copy into a wider column calls it safe. One number keeps its value exactly if the host is
  little-endian, the widths agree or it is 0 (`WideningKeepsValueIff`).
* Parameter numbers are 16 bits wide and wrap: they run from 1 without a gap exactly up to 65535 parameters
  (`BindToQuery`, `NumberedFromOneIff`).
* Threads that share a connection can break the exclusion on RUNNING (`ExclusionBreaksIff`, `SharingBreaksExclusion`), and
  the thread that unlocks RUNNING is always the one that locked it exactly if no enabled connection is shared
  (`LockerUnlocksIff`, `SharingUnlocksForAnother`).
* clstat_raise can report ETIMEDOUT for a delivered event (`ResultIsRightIff`, `DeliveredRaiseCanTimeOut`), and a signal
  can leave a caller asleep (`StrandsIff`, `SignalCanWakeTheWrongRaise`); neither happens with one raise at a time
  (`OneAtATimeIsExact`).
* clstat_ipclist_fini can report ETIMEDOUT for a list that has drained (`DrainedTimeoutIff`, `DrainedListCanTimeOut`);
  clst_ipc_fini then joins no thread. A thread that has exited is detached or joined exactly if it exited before
  finalisation began, or the list drained and the timed join succeeded (`HandleIsReleasedIff`,
  `ThreadCanBeLeftUnjoined`).
* The guard of SetAttrCap lets through an index one past the arrays (`GuardMissesIff`); its only caller stays below it.
* A version count that exceeds the configured array silently adds 0.0.0.0, which accepts every version (`CountFitsIff`),
  and a count of 0 is accepted although GetSupportedVersion is then undefined (`LoadActualVersion`,
  `GetSupportedVersion`).

Latent, since no column of the schema that is bound again is a binary of 2 or 8 bytes: binding a DAL buffer as if it were
the application's would swap a 16- or 64-bit value in such a column back (`RebindingIsFaithfulIff`, `RebindingCanSwap`);
for all other columns it is faithful (`RebindingIsFaithful`).

Latent too, since one event type is defined (`coordinator/include/unc/clstat_types.h:28-40`): an event of a type the
sentinel does not listen to would be lost and leave BUSY set for good; short of a shutdown that can happen exactly if
some call raises such a type (`EventCanBeLostIff`, `LostEventIsReachable`, `LostEventBlocksForever`).

## Model

| member | source | states |
|---|---|---|
| `DirtyCache.GlobalCacheEqualsDb` | coordinator/modules/dal/dal_odbc_mgr.cc:3809-3869 | on every run of marks, clears and reloads, failed writes included, the global cache equals its database table |
| `DirtyCache.RecreateMarksUpdate` | coordinator/modules/dal/dal_odbc_mgr.cc:3829-3853 | a create mark on a delete-dirty table succeeds exactly if it leaves the table create-, update- and delete-dirty |
| `DirtyCache.ClearOneIsExact` | coordinator/modules/dal/dal_odbc_mgr.cc:4521-4560 | clearing one mark clears that mark alone, in cache and table together, or changes nothing |
| `DirtyCache.SyncIffAnswers` | coordinator/modules/dal/dal_odbc_mgr.cc:4121-4212 | every VTN-mode lookup answers like the database exactly if the cache is a subset of the table and a strict one only with the overflow flag up |
| `DirtyCache.VtnClearKeepsAnswersIff` | coordinator/modules/dal/dal_odbc_mgr.cc:4674-4700 | exactly when a VTN-mode clear keeps all VTN-mode answers equal to the database |
| `DirtyCache.ClearBeforeOverflowIsSafe` | coordinator/modules/dal/dal_odbc_mgr.cc:4691-4700 | with no overflow flag up, a VTN-mode clear is safe |
| `DirtyCache.VtnClearCanLoseAnswers` | coordinator/modules/dal/dal_odbc_mgr.cc:4691-4700 | two marks and a clear from a fresh manager, after which another VTN's dirty pair is denied |
| `DirtyCache.MarkPairKeepsSync` | coordinator/modules/dal/dal_odbc_mgr.cc:3883-3939 | a successful VTN mark adds exactly its pair to the table and keeps cache, table and flag in agreement |
| `DirtyCache.DoKeepsVtnSync` | coordinator/modules/dal/dal_odbc_mgr.cc:3873-3958 | every call on the manager keeps that agreement, if VTN clears are safe |
| `DirtyCache.OverflowedCacheAnswersLikeDb` | coordinator/modules/dal/dal_odbc_mgr.cc:4121-4254 | on every run whose VTN clears are safe, an overflowing cache still answers like the database |
| `DirtyCache.AllModesAgreeWithoutOverflow` | coordinator/modules/dal/dal_odbc_mgr.cc:4016-4117 | on every run in which no overflow flag goes up, IsTblDirty in global, virtual and VTN mode is the plain predicate over the two database tables |
| `DirtyCache.SmallRunsAreQuiet` | coordinator/modules/dal/dal_odbc_mgr.cc:3883-3917 | while every operation has fewer dirty pairs than the caches hold, no overflow flag goes up |
| `DirtyCache.ModesAgreeOnSmallRuns` | coordinator/modules/dal/dal_odbc_mgr.cc:4016-4117 | so all modes agree with the database on such runs |
| `DirtyCache.VtnClearIsExact` | coordinator/modules/dal/dal_odbc_mgr.cc:4664-4706 | clearing a VTN removes all and only its pairs and changes no other VTN's answer and no global mark |
| `DirtyCache.FailedWriteIsReported` | coordinator/modules/dal/dal_odbc_mgr.cc:3809-3958 | a mark whose write fails adds no row and is reported unless the row was there, the second write of a recreation included; one that succeeds leaves its row |
| `DirtyCache.OverflowIff` | coordinator/modules/dal/dal_odbc_mgr.cc:3883-3917 | a VTN mark raises the overflow flag of its own operation alone, exactly if its pair is new and the cache is full |
| `DirtyCache.CapOnEveryRun` | coordinator/modules/dal/dal_odbc_mgr.cc:3883-3917 | on every run without a reload no VTN cache outgrows its limit |
| `DirtyCache.ReloadAnswersLikeDb` | coordinator/modules/dal/dal_odbc_mgr.cc:4314-4420 | after a reload every lookup in every mode answers like the database; no row and no overflow flag changes |
| `DirtyCache.GlobalModeMissesOverflowedTables` | coordinator/modules/dal/dal_odbc_mgr.cc:4144-4202 | global mode disagrees with the database exactly for tables all of whose pairs overflowed |
| `DirtyCache.GlobalModeCanMiss` | coordinator/modules/dal/dal_odbc_mgr.cc:4144-4202 | a run of two marks that reaches such a state |
| `DirtyCache.VtnRecreateMarksUpdateIff` | coordinator/modules/dal/dal_odbc_mgr.cc:3935-3955 | exactly when a VTN-mode create leaves a delete-dirty pair update-dirty |
| `DirtyCache.VtnRecreateCanMissUpdate` | coordinator/modules/dal/dal_odbc_mgr.cc:3935-3955 | create, delete, create leaves the pair delete-dirty and update-clean, for every cache size |
| `DirtyCache.CrossModeRecreateMarksUpdateIff` | coordinator/modules/dal/dal_odbc_mgr.cc:3829-3853 | exactly when a global-mode create leaves a table that answers delete-dirty update-dirty |
| `ChangeTracking.KeptMeans` | coordinator/modules/dal/dal_odbc_mgr.cc:953-1490 | tracked is accounted for with exact create flags, and whatever is accounted for can be recovered |
| `ChangeTracking.MoreDirtIsHarmless` | coordinator/modules/dal/dal_odbc_mgr.cc:2305-2330 | what tracking needs of the dirty marks is monotone |
| `ChangeTracking.CreateKeeps` | coordinator/modules/dal/dal_odbc_mgr.cc:1203-1394 | a creation whose update mark is not missed keeps the record of changes right, and its cleanup delete finds its row |
| `ChangeTracking.CreateKeepsIff` | coordinator/modules/dal/dal_odbc_mgr.cc:1262-1293 | exactly when a creation does so: it brings no deleted record back, or its mark or an older one says update |
| `ChangeTracking.UpdateKeepsAccounted` | coordinator/modules/dal/dal_odbc_mgr.cc:1397-1490 | whatever columns outside the primary key an update sets, every change stays accounted for |
| `ChangeTracking.UpdateKeepsTrackedIff` | coordinator/modules/dal/dal_odbc_mgr.cc:1397-1490 | exactly when an update keeps the difference exact: it changes the identity of no record it hits |
| `ChangeTracking.ControllerUpdateBreaksTracking` | coordinator/modules/dal/dal_odbc_mgr.cc:1397-1490 | an update of a controller column after which the difference is not the real one |
| `ChangeTracking.KeyPredicateNeverStraddles` | coordinator/modules/dal/dal_odbc_mgr.cc:1055-1079 | a WHERE clause on the primary key, and while tracked one on the identity columns, matches no record in one configuration only |
| `ChangeTracking.DeleteNeverCollides` | coordinator/modules/dal/dal_odbc_mgr.cc:1047-1081 | the delete-then-copy into CANDIDATE_DEL meets no duplicate key and is never skipped, whatever was deleted before |
| `ChangeTracking.DeleteKeepsIff` | coordinator/modules/dal/dal_odbc_mgr.cc:953-1084 | exactly when a delete keeps the record of changes right |
| `ChangeTracking.DeleteIsUndoableIff` | coordinator/modules/dal/dal_odbc_mgr.cc:1055-1079 | exactly when a delete can still be undone by an abort |
| `ChangeTracking.ValuePredicateBreaksTracking` | coordinator/modules/dal/dal_odbc_mgr.cc:1055-1079 | an update and a delete by value after which the difference is wrong |
| `ChangeTracking.DeleteCanLoseARow` | coordinator/modules/dal/dal_odbc_mgr.cc:1055-1079 | an update and a delete by the new value after which the row of RUNNING is saved nowhere |
| `ChangeTracking.DeleteAllCannotBeUndone` | coordinator/modules/dal/dal_odbc_mgr.cc:2478-2560 | a delete of everything without truncation fails with the rows gone, and can be undone exactly if RUNNING is empty |
| `ChangeTracking.CopyStepWorks` | coordinator/modules/dal/dal_odbc_mgr.cc:2305-2330 | each abort step, run or skipped, does its part, undoes no other part and keeps the rest recoverable |
| `ChangeTracking.CopyStepsWork` | coordinator/modules/dal/dal_odbc_mgr.cc:2332-2467 | any sequence of abort steps achieves what each of its steps is for, whatever its marks add |
| `ChangeTracking.AbortIsExact` | coordinator/modules/upll/tx_mgr.cc:1258-1300 | abort, with its steps in any order and with every skip, ends with CANDIDATE equal to RUNNING and everything clean |
| `ChangeTracking.FinishCleans` | coordinator/modules/dal/dal_odbc_mgr.cc:1702-1811 | clearing flags, CANDIDATE_DEL and marks, each skipped when clean, leaves nothing behind |
| `ChangeTracking.CommitCopiesCandidate` | coordinator/modules/dal/dal_odbc_mgr.cc:1571-1699 | the reported deleted, created and updated records, applied to RUNNING, give CANDIDATE |
| `ChangeTracking.CommitMeetsNoConflict` | coordinator/modules/upll/momgr_impl.cc:2060-2120 | no insert of a commit meets a duplicate key and no update or delete misses its row |
| `ChangeTracking.CommitIsExact` | coordinator/modules/upll/tx_mgr.cc:643-690 | commit makes RUNNING equal to CANDIDATE and leaves everything clean |
| `ChangeTracking.CommitWorksIff` | coordinator/modules/dal/dal_odbc_mgr.cc:1571-1699 | with every change recorded and any of the dirty marks missing, exactly when the writes of a commit succeed and make RUNNING equal to CANDIDATE |
| `ChangeTracking.AbortWorksIff` | coordinator/modules/dal/dal_odbc_mgr.cc:2305-2330 | likewise exactly when an abort in the transaction manager's order restores CANDIDATE, its own marks counted |
| `ChangeTracking.EditKeepsIff` | coordinator/modules/dal/dal_odbc_mgr.cc:953-1490 | an edit keeps the difference exact, or every change accounted for, if and only if its condition holds |
| `ChangeTracking.TrackedOnEveryRun` | coordinator/modules/dal/dal_odbc_mgr.cc:953-1490 | on every run of edits, aborts and commits the flags, CANDIDATE_DEL and dirty bits are the real difference |
| `ChangeTracking.ExactEndOnEveryRun` | coordinator/modules/upll/tx_mgr.cc:1258-1300 | on every run, with updates of any column outside the primary key, the next commit and the next abort are exact |
| `OdbcManager.DalOdbcMgr.constructor` | coordinator/modules/dal/dal_odbc_mgr.cc:45-57 | a new manager has empty caches and no overflow flag up; the database is what it was |
| `OdbcManager.DalOdbcMgr.IsTblInGlobalDirty` | coordinator/modules/dal/dal_odbc_mgr.cc:4085-4117 | success exactly for a table in the operation's global set |
| `OdbcManager.DalOdbcMgr.FindTable` | coordinator/modules/dal/dal_odbc_mgr.cc:4144-4202 | the walk over a VTN cache finds a table exactly if some pair has it |
| `OdbcManager.DalOdbcMgr.IsTblInVtnDirty` | coordinator/modules/dal/dal_odbc_mgr.cc:4121-4212 | cache, then database after an overflow; any pair of the table without a VTN name |
| `OdbcManager.DalOdbcMgr.IsTblDirty` | coordinator/modules/dal/dal_odbc_mgr.cc:4016-4081 | answers as the lookup function of its mode |
| `OdbcManager.DalOdbcMgr.SetCfgTblDirtyInDB` | coordinator/modules/dal/dal_odbc_mgr.cc:3532-3591 | one row of the global dirty table is set or reset; a bad index or a failed write changes nothing |
| `OdbcManager.DalOdbcMgr.SetTableDirtyForGblAndVirMode` | coordinator/modules/dal/dal_odbc_mgr.cc:3809-3869 | the whole dirty state and the result are those of the global mark, for every pattern of failing writes |
| `OdbcManager.DalOdbcMgr.InsertPair` | coordinator/modules/dal/dal_odbc_mgr.cc:3883-3917 | the cache half of a VTN mark: known, cached, or overflowed |
| `OdbcManager.DalOdbcMgr.SetPairDirty` | coordinator/modules/dal/dal_odbc_mgr.cc:3883-3939 | one pass of the VTN mark with cap, overflow flag and database fallback |
| `OdbcManager.DalOdbcMgr.SetTableDirtyForVtnMode` | coordinator/modules/dal/dal_odbc_mgr.cc:3873-3958 | the whole dirty state and the result are those of the VTN mark |
| `OdbcManager.DalOdbcMgr.SetTableDirty` | coordinator/modules/dal/dal_odbc_mgr.cc:3491-3528 | the same in each mode |
| `OdbcManager.DalOdbcMgr.ErasePairs` | coordinator/modules/dal/dal_odbc_mgr.cc:4676-4690 | the erase loop leaves exactly the other VTNs' pairs |
| `OdbcManager.DalOdbcMgr.ClearDirtyTblCacheInVtnMode` | coordinator/modules/dal/dal_odbc_mgr.cc:4674-4700 | the caches and flags after a VTN-mode clear |
| `OdbcManager.DalOdbcMgr.ClearDirty` | coordinator/modules/dal/dal_odbc_mgr.cc:4664-4745 | caches, flags and both tables after a clear in each mode; in virtual mode nothing changes |
| `OdbcManager.DalOdbcMgr.ClearGlobalDirtyTblCacheAndDB` | coordinator/modules/dal/dal_odbc_mgr.cc:4521-4560 | one mark leaves table and cache together, or neither |
| `OdbcManager.DalOdbcMgr.ReadCursor` | coordinator/modules/dal/dal_odbc_mgr.cc:4353-4372 | the cache holds all records exactly if no read error comes first, and otherwise some of them |
| `OdbcManager.DalOdbcMgr.UpdateDirtyTblCacheFromDB` | coordinator/modules/dal/dal_odbc_mgr.cc:4314-4448 | after a reload the caches are the database tables, with cap and flags not looked at; after a read error they are parts of them |
| `OdbcManager.DalOdbcMgr.StoreAndMark` | coordinator/modules/dal/dal_odbc_mgr.cc:1343-1351 | a statement on CANDIDATE and its mark, which is seen at once if it succeeds |
| `OdbcManager.DalOdbcMgr.CreateRecord` | coordinator/modules/dal/dal_odbc_mgr.cc:1203-1394 | rows, marks and result of a creation on CANDIDATE, recreation and failing mark writes included |
| `OdbcManager.DalOdbcMgr.InsertCandidate` | coordinator/modules/dal/dal_odbc_mgr.cc:1300-1394 | the insert, its mark and the cleanup in CANDIDATE_DEL |
| `OdbcManager.DalOdbcMgr.UpdateRecords` | coordinator/modules/dal/dal_odbc_mgr.cc:1397-1490 | rows, marks and result of an update on CANDIDATE, failing mark writes included |
| `OdbcManager.DalOdbcMgr.DeleteRecords` | coordinator/modules/dal/dal_odbc_mgr.cc:953-1084 | rows, marks and result of a delete on CANDIDATE, failing mark writes included |
| `OdbcManager.DalOdbcMgr.DeleteCandidate` | coordinator/modules/dal/dal_odbc_mgr.cc:1047-1081 | the delete, its mark and the move of the running rows to CANDIDATE_DEL |
| `OdbcManager.DalOdbcMgr.DeleteFromCandidateDel` | coordinator/modules/dal/dal_odbc_mgr.cc:975-986 | matching rows leave CANDIDATE_DEL, or nothing changes when no delete is marked |
| `OdbcManager.DalOdbcMgr.CopyMatchingRecords` | coordinator/modules/dal/dal_odbc_mgr.cc:2478-2560 | matching rows of RUNNING are copied, or none if one is there already |
| `OdbcManager.DalOdbcMgr.RunCopy` | coordinator/modules/dal/dal_odbc_mgr.cc:2332-2430 | the statement of each abort step |
| `OdbcManager.DalOdbcMgr.CopyModifiedRecords` | coordinator/modules/dal/dal_odbc_mgr.cc:2251-2474 | rows, marks and result of one abort step on the mode's rows, skipped when the swapped operation is clean, failing mark writes included |
| `OdbcManager.DalOdbcMgr.ClearCreateUpdateFlags` | coordinator/modules/dal/dal_odbc_mgr.cc:1702-1811 | all flags of the mode's rows are cleared, or nothing changes when neither create nor update is marked |
| `OdbcManager.DalOdbcMgr.GetModifiedRecords` | coordinator/modules/dal/dal_odbc_mgr.cc:1571-2170 | the records that CANDIDATE_DEL or a flag reports among the mode's rows, none when the operation is not marked |
| `OdbcManager.DalOdbcMgr.WriteRunning` | coordinator/modules/upll/momgr_impl.cc:2060-2120 | one record of RUNNING is created, updated or deleted, with the error of a record that is or is not there |
| `OdbcManager.DalOdbcMgr.TruncateCandidateDel` | coordinator/modules/dal/dal_odbc_mgr.cc:975-986 | CANDIDATE_DEL loses the mode's rows, or none when no delete is marked |
| `OdbcManager.MarkIsSeen` | coordinator/modules/dal/dal_odbc_mgr.cc:3491-3528 | a mark that succeeds is seen at once, even past the cap; with working writes it succeeds |
| `OdbcManager.CreateMarkKeepsDelete` | coordinator/modules/dal/dal_odbc_mgr.cc:3829-3853 | a create mark does not touch the answer for delete |
| `ConfigStore.AnswersOf` | coordinator/modules/dal/dal_odbc_mgr.cc:4016-4081 | a VTN-mode answer is the pair's row in the database or a global mark of its table, with or without overflow |
| `ConfigStore.VtnMarkIsLocal` | coordinator/modules/dal/dal_odbc_mgr.cc:3873-3958 | a VTN-mode mark adds its own pair, a create mark under the recreate rule also the update pair, and nothing else |
| `ConfigStore.MarkShows` | coordinator/modules/dal/dal_odbc_mgr.cc:3491-3528 | in every mode a mark changes the three answers of its table as change tracking says |
| `ConfigStore.MarkElsewhere` | coordinator/modules/dal/dal_odbc_mgr.cc:3491-3528 | another VTN's mark, or one of another table, changes no VTN's answer |
| `ConfigStore.MarkKeepsClearSafe` | coordinator/modules/dal/dal_odbc_mgr.cc:4691-4700 | a mark of a VTN does not make the clear of that VTN unsafe |
| `ConfigStore.ClearIsLocal` | coordinator/modules/dal/dal_odbc_mgr.cc:4674-4700 | a safe clear removes the rows of its VTN and no others |
| `ConfigStore.EditIsPutBack` | coordinator/modules/dal/dal_odbc_mgr.cc:953-1490 | an edit whose clause matches only the mode's rows is that edit on those rows, put back into the table |
| `ConfigStore.EditShows` | coordinator/modules/dal/dal_odbc_mgr.cc:953-1490 | in its own mode an edit shows exactly what change tracking says, whatever is marked otherwise |
| `ConfigStore.EditElsewhere` | coordinator/modules/dal/dal_odbc_mgr.cc:953-1490 | other VTNs and other tables see nothing of it, neither rows nor answers |
| `StoreEnd.CopyMakesProgress` | coordinator/modules/dal/dal_odbc_mgr.cc:2305-2330 | an abort step with its own marks does its part and undoes nothing in any table, and other VTNs see nothing of it |
| `StoreEnd.CopyRunWorks` | coordinator/modules/upll/tx_mgr.cc:1258-1268 | any sequence of steps over all tables, each seeing the marks of those before it, achieves what each is for |
| `StoreEnd.FinishEnds` | coordinator/modules/upll/tx_mgr.cc:1284-1325 | the clears leave the mode's rows at rest, its marks gone and every other VTN's view as it was |
| `StoreEnd.AbortAllIsExact` | coordinator/modules/upll/tx_mgr.cc:1258-1340 | an abort in global or VTN mode restores the mode's rows from RUNNING in every table |
| `StoreEnd.CommitAllIsExact` | coordinator/modules/upll/tx_mgr.cc:643-690 | a commit in global or VTN mode makes RUNNING equal to CANDIDATE for the mode's rows in every table |
| `StoreRuns.VtnsMakeLit` | coordinator/modules/dal/dal_odbc_mgr.cc:4016-4117 | what is recorded for every VTN of a table is recorded for the table, whatever global mode sees of the marks |
| `StoreRuns.VtnsMakeGlobalIff` | coordinator/modules/dal/dal_odbc_mgr.cc:4016-4117 | what holds for every VTN of a table holds for the table in global mode if and only if global mode has the marks its changes need |
| `StoreRuns.SeeingCovers` | coordinator/modules/dal/dal_odbc_mgr.cc:4144-4202 | it has them wherever no dirty pair of the table is hidden by an overflow |
| `StoreRuns.NoOverflowIsSeen` | coordinator/modules/dal/dal_odbc_mgr.cc:4144-4202 | as long as no overflow flag is up |
| `StoreRuns.GlobalMarkSeenByVtn` | coordinator/modules/dal/dal_odbc_mgr.cc:4050-4070 | every VTN sees a global mark |
| `StoreRuns.CreateAtIff` | coordinator/modules/dal/dal_odbc_mgr.cc:3829-3853 | exactly when a creation in global or virtual mode is right for the VTN of its key: its update mark is not missed and a returning record is recognised |
| `StoreRuns.GlobalEditKeepsIff` | coordinator/modules/dal/dal_odbc_mgr.cc:953-1490 | an edit in global or virtual mode keeps every VTN of its table right if and only if its condition holds, hidden pairs included |
| `StoreRuns.EditKeepsAllIff` | coordinator/modules/dal/dal_odbc_mgr.cc:953-1490 | an edit in any mode keeps every VTN of every table right if and only if its condition holds, overflow or not |
| `StoreRuns.CallKeepsAll` | coordinator/modules/dal/dal_odbc_mgr.cc:953-1490 | so does every commit and abort, if a VTN's clear is safe or global mode has the marks for all changes |
| `StoreRuns.EveryRunIsTracked` | coordinator/modules/dal/dal_odbc_mgr.cc:953-1951 | on every run that mixes global, virtual and VTN mode, with overflowing caches, the tracked difference of every VTN is the real one, and that of the whole table if and only if global mode has the marks for its changes |
| `StoreRuns.EveryRunEndsExactly` | coordinator/modules/upll/tx_mgr.cc:1258-1340 | on every such run, with updates of any column outside the primary key, the next commit or abort in global or VTN mode is exact |
| `StoreRuns.EditInModeKeepsIff` | coordinator/modules/dal/dal_odbc_mgr.cc:3829-3955 | an edit keeps its own mode right if and only if its condition holds, overflow and marks of other modes included |
| `StoreRuns.EveryTableIsTracked` | coordinator/modules/dal/dal_odbc_mgr.cc:953-1951 | in global mode alone, from any state of the VTN caches, every table is tracked on every run |
| `StoreRuns.GlobalCreateIsFine` | coordinator/modules/dal/dal_odbc_mgr.cc:3829-3853 | without VTN pairs a creation in global mode never misses its update mark |
| `StoreLimits.CleanStoreIsKept` | coordinator/modules/dal/dal_odbc_mgr.cc:45-57 | in a clean store every VTN of every table is tracked, so the runs above start there |
| `StoreLimits.CommitRunIs` | coordinator/modules/upll/tx_mgr.cc:643-690 | RUNNING after a commit in any mode, right or not, is what its reported records make of it |
| `StoreLimits.GlobalCommitWorksIff` | coordinator/modules/upll/tx_mgr.cc:643-690 | on every state the runs reach, exactly when a global commit of a table is right |
| `StoreLimits.GlobalAbortWorksIff` | coordinator/modules/upll/tx_mgr.cc:1258-1340 | on every state the runs reach, and amid the copies of all other tables, exactly when a global abort of a table restores CANDIDATE |
| `StoreLimits.CrossModeCommitIff` | coordinator/modules/dal/dal_odbc_mgr.cc:3829-3853 | in every clean store, after a record is deleted in VTN mode and created again in global mode, the next global commit is right if and only if it came back unchanged or with another controller or domain |
| `StoreLimits.CrossModeAbortIff` | coordinator/modules/dal/dal_odbc_mgr.cc:3829-3853 | and the next global abort, in whatever order, if and only if it came back unchanged |
| `StoreLimits.HiddenPairSkipsCommit` | coordinator/modules/dal/dal_odbc_mgr.cc:4144-4202 | in every clean store with room for one cached pair, updates of two tables in VTN mode after which a global commit leaves the second one out |
| `PlainStore.UpdateSets` | coordinator/modules/dal/dal_odbc_mgr.cc:1397-1490 | a row that an update hits gets the new values, and its update flag unless it is new; every other row stays |
| `PlainStore.CreateAdds` | coordinator/modules/dal/dal_odbc_mgr.cc:1203-1394 | a missing row is added with its values, a row that is there is left alone, and so is every other |
| `PlainStore.DeleteRemoves` | coordinator/modules/dal/dal_odbc_mgr.cc:953-1084 | a row goes exactly if the clause matches it |
| `PlainStore.ResultCodes` | coordinator/modules/dal/dal_odbc_mgr.cc:953-1490 | success, duplicate and not found exactly as the rows of CANDIDATE say |
| `PlainStore.CopyReports` | coordinator/modules/dal/dal_odbc_mgr.cc:2305-2467 | a copy of an abort reports success and marks its operation exactly if it changes CANDIDATE |
| `PlainStore.EditIsPlain` | coordinator/modules/dal/dal_odbc_mgr.cc:953-1490 | an edit does to CANDIDATE what it does to a table without tracking, and leaves RUNNING alone |
| `PlainStore.UnmarkedEditIsPlain` | coordinator/modules/dal/dal_odbc_mgr.cc:1203-1490 | with failing database writes too; a failed mark is reported and leaves CANDIDATE_DEL |
| `PlainStore.UpdateReachesRunning` | coordinator/modules/upll/tx_mgr.cc:643-690 | after an update and a commit RUNNING holds the new values at every key hit and CANDIDATE's elsewhere |
| `PlainStore.CallIsPlain` | coordinator/modules/upll/tx_mgr.cc:643-1340 | every edit, commit and abort in every mode does what it does to two plain configurations, rows outside the mode untouched |
| `PlainStore.EveryRunIsPlain` | coordinator/modules/upll/tx_mgr.cc:643-1340 | refinement: on every run that mixes modes, with overflowing caches, the store holds in every table what two plain configurations hold after the same calls |
| `Transaction.CopyTable` | coordinator/modules/dal/dal_odbc_mgr.cc:2251-2474 | one abort step on the manager object is that step on the store |
| `Transaction.CopyPass` | coordinator/modules/upll/tx_mgr.cc:1258-1268 | the loop over the tables makes the copies of its operation in the given order, each seeing the marks of those before it |
| `Transaction.CopyRunningToCandidate` | coordinator/modules/upll/tx_mgr.cc:1258-1268 | in every state, the deletions in reverse order and then creations and updates in preorder, each copy seeing the marks before it |
| `Transaction.ClearTable` | coordinator/modules/upll/tx_mgr.cc:1284-1297 | flags and CANDIDATE_DEL of one table |
| `Transaction.ClearTables` | coordinator/modules/upll/tx_mgr.cc:1284-1297 | the same for all tables, each skipped when clean |
| `Transaction.ClearAllTables` | coordinator/modules/upll/tx_mgr.cc:1284-1340 | and then the marks in database and cache |
| `Transaction.Abort` | coordinator/modules/upll/tx_mgr.cc:1258-1340 | a whole abort on the manager object in every state; where all changes are recorded it restores the mode's rows in every table, clears its marks and leaves the other VTNs |
| `Transaction.WriteAll` | coordinator/modules/upll/momgr_impl.cc:2060-2120 | the loop over reported records succeeds exactly if all of them fit, and RUNNING then holds them |
| `Transaction.WrittenInMode` | coordinator/modules/upll/momgr_impl.cc:2060-2120 | a mode's records fit the whole of RUNNING as they fit its own part, and change that part alone |
| `Transaction.CommitInThreeSteps` | coordinator/modules/upll/momgr_impl.cc:2060-2120 | deletions, creations and updates make RUNNING what the commit leaves, and fit one after the other where all is accounted for |
| `Transaction.WorksIff` | coordinator/modules/upll/momgr_impl.cc:2060-2120 | with every change recorded, a commit is right exactly if its records fit and make RUNNING what CANDIDATE is |
| `Transaction.CopyOperation` | coordinator/modules/upll/momgr_impl.cc:2060-2120 | one operation of a commit on one table |
| `Transaction.CopyOperations` | coordinator/modules/upll/momgr_impl.cc:2060-2120 | deletions, creations and updates of one table succeed exactly if they fit |
| `Transaction.CopyCandidateToRunning` | coordinator/modules/upll/momgr_impl.cc:2060-2120 | in every state, the writes of one table fail exactly if a record does not fit, and otherwise leave what is reported |
| `Transaction.CopyAllToRunning` | coordinator/modules/upll/momgr_impl.cc:2060-2120 | the pass over all tables succeeds exactly if the records of every table fit |
| `Transaction.Commit` | coordinator/modules/upll/tx_mgr.cc:643-690 | a whole commit on the manager object in every state: it fails exactly if a record does not fit; where all changes are accounted for RUNNING becomes CANDIDATE for the mode's rows, its marks go and the other VTNs stay |
| `QueryRecogniser.SameWord` | coordinator/modules/dal/dal_odbc_mgr.cc:3774-3806 | a case-insensitive word comparison that does not read past the terminator |
| `QueryRecogniser.SkipSpace` | coordinator/modules/dal/dal_odbc_mgr.cc:3774-3806 | the scan stops at the first character that is not white space, or at the terminator |
| `QueryRecogniser.CheckRunnUpdateQuery` | coordinator/modules/dal/dal_odbc_mgr.cc:3774-3806 | true exactly for optional white space, UPDATE, white space, ru_, in any case, for every string |
| `QueryRecogniser.RecognisedIff` | coordinator/modules/dal/dal_odbc_mgr.cc:3774-3806 | the texts that are recognised, letter by letter: optional white space, UPDATE in any case, white space, ru_ in any case |
| `RunningLock.StepKeepsInv` | coordinator/modules/dal/dal_odbc_mgr.cc:3287-3300 | every single step of every thread keeps flag, flag mutex and lock in agreement, apart from the two gaps inside the flag mutex |
| `RunningLock.MutexesAreUsedProperly` | coordinator/modules/dal/dal_odbc_mgr.hh:1265-1273 | RUNNING is unlocked only for the connection that owns it and never locked again for it, and by the thread that locked it if no enabled connection is shared; a flag mutex is unlocked only by its holder |
| `RunningLock.NoCircularWait` | coordinator/modules/dal/dal_odbc_mgr.cc:274-287 | no circular wait over the mutexes is reachable and no wait chain is longer than three |
| `RunningLock.OwnerCanFinish` | coordinator/modules/dal/dal_odbc_mgr.cc:313-326 | from every reachable state in which a connection owns the lock, one of its threads can by itself go on until the lock is released |
| `RunningLock.OnlyUpdatesComeToTheLock` | coordinator/modules/dal/dal_odbc_mgr.cc:3287-3300 | on every run a thread comes to the lock only for an UPDATE of RUNNING, and a statement is run as what it was issued as |
| `RunningLock.ReadersStayClear` | coordinator/modules/dal/dal_odbc_mgr.cc:3287-3300 | on every run a connection that issues no UPDATE of RUNNING never owns the lock, never has its flag up and never waits for the lock |
| `RunningLock.ReaderGetsThrough` | coordinator/modules/dal/dal_odbc_mgr.cc:3287-3300 | such a statement gets to run by its own steps once its flag mutex is free, whoever owns the lock |
| `RunningLock.PlainStatementRuns` | coordinator/modules/dal/dal_odbc_mgr.cc:3287-3300 | on a connection without exclusion a statement runs at once and touches neither mutex nor flag |
| `RunningLock.TwoPhaseExclusion` | coordinator/modules/dal/dal_odbc_mgr.cc:3287-3300 | from a connection's first running UPDATE until its transaction ends no other exclusion-enabled connection is about to run one |
| `RunningLock.SharingBreaksExclusion` | coordinator/modules/dal/dal_odbc_mgr.cc:274-287 | two threads on one enabled connection and a third on another can be brought to a clash |
| `RunningLock.SharingUnlocksForAnother` | coordinator/modules/dal/dal_odbc_mgr.cc:313-326 | two threads on one enabled connection can be brought to the point where one unlocks what the other locked |
| `RunningLock.LockerUnlocksIff` | coordinator/modules/dal/dal_odbc_mgr.cc:313-326 | for every configuration, RUNNING is always unlocked by the thread that locked it if and only if no two threads share an enabled connection |
| `RunningLock.ExclusionBreaksIff` | coordinator/modules/dal/dal_odbc_mgr.cc:3287-3300 | for every configuration, two enabled connections can both be about to update RUNNING if and only if threads share an enabled connection while another is on a different one |
| `ClusterEvent.StepKeepsInv` | coordinator/modules/clstat/event.c:262-319 | every critical section keeps BUSY, its owner and the place of the owner's event in agreement |
| `ClusterEvent.RaiseIsSafe` | coordinator/modules/clstat/event.c:262-319 | at most one event in flight, BUSY exactly while one is (or one was lost), the sentinel's assertion, and result 0 only for an event that reached the sentinel |
| `ClusterEvent.NothingIsPostedAfterFini` | coordinator/modules/clstat/event.c:96-109 | a raise that takes the lock after FINI is cancelled and never posts |
| `ClusterEvent.LostEventBlocksForever` | coordinator/modules/clstat/event.c:362-367 | after an event the sentinel does not see, BUSY stays set and every later raise is refused |
| `ClusterEvent.LostEventIsReachable` | coordinator/modules/clstat/event.c:362-367 | any call that raises an event of such a type can reach that state |
| `ClusterEvent.EventCanBeLostIff` | coordinator/modules/clstat/event.c:362-367 | short of a shutdown an event can be lost if and only if some call raises such a type |
| `ClusterEvent.ResultIsRightIff` | coordinator/modules/clstat/event.c:297-319 | on every run, the result of a raise is 0 exactly for a delivered event if and only if BUSY is clear or its own |
| `ClusterEvent.EnterIff` | coordinator/modules/clstat/event.c:262-283 | on every run a raise is cancelled exactly after a shutdown, refused as busy exactly if there was none and an event is outstanding, and accepted otherwise |
| `ClusterEvent.TestIff` | coordinator/modules/clstat/event.c:297-319 | on every run a pass of the wait loop ends with 0, ECANCELED, ETIMEDOUT or another sleep exactly as outstanding events, shutdown and the last wait say |
| `ClusterEvent.PostErrorIff` | coordinator/modules/clstat/event.c:286-295 | on every run a raise reports a post error exactly if its post failed |
| `ClusterEvent.SentinelIff` | coordinator/modules/clstat/event.c:440-450 | on every run the sentinel is there exactly until its handler is removed |
| `ClusterEvent.NothingIsReachedAfterRemoval` | coordinator/modules/clstat/event.c:440-450 | after that no event reaches it |
| `ClusterEvent.StrandsIff` | coordinator/modules/clstat/event.c:480-491 | exactly the steps that leave a raise asleep with BUSY clear or FINI up |
| `ClusterEvent.OneAtATimeIsExact` | coordinator/modules/clstat/event.c:297-319 | with one raise at a time neither happens |
| `ClusterEvent.OvertakenIsReachable` | coordinator/modules/clstat/event.c:262-319 | a second raise can set BUSY before the first has seen its event delivered |
| `ClusterEvent.DeliveredRaiseCanTimeOut` | coordinator/modules/clstat/event.c:297-319 | from there the first raise reports ETIMEDOUT for a delivered event |
| `ClusterEvent.SignalCanWakeTheWrongRaise` | coordinator/modules/clstat/event.c:480-491 | from there a raise sleeps although BUSY is clear |
| `CleventThread.StepKeepsInv` | coordinator/modules/clstat/ipc_event.c:400-480 | every critical section and every unlocked step keeps handle, request and acknowledgements in agreement |
| `CleventThread.StepKeepsReadInv` | coordinator/modules/clstat/ipc_event.c:447-461 | a request is overwritten only when no thread is left to read it |
| `CleventThread.ThreadReadsItsRequest` | coordinator/modules/clstat/ipc_event.c:600-616 | the unlocked reads of type, SYSACT flag and deadline are those of the CLEVENT that spawned the thread |
| `CleventThread.SpawnIff` | coordinator/modules/clstat/ipc_event.c:445-480 | on every run a request is stored exactly if finalisation has not begun and no thread is at work, and then gets its thread exactly if one can be created |
| `CleventThread.FetchDecides` | coordinator/modules/clstat/ipc_event.c:400-444 | on every run a request whose parameters could not be read is refused and never gets a thread |
| `CleventThread.ContextIsLastRaise` | coordinator/modules/clstat/event.c:220-232 | on the UNC daemon the context holds type and flag of the last raise |
| `CleventThread.ExactlyOneAck` | coordinator/modules/clstat/ipc_event.c:400-480 | every CLEVENT makes exactly one acknowledgement attempt, true if and only if its raise returned 0 |
| `CleventThread.AckIsTheRaise` | coordinator/modules/clstat/ipc_event.c:600-617 | on every run a request that is through was acknowledged once, with success exactly if its raise succeeded |
| `CleventThread.HandleIsReleasedOnce` | coordinator/modules/clstat/ipc_event.c:257-311 | one thread at a time, the detach assertion, and no handle both detached and joined |
| `CleventThread.HandleIsReleasedIff` | coordinator/modules/clstat/ipc_event.c:257-311 | on every run, the handle of a thread that has exited is detached or joined if and only if it exited before finalisation began, or the list drained and the join succeeded |
| `CleventThread.ThreadCanBeLeftUnjoined` | coordinator/modules/clstat/ipc_event.c:270-277 | a drain that gives up leaves a finished thread neither detached nor joined |
| `SessionList.CancelAll` | coordinator/modules/clstat/ipc_client.c:166-172 | the loop cancels exactly the linked sessions |
| `SessionList.StepKeepsInv` | coordinator/modules/clstat/ipc_client.c:110-134 | every critical section keeps list, flag, cancellations and pending broadcasts in agreement |
| `SessionList.DisabledListOnlyShrinks` | coordinator/modules/clstat/ipc_client.c:68-80 | once disabled nothing is linked, and what was linked stays cancelled |
| `SessionList.DisableCancelsAllLinked` | coordinator/modules/clstat/ipc_client.c:156-172 | exactly the sessions linked at that moment are cancelled |
| `SessionList.LinkIsRefusedIff` | coordinator/modules/clstat/ipc_client.c:68-80 | on every run a session is refused exactly if it comes after the list was disabled, and linked otherwise |
| `SessionList.ZeroMeansDrainedForever` | coordinator/modules/clstat/ipc_client.c:173-187 | a fini that returned 0 left the list empty for ever |
| `SessionList.NoLostWakeup` | coordinator/modules/clstat/ipc_client.c:129-134 | when fini sleeps on an empty list a broadcast that wakes it is still to come |
| `SessionList.BroadcastWakesIff` | coordinator/modules/clstat/ipc_client.c:129-134 | on every run a broadcast wakes a sleeping fini exactly if no session is linked any more |
| `SessionList.DrainedTimeoutIff` | coordinator/modules/clstat/ipc_client.c:173-187 | on every run, a re-test reports ETIMEDOUT for a drained list exactly if the wait before it timed out and every session ever linked was unlinked by then |
| `SessionList.DrainedListCanTimeOut` | coordinator/modules/clstat/ipc_client.c:173-187 | a run in which a drained list is reported as timed out |
| `SessionList.RetestIff` | coordinator/modules/clstat/ipc_client.c:173-187 | on every run a re-test reports ETIMEDOUT exactly if the wait before it timed out, sleeps again exactly if it did not and a session is still linked, and returns 0 otherwise |
| `SessionList.FirstTestIff` | coordinator/modules/clstat/ipc_client.c:156-177 | on every run the first test returns 0 exactly if no session is linked, and sleeps otherwise |
| `BufferCopy.CompatibleIff` | coordinator/modules/dal/dal_bind_column_info.cc:1225-1326 | a type is accepted exactly if, on an integer column, the column can hold all its values; on a character column, if it is characters; on a binary column always; on others never |
| `BufferCopy.WidthsAreRanges` | coordinator/modules/dal/dal_bind_column_info.cc:561-696 | the widths of both kinds of types are those of their ranges |
| `BufferCopy.BinarySizeIff` | coordinator/modules/dal/dal_bind_column_info.cc:998-1054 | a value of several bytes fills a binary column exactly, bytes may fill one of any length |
| `BufferCopy.TextIff` | coordinator/modules/dal/dal_bind_column_info.cc:700-786 | a copy stops at a NUL exactly for characters outside one-byte number and binary columns |
| `BufferCopy.CopyFits` | coordinator/modules/dal/dal_bind_column_info.cc:700-786 | every accepted pair of types copies exactly the application's bytes and stays inside the DAL buffer |
| `BufferCopy.CopyWords` | coordinator/modules/dal/dal_bind_column_info.cc:844-871 | the element loop overwrites exactly the copied elements |
| `BufferCopy.CopyUntilNul` | coordinator/modules/dal/dal_bind_column_info.cc:834-842 | the character loop copies up to and including the first NUL and leaves the rest |
| `BufferCopy.CopyBinary` | coordinator/modules/dal/dal_bind_column_info.cc:998-1054 | size check, network order for 16 and 64 bits, plain copy otherwise |
| `BufferCopy.Copy` | coordinator/modules/dal/dal_bind_column_info.cc:790-1076 | the destination after a copy in either direction, or a refusal that writes nothing |
| `BufferCopy.AllocateColBuffer` | coordinator/modules/dal/dal_bind_column_info.cc:493-532 | a zeroed buffer of the column's size, or failure for a type without a size |
| `BufferCopy.AllocateAndCopy` | coordinator/modules/dal/dal_bind_column_info.cc:405-489 | the DAL buffer of an input or match binding |
| `BufferCopy.RoundTrip` | coordinator/modules/dal/dal_bind_column_info.cc:307-489 | a copy in and a copy out restore the application's array, up to the first NUL where copies stop there, for every accepted pair |
| `BufferCopy.BinaryIsStoredBigEndian` | coordinator/modules/dal/dal_bind_column_info.cc:1005-1050 | 16- and 64-bit values are stored in network order on every host |
| `BufferCopy.WideningKeepsValueIff` | coordinator/modules/dal/dal_bind_column_info.cc:327-489 | one number stored in a wider column keeps its value exactly if the host is little-endian, the widths agree or it is 0 |
| `BufferCopy.RebindingIsFaithfulIff` | coordinator/modules/dal/dal_odbc_mgr.cc:1180-1186 | exactly when binding a DAL buffer again gives the stored bytes |
| `BufferCopy.RebindingIsFaithful` | coordinator/modules/dal/dal_odbc_mgr.cc:1180-1186 | always so outside binary columns, for byte types and 32-bit values, and in binary columns of any length but 2 and 8 |
| `BufferCopy.RebindingCanSwap` | coordinator/modules/dal/dal_bind_column_info.cc:1005-1018 | a 16-bit value in a 2-byte binary column would come back swapped |
| `BindList.ReuseAddsTheRole` | coordinator/modules/dal/dal_bind_column_info.cc:1122-1222 | wherever an entry is available the computed type is the old roles plus the requested one |
| `BindList.AvailabilityIff` | coordinator/modules/dal/dal_bind_column_info.cc:1182-1222 | an entry is refused to an input beside an input or output and to an output beside an input; else reused, or another one appended if it holds the role |
| `BindList.ComputeIff` | coordinator/modules/dal/dal_bind_column_info.cc:1122-1180 | a role is computed exactly where the roles of the entry do not rule it out, and is just added to them |
| `BindList.UpdateAddsTheRole` | coordinator/modules/dal/dal_bind_column_info.cc:58-302 | each role keeps one buffer, allocated once; an early refusal changes nothing |
| `BindList.BindAddsOneRole` | coordinator/modules/dal/dal_bind_info.cc:222-294 | a request adds one holder of its role, or is refused early; no other role changes hands |
| `BindList.BindTouchesItsColumn` | coordinator/modules/dal/dal_bind_info.cc:249-294 | only an entry of the requested column changes, and at most one entry is added |
| `BindList.InputsFirstOnEveryRun` | coordinator/modules/dal/dal_bind_info.cc:249-272 | on every sequence of binds only the first entry of a column holds an input |
| `BindList.InputColumnsAreDistinct` | coordinator/modules/dal/dal_bind_info.cc:249-272 | so a SET list or an INSERT names no column twice, and no column is bound for input and output |
| `BindList.EarlyIff` | coordinator/modules/dal/dal_bind_info.cc:222-294 | exactly when a request is refused with no role given, by its parameters, the roles of the column's first entry, the type and the size |
| `BindList.NewColumnIsEarlyIff` | coordinator/modules/dal/dal_bind_column_info.cc:100-150 | on a column not yet in the list a valid request of its size is refused by its type alone |
| `BindList.StandardIntegerTakesAny` | coordinator/modules/dal/dal_schema.hh:2065-2160 | the standard integer column takes one value of any type |
| `BindList.LateIff` | coordinator/modules/dal/dal_bind_column_info.cc:175-302 | exactly when a bind fails after its role was given |
| `BindList.NaturalSizeIsNeverLate` | coordinator/modules/dal/dal_bind_column_info.cc:112-133 | an element count of 1 or a byte type is never refused late |
| `BindList.CountersOnEveryRun` | coordinator/modules/dal/dal_bind_info.cc:57-133 | on every sequence of binds a counter misses the number of holders exactly by late refusals and 16-bit wrap-around |
| `BindList.CountersAreExactIff` | coordinator/modules/dal/dal_bind_info.cc:57-133 | exactly when a counter is the number of holders |
| `BindList.CountersFromEmptyIff` | coordinator/modules/dal/dal_bind_info.cc:57-133 | the same from an empty list on |
| `BindList.LateRefusalMiscounts` | coordinator/modules/dal/dal_bind_column_info.cc:175-302 | a refused bind that holds its role uncounted |
| `BindList.TypedOnEveryRun` | coordinator/modules/dal/dal_bind_column_info.cc:190-201 | on every sequence of binds the type and size of an entry with a role fit its column |
| `BindList.ArrayIsCoveredIff` | coordinator/modules/dal/dal_bind_column_info.cc:190-302 | after every sequence of binds, exactly when the copy of an accepted request stays inside the caller's array, and when it covers all of it |
| `BindList.SecondRoleCanOverrun` | coordinator/modules/dal/dal_bind_column_info.cc:307-376 | a 64-bit match and an 8-bit output on one column, after which 8 bytes are copied into an array of 1 |
| `BindList.UpdateIsAlignedIff` | coordinator/modules/dal/dal_query_builder.cc:859-889 | placeholder k of an UPDATE is fed from parameter k exactly if some input was counted or none holds its role |
| `BindList.UpdateIsRefusedIff` | coordinator/modules/dal/dal_query_builder.cc:866-869 | on every sequence of binds, an UPDATE is refused exactly if all inputs that hold their role were refused late or lost to wrap-around, and one that is built is aligned |
| `BindList.WhereIsAlignedIff` | coordinator/modules/dal/dal_query_builder.cc:1045-1075 | the same for a statement with a WHERE clause alone, exactly if nothing was bound for input or nothing for match |
| `BindList.InputShiftsMatch` | coordinator/modules/dal/dal_dml_intf.hh:74-80 | from an empty list, any accepted input followed by any accepted match misaligns the clause |
| `BindList.InputShiftsMatchHappens` | coordinator/modules/dal/dal_dml_intf.hh:74-80 | such a sequence of binds |
| `BindList.InsertIsWellFormedIff` | coordinator/modules/dal/dal_query_builder.cc:830-855 | an INSERT has as many placeholders as names exactly if no input was refused late and the counter did not wrap |
| `BindList.DalBindInfo.BindAttributeInPlace` | coordinator/modules/dal/dal_bind_info.cc:222-294 | the list and the outcome after a request |
| `BindList.DalBindInfo.BindRequest` | coordinator/modules/dal/dal_bind_info.cc:57-133 | list, counters and result of BindInput, BindOutput and BindMatch |
| `BindList.NumberRole` | coordinator/modules/dal/dal_odbc_mgr.cc:3055-3088 | the loop numbers the holders of a role in list order |
| `BindList.DalBindInfo.BindRoleToQuery` | coordinator/modules/dal/dal_odbc_mgr.cc:3055-3088 | the holders of a role are numbered in list order, one after the other in 16 bits |
| `BindList.NumberedFromOneIff` | coordinator/modules/dal/dal_odbc_mgr.cc:3055-3088 | 16-bit numbers from 1 run without a gap exactly up to 65535 buffers |
| `BindList.DalBindInfo.BindToQuery` | coordinator/modules/dal/dal_odbc_mgr.cc:2991-3018 | inputs, then matches, numbered from 1, and outputs from 1; the numbers are 1, 2 and so on without a gap exactly up to 65535 of them |
| `Capability.AcyclicChainsEnd` | coordinator/modules/capa/capa_module.cc:447-457 | over an acyclic parent map every chain ends within as many steps as there are versions |
| `Capability.CycleNeverEnds` | coordinator/modules/capa/ctrlr_capability.cc:41-55 | on a cycle the walk never gets to an end |
| `Capability.RankedIsAcyclic` | coordinator/modules/capa/capa_module.cc:447-457 | a parent map in which every parent is ranked below its version is acyclic |
| `Capability.NearestIsFirst` | coordinator/modules/capa/ctrlr_capability.cc:36-60 | a lookup gives the first definition up the chain, and none only if there is none |
| `Capability.InstancesMeans` | coordinator/modules/capa/ctrlr_capability.cc:36-60 | an instance count is that of the first version of the chain that has one, and 0 in want of one |
| `Capability.AttrCapsMeans` | coordinator/modules/capa/ctrlr_capability.cc:177-212 | the capabilities of an attribute are those of the first version of the chain that defines it |
| `Capability.LookupThroughBlock` | coordinator/modules/capa/ctrlr_capability.cc:62-97 | looking up from the nearest version that has the block equals looking up from the requested version |
| `Capability.ResolvingFromBlockIsResolving` | coordinator/modules/capa/ctrlr_capability.cc:75-93 | so instance counts and attributes may be resolved from that block's version |
| `Capability.Walk` | coordinator/modules/capa/ctrlr_capability.cc:41-55 | the loop terminates and ends at the nearest defining version |
| `Capability.LoadInstanceCount` | coordinator/modules/capa/ctrlr_capability.cc:36-60 | the inherited instance count, or 0 |
| `Capability.KtAttrCapability.constructor` | coordinator/modules/capa/ctrlr_capability.cc:323-342 | four separate zeroed arrays, never empty |
| `Capability.KtAttrCapability.SetAttrCap` | coordinator/modules/capa/ctrlr_capability.cc:344-357 | each of the four arrays says of the attribute what its capability says, no other attribute changes, and an index that passes the guard and misses the arrays is reported |
| `Capability.KtAttrCapability.GuardMissesIff` | coordinator/modules/capa/ctrlr_capability.cc:345-348 | an index passes the guard and misses the arrays exactly if it equals a positive number of attributes |
| `Capability.KtAttrCapability.LoadAttrCapability` | coordinator/modules/capa/ctrlr_capability.cc:177-212 | the row of an attribute is what the version inherits, or nothing changes |
| `Capability.LoadKtCapability` | coordinator/modules/capa/ctrlr_capability.cc:214-244 | the arrays hold inherited values up to the first unresolved attribute and zeros after it |
| `Capability.LoadKeyType` | coordinator/modules/capa/ctrlr_capability.cc:70-94 | a key type is recorded exactly if some version of the chain has a block, with what the requested version inherits |
| `Capability.LoadKeyTypes` | coordinator/modules/capa/ctrlr_capability.cc:68-95 | the same for every key type of the table |
| `Capability.BuildMap` | coordinator/modules/capa/ctrlr_capability.cc:84-88 | the map holds exactly the key types that were found |
| `Capability.LoadCtrlrCapability` | coordinator/modules/capa/ctrlr_capability.cc:62-97 | kt_cap_map_ records exactly the key types with a block in the chain, each with what the requested version inherits |
| `Version.AtMostIsNumeric` | coordinator/modules/capa/capa_module.cc:178-196 | the part-by-part order with wildcards is the order of the numbers they spell in base 256 |
| `Version.ValidateVersion` | coordinator/modules/capa/capa_module.cc:141-200 | true exactly for a known configured version with a listed version at most the actual one |
| `Version.AcceptedIsThreshold` | coordinator/modules/capa/capa_module.cc:169-200 | acceptance is a threshold on the actual version read as one number |
| `Version.AcceptedInRangeIff` | coordinator/modules/capa/capa_module.cc:169-200 | with listed parts in -1..255, accepted exactly if some listed version is lexicographically at most the actual one, -1 a wildcard |
| `Version.AcceptanceIsMonotone` | coordinator/modules/capa/capa_module.cc:169-200 | acceptance is monotone in the actual version |
| `Version.SupportedIsAccepted` | coordinator/modules/capa/capa_module.cc:536-572 | the version reported as supported is accepted, wildcards and casts included |
| `Version.SupportedIsLeast` | coordinator/modules/capa/capa_module.cc:536-572 | without wildcards it is the least version that the first entry accepts |
| `Version.GetSupportedVersion` | coordinator/modules/capa/capa_module.cc:536-572 | a known configured version yields an accepted version, an unknown one an error, and one with an empty list is undefined |
| `Version.LoadActualVersion` | coordinator/modules/capa/capa_module.cc:101-139 | count versions of four elements each, with 0 beyond the end; an empty or ragged array is refused only if there is something to load |
| `Version.CountFitsIff` | coordinator/modules/capa/capa_module.cc:112-138 | all loaded parts come from the array exactly if the count does not exceed it, and otherwise every actual version is accepted |

## Left out

- Merge and import (BackupToCandDel and the import templates), truncating deletes, CopyEntireRecords and MakeAllTableDirtyInCache: they bypass CANDIDATE_DEL or the marks on purpose.
- Foreign keys and parent checks between tables: each table is tracked by itself.
- The modes TC_CONFIG_REAL and TC_CONFIG_INVALID, for which SetTableDirty succeeds without a mark and IsTblDirty fails.
- Rollback after a failed statement: the caller is taken to roll back and reload the caches, as a failed VTN-mode mark does in a run.
- SQL text beyond the order and number of placeholders, ODBC handles, attributes, cursors and diagnostics.
- write_count_, logging, memory-allocation failure and clock values; deadlines are steps that may happen at any time.
- clst_ipc_chstate, the wait loop of clst_ipc_init and the SYS_STOP timer thread: flag tests under one lock.
- Cluster-state and version bit packing, enum tables, dmctl commands, launcher configuration and the unixODBC wrapper.
- CopyResultToApp and ResetDalOutBuffer as loops over the list: each entry is one copy or one zeroed buffer, which BufferCopy models.
- The end of a transaction in virtual mode, which commits, aborts and clears only the main tables of some key types, and the one table whose flags are then cleared for create alone.
- Tables without a VTN column in VTN mode, whose copies and clears are then not limited to the VTN.
- The one-byte read of the two-byte table index in UpdateVtnDirtyTblCacheFromDB, whose other byte the source never sets: the model takes it as 0.
- OdbcManager.DalOdbcMgr.CreateRecord: database errors other than a duplicate key and a failed mark are not modelled.
- ChangeTracking.UpdateKeepsAccounted: for updates of columns outside the primary key; the DAL does not check the SET list, and an update of a key column is not modelled.
- ChangeTracking.ExactEndOnEveryRun: likewise.
- RunningLock.TwoPhaseExclusion: for enabled connections that are each used by one thread; RunningLock.ExclusionBreaksIff says what happens otherwise.
- Capability.LoadCtrlrCapability: for a table of key types without repetition, as the source's constant table is.
- BufferCopy.AllocateAndCopy: buffer lengths are the caller's obligation, as in the source.
- BufferCopy.CompatibleIff: characters count as ASCII, the part of char that does not depend on its sign.
- Transaction.Abort: the order of tables names each of them once, as the source's key type lists do.
