# Verification model of the Sequelize core

This project models the parts of Sequelize (`packages/core`, with pieces of the MSSQL and MariaDB dialects)
whose guarantees span several functions or several clients, and proves those guarantees for every input, every
run and every interleaving. Databases, pools and rows are abstract: no SQL text occurs. Objects that the
source updates in place (transactions, the pool, model instances, rows, index objects, derived attribute maps, the
variant cache, query options) are classes whose methods are proved against functions on values; what the source
promises is then proved about those functions.

| file | subject |
|---|---|
| `Sessions`, `Blocks` | savepoint stacks (clauses 16.4 and 16.7 of ISO/IEC 9075-2:2003); nested managed blocks as programs, their execution and their all-or-nothing reading |
| `Connections`, `Transactions`, `FaultyRuns`, `ManagedBlocks`, `Lifecycles` | the pool, the `Transaction` object, what failures leave possible, `sequelize.transaction`, and any interleaving of root transactions |
| `Instances`, `DirtySaving`, `OptimisticLocking`, `FindCreateFind` | changed-attribute tracking, partial updates, version locking among many clients, the find-create-find protocol |
| `CascadingDeletes` | cascades done in JavaScript over a foreign-key graph |
| `Filters`, `IncludeMerging`, `ScopedFinds`, `IncludeAll`, `LimitedIncludes` | rewriting of `where` and `include` options, with filters in three-valued logic (subclause 6.34 of ISO/IEC 9075-2:2003) |
| `AttributeRefresh`, `IndexMerging`, `ModelOrdering`, `ModelVariants` | model definitions, indexes, foreign-key order, the cache of scoped models |
| `QueryExecution`, `BulkInserts` | retries and the pool, transaction and connection options, MSSQL bulk inserts |

## What does not hold

Several promises fail on some inputs. The model keeps the code as it is. The named members give the exact condition
under which the promise holds, over all inputs, and often a concrete run that breaks it; for the failures inside
transactions they give the excluded kinds of failure and a run for each, and the last entry is only about a comment.

- A savepoint is named after the number of its siblings, so the first savepoint inside the first savepoint takes
  its name, and rolling the outer one back keeps the outer one's first writes (`Blocks.RootIsAllOrNothing`,
  `Blocks.FirstOfFirstBreaks`).
- A MariaDB deadlock inside a savepoint ends the whole database transaction, and only the savepoint is rolled back. If
  the root goes on, whatever it wrote before is lost and what it writes afterwards is committed at once, even if the
  root then fails. A callback that commits its own transaction and then throws has its writes committed too, and a
  savepoint whose ROLLBACK TO fails keeps its writes in its root. A savepoint inside a savepoint always finds its name
  taken, so that if it fails to begin, its rollback undoes writes of the block around it. Without these, blocks are
  atomic whatever else fails (`ManagedBlocks.RunTransaction`, `ManagedBlocks.SavepointDeadlock`,
  `ManagedBlocks.CommitThenThrow`, `ManagedBlocks.FailedUndo`, `ManagedBlocks.NestedSavepointFails`,
  `FaultyRuns.DeeperNameIsTaken`).
- A transaction whose `commit()` is over before its connection is acquired never gives that connection back
  (`Lifecycles.SettledRunsConserve`, `Lifecycles.CommitBeforeConnection`).
- A savepoint that outlives its root stays on the root's former connection, which may by then be another root's
  (`Lifecycles.SavepointStaysHome`, `Lifecycles.SavepointOnForeignConnection`).
- A query leaks the connection it acquired when the query constructor or an `afterQuery` hook throws
  (`QueryExecution.QueryRaw`, `QueryExecution.LeakingQuery`).
- What a validation hook sets, other than a field that is saved anyway, is not written by that save: validation runs
  after the fields are chosen, and again after the before-hooks (`DirtySaving.MarkedAreFields`,
  `DirtySaving.PartialIsFull`, `DirtySaving.SaveAgrees`, `DirtySaving.ValidationHookIsDropped`).
- An after-save hook that sets a saved attribute loses the mark on it (`DirtySaving.SaveKeepsSync`,
  `DirtySaving.AfterHookLosesTheMark`).
- A save of a versioned instance whose only changes come from before-hooks does not write them: the version is not among
  the fields, its next value is NaN, and type validation refuses that before the UPDATE is sent. The marks stay, and
  saving again writes them (`OptimisticLocking.HookOnlyIsRefused`, `DirtySaving.HookOnlyChangeIsRefused`).
- Without a version, an UPDATE whose instance had its key overwritten, raw or by `set` while the key was falsy, such as
  0, or whose row is gone, misses without any error (`DirtySaving.KeyEditMisses`,
  `DirtySaving.FalsyKeyIsOverwritten`, `DirtySaving.HookOverwritesKey`).
- `findCreateFind` disagrees between clients when `defaults` override a searched attribute
  (`FindCreateFind.AgreementNeedsMatchingDefaults`).
- A manual cascade never ends when rows below the deleted ones reference each other, or one references itself, through
  CASCADE keys (`CascadingDeletes.CascadeEnds`, `CascadingDeletes.CascadeNeverEnds`,
  `CascadingDeletes.SelfReferenceNeverEnds`).
- A throwing `afterDestroyMany` hook of the model on which a cascade was started comes after the commit: the call
  fails and the rows are gone (`CascadingDeletes.DestroyInOwnTransaction`, `CascadingDeletes.HookThrowsTooLate`).
  Stale top-level instances are not deleted, while the rows below them are.
- Preparing a find never ends when default scopes include each other (`ScopedFinds.PreparingEnds`,
  `ScopedFinds.MutualScopesNeverEnd`).
- A HasOne include never counts as duplicating, but nothing makes its foreign key unique. With two matching rows and no
  subquery, a limit is spent on the lines of one root row (`LimitedIncludes.DecideSubQuery`,
  `LimitedIncludes.HasOneFansOut`).
- Two attributes may share a column without any error; the column then leads to the last of them only
  (`AttributeRefresh.ColumnsFindAll`, `AttributeRefresh.SharedColumn`).
- The lookup of model variants reads `delimiter` where callers pass `schemaDelimiter`, so a request may get a variant
  of another delimiter, or a second one of its own key (`ModelVariants.DelimiterIsNotSeen`,
  `ModelVariants.NoDuplicateVariants`, `ModelVariants.DelimiterIsIgnored`).
- An MSSQL bulk insert repeats the records that are a lone null auto-increment value when they are mixed with others
  (`BulkInserts.EveryRecordOnce`, `BulkInserts.LoneNullIsRepeated`).
- The comment above `getModelsTopoSortedByForeignKey` says that referenced models come first. The code and its
  callers put them last, and so does the model (`ModelOrdering.TopoSort`).

## Model

| member | source | states |
|---|---|---|
| Sessions.UndoRestores | packages/core/src/transaction.ts:133-142 | rolling back to a savepoint whose name was not used again restores exactly the writes it was taken with, whatever savepoints were set and undone since |
| Blocks.RunGrows | packages/core/src/sequelize-typescript.ts:890-951 | a callback never removes writes made before it, and destroys no savepoint except those whose names it creates |
| Blocks.SafeRun | packages/core/src/sequelize-typescript.ts:920-944 | while names do not clash, running a callback keeps exactly the writes of its successful blocks, in order, and commits exactly those of its separate transactions |
| Blocks.FilledRun | packages/core/src/transaction.ts:57-60 | for every nesting, a run with a write before each step never keeps fewer writes than promised, and keeps more somewhere as soon as a failing block's name is used again inside it |
| Blocks.RootIsAllOrNothing | packages/core/src/transaction.ts:57-60 | a root block commits exactly the writes of its successful blocks, whatever they are, if and only if no failing savepoint block that counts has its own name used again inside it |
| Blocks.OneLevelIsAllOrNothing | packages/core/src/transaction.ts:122-142 | with no savepoint that can be reached inside a savepoint, every root block is all-or-nothing in all three nest modes |
| Blocks.FirstOfFirstBreaks | packages/core/src/transaction.ts:57-60 | the concrete nesting of a first savepoint in a first savepoint keeps a write that was rolled back |
| Connections.LoansBalance | packages/core/src/transaction.ts:239-270 | in an orderly pool history each loan of a connection is either still out or handed back exactly once, by release or by destruction |
| Connections.Pool.Acquire | packages/core/src/sequelize.js:363-366 | the connection lent was not lent before; the history gains one acquisition |
| Transactions.Transaction.constructor | packages/core/src/transaction.ts:45-66 | a savepoint is named by the number of its older siblings and none of them is forgotten; a root has no parent and no connection |
| Transactions.Transaction.Cleanup | packages/core/src/transaction.ts:239-249 | only a root with a tagged connection releases it, untags it and forgets it; otherwise nothing changes |
| Transactions.Transaction.ForceCleanup | packages/core/src/transaction.ts:257-270 | only a root with a tagged connection destroys it, and its open session dies with it |
| Transactions.Transaction.Commit | packages/core/src/transaction.ts:87-117 | a finished transaction is refused and nothing changes; otherwise it is finished, a root hands its connection back by release on success and by destruction on failure, a savepoint changes nothing; without faults exactly the session's writes become committed |
| Transactions.Transaction.Rollback | packages/core/src/transaction.ts:122-156 | refused when finished or never started; otherwise finished, nothing committed, the connection handed back once; a savepoint undoes its parent's session to its own name |
| ManagedBlocks.Bind | packages/core/src/transaction.ts:169-183 | a root takes a connection that was not lent, a savepoint its parent's |
| ManagedBlocks.PrepareEnvironment | packages/core/src/transaction.ts:169-195 | a root that fails to begin leaves no connection checked out, whatever its rollback does; success starts a session or sets the savepoint |
| ManagedBlocks.Query | packages/mariadb/src/query.js:44-60 | nothing is written on a finished transaction; a query that succeeds keeps its write and one that fails nothing; a deadlock may finish the transaction under its callback and hands a root's connection back |
| ManagedBlocks.WriteStep | packages/core/src/sequelize-typescript.ts:928-930 | one step of a callback, which may also commit or roll back its transaction itself: the pool loses at most that root's connection; if it does not, the write joins the session exactly if the step succeeds, or a deadlock ends the root |
| ManagedBlocks.RunCallback | packages/core/src/sequelize-typescript.ts:928-939 | without faults, running a callback through the transaction object has exactly the effect and the error of the value-level run; under contained faults and one level of savepoints it keeps and commits only what the relation of possible runs allows; the pool is kept under all faults |
| ManagedBlocks.NestedBlock | packages/core/src/sequelize-typescript.ts:890-944 | in each nest mode a nested block, refused or not for its options, leaves the pool as it was and returns the callback's error; without faults it has the effect of the value-level block; under contained faults a savepoint keeps all or nothing and a separate block commits all or nothing |
| ManagedBlocks.Conclude | packages/core/src/sequelize-typescript.ts:930-941 | after the callback a root always gives its connection back and its session is over; an error of the callback is the error returned and nothing is committed; otherwise the COMMIT takes all of the session or nothing, and all if it succeeds |
| ManagedBlocks.RootBlock | packages/core/src/sequelize-typescript.ts:920-944 | whatever fails, a block with its own root leaves no connection checked out; under contained faults it commits all of what its callback kept or nothing |
| ManagedBlocks.SavepointBlock | packages/core/src/sequelize-typescript.ts:920-944 | a savepoint block never hands a connection back; under contained faults its writes are in its root's session if it succeeds and none is if it fails |
| ManagedBlocks.RunTransaction | packages/core/src/sequelize-typescript.ts:890-951 | under any faults each connection lent meanwhile is handed back exactly once and the callback's error reaches the caller; without faults and name clashes exactly the promised writes are committed; with one level of savepoints, whatever fails except a ROLLBACK TO and if no deadlock hits a savepoint and no callback finishes its own transaction, a root whose callback fails commits nothing of its own session, one that returns no error commits all it kept, and a failing COMMIT takes all or nothing |
| ManagedBlocks.SavepointDeadlock | packages/mariadb/src/query.js:44-60 | for every open root: after a deadlock in a savepoint whose error the root catches, its earlier writes are lost and its next one is committed although it fails |
| ManagedBlocks.CommitThenThrow | packages/core/src/sequelize-typescript.ts:928-941 | for every open root: a callback that commits it and throws has its writes committed and its error returned |
| ManagedBlocks.FailedUndo | packages/core/src/transaction.ts:122-156 | for every open root: what a failed savepoint block wrote is committed if its ROLLBACK TO failed and the root goes on |
| ManagedBlocks.NestedSavepointFails | packages/core/src/transaction.ts:185-195 | for every open root: when a savepoint inside its first savepoint fails to begin, the rollback undoes what the first one wrote, although nothing else fails and no error is returned |
| FaultyRuns.PromiseIsPossible | packages/core/src/sequelize-typescript.ts:890-951 | the relation of possible runs allows what the blocks promise when nothing but callbacks fails |
| FaultyRuns.ErrorsStay | packages/core/src/sequelize-typescript.ts:928-941 | a callback that fails when nothing else does also fails whatever else does |
| FaultyRuns.DeeperNameIsTaken | packages/core/src/transaction.ts:57-60 | after any blocks of one level, a savepoint inside the next one finds its name taken, and rolling back to it undoes the outer one's writes: one level is where names stay apart |
| FaultyRuns.FollowsTrans | packages/core/src/sequelize-typescript.ts:928-939 | keeping writes in order, unless a deadlock ends the root for good, composes over the steps of a callback |
| FaultyRuns.SettledNested | packages/core/src/sequelize-typescript.ts:890-944 | when a nested block and the callback's steps after it each have the effect and error the model promises for them, so has the callback as a whole: exactly its execution without faults, a possible run under contained ones, and nothing after a block whose error is not caught |
| FaultyRuns.SavepointEnds | packages/core/src/transaction.ts:122-142 | a savepoint block whose callback fails takes its root's session back to the writes it began with, and one whose callback succeeds keeps all of them |
| FaultyRuns.RootConcludes | packages/core/src/transaction.ts:87-117 | a root over its callback commits all it kept or nothing, and its session is gone, even when a deadlock ended it under its callback |
| Lifecycles.StepKeepsInvariant | packages/core/src/transaction.ts:87-195 | every step of any root or savepoint, at any time, keeps: bound connections of roots are lent, tagged, not dying and not shared, and a bound savepoint has the connection its root had |
| Lifecycles.FinishedOnce | packages/core/src/transaction.ts:87-131 | `commit()` and `rollback()` of a finished root change nothing, nor does a rollback without a connection; otherwise the root is finished as asked |
| Lifecycles.CompletedByOutcome | packages/core/src/transaction.ts:87-156 | when they complete, a tagged connection is released, or destroyed if they have failed, and nothing else changes |
| Lifecycles.NoSharedConnection | packages/core/src/transaction.ts:169-183 | in every interleaving no connection is bound to two roots and the pool history is orderly |
| Lifecycles.SettledRunsConserve | packages/core/src/transaction.ts:87-117 | once all transactions that acquired are finished and nothing is awaited, every connection has been handed back as often as lent if and only if no commit was over before its connection came |
| Lifecycles.CommitBeforeConnection | packages/core/src/transaction.ts:87-117 | a concrete run that leaves a connection checked out for good |
| Lifecycles.SavepointStaysHome | packages/core/src/transaction.ts:169-183 | in every interleaving a bound savepoint is on its root's connection if and only if the root has not handed it back; only after that, with the root finished, can it be another root's |
| Lifecycles.SavepointOnForeignConnection | packages/core/src/transaction.ts:239-249 | a concrete run in which it is |
| Instances.Instance.SetDataValue | packages/core/src/model.js:3450-3458 | marks the attribute unless the value equals the last persisted one |
| Instances.Instance.Set | packages/core/src/model.js:3638-3733 | ignores unknown, read-only and truthy key attributes; otherwise records the old value and marks a change |
| Instances.Instance.UpdateRow | packages/core/src/model.js:4064-4102 | the UPDATE hits the row only at its key and version; a version whose next value is NaN is refused and a versioned miss raises the lock error, and neither changes row or instance |
| Instances.Instance.SaveTo | packages/core/src/model.js:3883-4218 | the save of a persisted instance with default fields, both validations and all hooks, which may edit or throw, gives the instance, row and outcome of the specification that the lemmas below are about |
| Instances.Instance.DestroyIn | packages/core/src/model.js:4343-4352 | deletes the row exactly when key and version match |
| Instances.Instance.IncrementIn | packages/core/src/model.js:3317-3322 | changes the row by the amounts, the version by one whatever the sign, and not the instance |
| OptimisticLocking.AmountsBySign | packages/core/src/model.js:3317-3353 | `increment` adds each amount, `decrement` subtracts it, both raise the version by one, and every other value stays |
| DirtySaving.EditsKeepSync | packages/core/src/model.js:3450-3458 | any sequence of set and setDataValue keeps: an attribute not marked changed has its last persisted value |
| DirtySaving.KeyFollows | packages/core/src/model.js:3684-3688 | after any edits a key has the value of the last one that overwrote it, raw or by set while it was falsy |
| DirtySaving.EditMeans | packages/core/src/model.js:3450-3458 | an edit changes the attribute it names alone: value, last persisted value and mark are those stated for `set` and `setDataValue` |
| DirtySaving.HooksStopTheSave | packages/core/src/model.js:3986-4046 | a save fails because of a hook before the UPDATE exactly when one throws; then the row stays and the instance has what the hooks up to that one did |
| DirtySaving.PlainSaveWrites | packages/core/src/model.js:4049-4102 | without a version, an UPDATE is sent exactly when nothing throws, there are fields, all of them attributes, and no key became null; it hits the row exactly when it is there and no key has another value |
| DirtySaving.WrittenFields | packages/core/src/model.js:4064-4089 | after a hit the row has the value of the instance in every saved field but the version, and its own in all others |
| DirtySaving.MarkedAreFields | packages/core/src/model.js:3985-4014 | an attribute marked before the UPDATE, by the client or any hook, is among the saved fields if and only if no validation hook brought it too late |
| DirtySaving.PartialIsFull | packages/core/src/model.js:4064-4089 | the partial UPDATE produces the row that updating every attribute produces, changes by before-hooks included, if and only if no validation hook set an attribute too late to another value than the row's |
| DirtySaving.SaveKeepsSync | packages/core/src/model.js:4204-4213 | a save that hits the row leaves the instance in sync if and only if no after-hook changes what was saved |
| DirtySaving.ThrownKeepsSync | packages/core/src/model.js:4204-4213 | a save that hits the row and whose after-hook throws keeps the instance in sync, since the marks stay |
| DirtySaving.SaveAgrees | packages/core/src/model.js:3985-4014 | without after-hooks, after a successful save instance and row agree if and only if no validation hook set an attribute too late, and no attribute is marked if and only if none marked one too late |
| DirtySaving.FailedSaveKeepsSync | packages/core/src/model.js:4091-4102 | a save that does not reach the row changes neither the row nor the sync |
| DirtySaving.AlwaysInSync | packages/core/src/model.js:3883-4218 | over every sequence of edits and saves, from loading on and whatever throws, unmarked attributes have their persisted value, as long as edits and hooks leave the key of an unversioned model, put back no old version, and after-hooks that do not throw leave what was saved |
| DirtySaving.KeyEditMisses | packages/core/src/model.js:4057-4102 | an UPDATE misses without error if and only if there is no version and the row is gone or a key was overwritten with another value, by any edits of the client or any hooks |
| DirtySaving.ValidationHookIsDropped | packages/core/src/model.js:3985-4014 | a concrete save that leaves out what a validation hook and then a before-hook set |
| DirtySaving.FalsyKeyIsOverwritten | packages/core/src/model.js:3684-3688 | the concrete case of key 0 |
| DirtySaving.HookOverwritesKey | packages/core/src/model.js:3450-3458 | the concrete case of a hook that overwrites a key raw |
| DirtySaving.AfterHookLosesTheMark | packages/core/src/model.js:4204-4213 | a concrete save after which row and instance differ and nothing is marked |
| DirtySaving.HookOnlyChangeIsRefused | packages/core/src/model.js:4070-4075 | a concrete save of a before-hook's change that is refused, and writes it when repeated |
| OptimisticLocking.SaveStartsFromCurrent | packages/core/src/model.js:4070-4102 | every save that writes started from the row's current version, raises it by one, and leaves the key and all unmarked attributes of the row; any other save changes nothing but what hooks did to the instance |
| OptimisticLocking.CurrentSaveWrites | packages/core/src/model.js:4064-4102 | a versioned save writes exactly when no hook throws before the UPDATE, the client itself has changed an attribute, hooks bring no field that is none, no key is null and the instance is at the current version; it succeeds exactly when no after-hook throws either |
| OptimisticLocking.StaleSaveFails | packages/core/src/model.js:4091-4102 | a stale save never writes; when its UPDATE is sent it raises the lock error |
| OptimisticLocking.StepConsistent | packages/core/src/model.js:4070-4102 | every load, whole or partial, edit, save with any hooks, destroy and increment of any client keeps: every instance names the row, at a version not newer than the row's |
| OptimisticLocking.IncrementRaises | packages/core/src/model.js:3317-3322 | increment and decrement both raise the version by one and keep the key |
| OptimisticLocking.IncrementIsDone | packages/core/src/model.js:3317-3322 | an increment is done whatever version its client has seen, as long as the row is there |
| OptimisticLocking.NoLostUpdate | packages/core/src/model.js:4070-4102 | in every interleaving of any number of clients that leaves the row there, its version counts the successful writes, whatever the hooks change and whatever is refused or throws |
| OptimisticLocking.StaysInSync | packages/core/src/model.js:4204-4213 | in every interleaving whose after-hooks leave what was saved, an instance at the row's version has the row's value in every unmarked attribute |
| OptimisticLocking.SavedInstanceAgrees | packages/core/src/model.js:4091-4119 | in every such interleaving, after a successful save without after-hooks, instance and row agree on every attribute, version included, if and only if no validation hook set one too late |
| OptimisticLocking.DestroyIsGuarded | packages/core/src/model-internals.ts:257-260 | a stale destroy deletes nothing, a current one deletes the row |
| OptimisticLocking.GoneStaysGone | packages/core/src/model.js:4091-4102 | no action of any client brings a deleted row back |
| OptimisticLocking.HookOnlyIsRefused | packages/core/src/abstract-dialect/query-generator.js:496-503 | a versioned save that gets as far as making its UPDATE is refused if and only if the client itself had changed no attribute; the row stays, the marks of the hooks stay, and the next save is not refused |
| FindCreateFind.AgreementNeedsMatchingDefaults | packages/core/src/model.js:2084-2124 | with two clients or more, in every interleaving all that finish return the same row and at most one reports created, if and only if the row was there or the defaults do not override the searched key |
| FindCreateFind.ExactlyOneCreates | packages/core/src/model.js:2094-2123 | with no match at first, exactly one client reports created once any has finished |
| FindCreateFind.ThreeStatementsAtMost | packages/core/src/model.js:2094-2123 | a client is done after three statements, and after one with the row that was there, whatever the others do |
| FindCreateFind.RowsStayApart | packages/core/src/model.js:2099-2110 | a created row is a new one and no row is ever replaced |
| CascadingDeletes.CascadingAssociations | packages/core/src/model-repository.ts:239-250 | exactly the associations into the model with CASCADE, SET NULL or SET DEFAULT |
| CascadingDeletes.FindReferencing | packages/core/src/model-repository.ts:274-282 | all rows that reference one of the instances through the association, and no others |
| CascadingDeletes.BulkDelete | packages/core/src/model-repository.ts:116-145 | deletes exactly the rows whose key and version match, or nothing when rows that stay reference them |
| CascadingDeletes.CascadeThrough | packages/core/src/model-repository.ts:263-311 | one branch of the cascade, interrupted by others: on success no row references the targets through the association |
| CascadingDeletes.CascadeAll | packages/core/src/model-repository.ts:253-312 | all branches: only rows below the targets are deleted, referencing rows first; on success nothing references the targets |
| CascadingDeletes.DestroyInternal | packages/core/src/model-repository.ts:101-146 | everything below the instances is deleted before the instances are; the number returned is that of the last DELETE; it succeeds only if neither the model nor one below is paranoid or referenced by SET NULL or SET DEFAULT, and fails only for such a cause, a throwing hook below, or a foreign key that does not cascade |
| CascadingDeletes.Destroy | packages/core/src/model-repository.ts:50-99 | inside a transaction, interrupted by siblings at every await: deletes only rows below the instances and current instances, all of them on success; success means that no hook of a model concerned throws and all are supported, and every error has its cause |
| CascadingDeletes.DestroyInOwnTransaction | packages/core/src/model-repository.ts:80-98 | without a cycle below the instances it terminates and deletes exactly the rows reachable backwards through CASCADE keys and the current instances, each after the rows that reference it, or nothing; it must fail when a before-hook of the model throws, or a model concerned is paranoid, unsupported or has throwing hooks, with that error, and otherwise fails only over a foreign key that does not cascade; an error means nothing was deleted unless it is the last hook's, or a COMMIT whose answer was lost |
| CascadingDeletes.CascadeEnds | packages/core/src/model-repository.ts:262-295 | the nested SELECTs come to an end if and only if there is no cycle of CASCADE references below the instances |
| CascadingDeletes.CascadeNeverEnds | packages/core/src/model-repository.ts:262-295 | with a cycle, whatever is deleted in order meanwhile, every level of the recursion finds rows |
| CascadingDeletes.SelfReferenceNeverEnds | packages/core/src/model-repository.ts:262-295 | the concrete case of a row that references itself |
| CascadingDeletes.NoCycleIsShallow | packages/core/src/model-repository.ts:262-295 | without a cycle no chain of references is longer than there are rows, and one |
| CascadingDeletes.HookThrowsTooLate | packages/core/src/model-repository.ts:94-98 | a concrete call that fails although its row is gone |
| CascadingDeletes.OrderlyIsClosed | packages/core/src/model-repository.ts:106-108 | deletes in referencing-first order never leave a dangling reference |
| CascadingDeletes.BeneathIsGone | packages/core/src/model-repository.ts:253-312 | orderly deletes that leave the targets unreferenced have deleted every row with a reference chain into them |
| Filters.CombineMeansAnd | packages/core/src/model.js:4650-4688 | combining two filters means their conjunction in three-valued logic, whatever was unpacked, flattened or dropped |
| Filters.DistinctMeansSame | packages/core/src/model.js:764-766 | removing repeated elements of a filter array does not change its meaning |
| Filters.MergeMeansAnd | packages/core/src/model.js:759-770 | merging two `where` options means their conjunction, in the array-union branch too |
| Filters.FinalWhereMeans | packages/core/src/model.js:272-319 | scope injection, association scope and the paranoid clause give one node the conjunction of its four conditions |
| ScopedFinds.PrepareIncludes | packages/core/src/model-internals.ts:36-56 | the recursion that injects the scope of each included model, filters and includes, before it goes down computes the specified tree |
| ScopedFinds.EffectiveFilter | packages/core/src/model.js:3167-3171 | along every path of associations the final condition means: what the find includes there AND what the scopes of the models on the way include there AND the scope of the model AND the association's scope AND not deleted, the last unless the include says `paranoid: false`, or says nothing and the scope of its model says so; and it selects exactly the rows that all of them select |
| ScopedFinds.PreparedOptions | packages/core/src/model.js:3167-3171 | the prepared includes are the find's, in order, with every option of the include and of the scope of its model; the include's wins |
| ScopedFinds.ScopeIncludesFirst | packages/core/src/model.js:3167-3171 | the includes of a scope come first, and the options of the include's own nested ones win over them |
| ScopedFinds.PreparedPresence | packages/core/src/model.js:676-676 | the final tree includes exactly the paths reached through the find and the scopes |
| ScopedFinds.PreparingEnds | packages/core/src/model.js:723-726 | preparing a find ends if and only if no association leads back to itself through scopes that include each other |
| ScopedFinds.MutualScopesNeverEnd | packages/core/src/model.js:676-676 | the concrete case of two default scopes that include each other |
| IncludeMerging.CombineIncludes | packages/core/src/model-internals.ts:116-154 | the list merge, mutually recursive with the option merge, terminates and computes the specified tree |
| IncludeMerging.AssignOptions | packages/core/src/model.js:759-790 | the option merge, mutually recursive with the list merge, merges filters, nested includes and all other options, `attributes` given as objects included |
| IncludeMerging.MergedOthers | packages/core/src/model.js:764-785 | no option is lost, an option of one side keeps its value, two lists are united, and otherwise the right side wins where it says anything |
| IncludeMerging.EachIncludeMerged | packages/core/src/model-internals.ts:131-153 | every association of either side has its include in the merge: the one of the side that has it, or both merged, left first, option by option |
| IncludeMerging.LeftIdsFirst | packages/core/src/model.js:764-766 | two lists are united with the elements of the left one first |
| IncludeMerging.OrderIsKept | packages/core/src/model-internals.ts:131-153 | the left order is kept and new associations follow in the order of the right list |
| IncludeMerging.NoAssociationRepeats | packages/core/src/model-internals.ts:134-145 | without repeated associations on the left there are none in the result, which has exactly those of both sides |
| IncludeMerging.PushedMeansAnd | packages/core/src/model-internals.ts:116-154 | for every path of associations the merged condition is the conjunction of both sides' conditions |
| IncludeMerging.PushedPresence | packages/core/src/model-internals.ts:116-154 | a path is included in the merge if and only if a side includes it |
| IncludeAll.AddAllIncludes | packages/core/src/model.js:528-579 | the expansion ends on every finite association graph, whatever its cycles, and computes the specified tree |
| IncludeAll.ExactlyTheAllowedPaths | packages/core/src/model.js:544-558 | a path is included exactly when it was there or meets no visited model and no model of its own again other than the one it has just left |
| IncludeAll.PlainAddsOneLevel | packages/core/src/model.js:528-562 | without `nested` exactly the wanted associations of the model are added, with nothing below them |
| IncludeAll.AddedInOrder | packages/core/src/model.js:528-562 | what was there stays first, and what is added follows the order of the associations |
| IncludeAll.ExpansionRepeatsNothing | packages/core/src/model.js:544-547 | no include list of the tree repeats an association, and existing includes stay first |
| IncludeAll.PathsAreShort | packages/core/src/model.js:553-558 | a path goes through at most twice as many models as there are |
| LimitedIncludes.ValidateEach | packages/core/src/model-internals.ts:36-56 | after the first loop the flags of each include and of the list tell exactly what is somewhere below |
| LimitedIncludes.ValidateIncludedElements | packages/core/src/model-internals.ts:17-114 | the two loops set every include's flags and the list's as specified, legacy ones included, where an association's scope counts as a filter but does not make an include required, and settle the root's `subQuery` |
| LimitedIncludes.RootFlagIsExact | packages/core/src/model-internals.ts:43-51 | a flag of the root, `hasDuplicating` or a legacy one, holds exactly when some include anywhere in the tree is like that |
| LimitedIncludes.FlagsMean | packages/core/src/model-internals.ts:58-78 | when each flag of an include holds, `subQuery` and `subQueryFilter` in particular, in terms of its options, its siblings, what is below it, and its parent |
| LimitedIncludes.OwnFlags | packages/core/src/model.js:685-704 | what an include's options make of it: required, filtered, duplicating |
| LimitedIncludes.LimitIsExact | packages/core/src/model-internals.ts:85-92 | for all includes, matches and root rows, limiting the joined lines selects what limiting the kept roots selects, for every limit, if and only if no root row is joined to more than one line |
| LimitedIncludes.LimitIsNotDistorted | packages/core/src/model-internals.ts:85-92 | a sufficient condition on include tree and data: no include is duplicating, and every joined one has at most one match, as unique keys make sure of for single associations |
| LimitedIncludes.DecideSubQuery | packages/core/src/model-internals.ts:85-111 | with `subQuery` left open it is chosen exactly when a limit is set and an include anywhere is duplicating or one of the root's asks for it; when it is not, then for all matches and root rows limits select the right roots if and only if no root row is joined to more than one line, which at most one match for every joined include guarantees |
| LimitedIncludes.HasOneFansOut | packages/core/src/model-internals.ts:43-45 | the concrete case of an optional HasOne with two rows for the first root: no subquery, and a limit of two gives that root twice |
| IndexMerging.Definition.NamedCopy | packages/core/src/model-definition.ts:759-781 | an input is copied, conformed and named, or refused for missing fields or a taken name |
| IndexMerging.Definition.AddIndex | packages/core/src/model-definition.ts:706-757 | merges a copy of the input into the entry of its name, or adds it; only entries of the definition are written |
| IndexMerging.Definition.RefreshIndexes | packages/core/src/model-definition.ts:694-704 | depends on nothing but the inputs and never writes them, so refreshing again gives the same |
| IndexMerging.RefreshMerges | packages/core/src/model-definition.ts:694-781 | a refresh succeeds if and only if the inputs have fields, agree on shared options and need no taken name; then names are distinct, fields are concatenated in input order, every option has the agreed value |
| IndexMerging.ConformingMeans | packages/core/src/model-internals.ts:193-206 | an index of type UNIQUE becomes a unique index without a type, any other stays |
| IndexMerging.MergeKeepsOrder | packages/core/src/model-definition.ts:694-704 | the merged indexes are in the order in which their names first appear |
| AttributeRefresh.Attributes.RefreshAttributes | packages/core/src/model-definition.ts:452-689 | whatever the maps were, a successful refresh makes them describe the raw attributes; it fails exactly when an attribute is refused |
| AttributeRefresh.Attributes.AddAttribute | packages/core/src/model-definition.ts:521-680 | one attribute is added to every map and set it belongs to and gives its indexes in order, or is refused |
| AttributeRefresh.CollectIndexes | packages/core/src/model-definition.ts:586-651 | the indexes an attribute asks for, in order, unless one gives fields |
| AttributeRefresh.BuiltAsGiven | packages/core/src/model-definition.ts:521-551 | the column is the one given or made of the name, everything else is as given |
| AttributeRefresh.UniqueAsRequested | packages/core/src/model-definition.ts:586-617 | the index of a `unique` entry has the name given, the attribute's column, the options given, and is unique |
| AttributeRefresh.IndexAsRequested | packages/core/src/model-definition.ts:619-651 | that of an `index` entry has the name and options given, and is a GIN index for JSONB unless it says what it uses |
| AttributeRefresh.RefusedWhen | packages/core/src/model-definition.ts:465-664 | which attribute is refused, and with which error |
| AttributeRefresh.FiledByKind | packages/core/src/model-definition.ts:480-680 | in which map and set an attribute is found, by what was given for it |
| AttributeRefresh.IndexesInOrder | packages/core/src/model-definition.ts:586-651 | the indexes follow the order of the attributes and of their entries, `unique` ones first |
| AttributeRefresh.DescribedOnce | packages/core/src/model-definition.ts:452-466 | the raw attributes determine all derived maps: refreshing again gives the same |
| AttributeRefresh.ColumnsFindAll | packages/core/src/model-definition.ts:665-666 | every attribute is found by its column if and only if no two share a column |
| AttributeRefresh.SharedColumn | packages/core/src/model-definition.ts:665-666 | a concrete refresh after which a column leads to one of its two attributes |
| AttributeRefresh.PhysicalOrVirtual | packages/core/src/model-definition.ts:668-672 | physical and virtual attributes partition the attributes |
| AttributeRefresh.AskedIndexExists | packages/core/src/model-definition.ts:586-651 | after a successful refresh every index an attribute asks for exists under its name, covers its column, has every option asked for, and is unique if asked for under `unique` |
| ModelOrdering.FindIndependent | packages/core/src/model-set-view.ts:81-90 | finds a model that no other depends on, if there is one |
| ModelOrdering.TopoSort | packages/core/src/model-set-view.ts:52-97 | yields every model once with dependents before what they reference, and nothing exactly when there is a cycle through two models or more |
| ModelOrdering.SortedHasNoCycle | packages/core/src/model-set-view.ts:81-90 | a sorted list rules out every cycle |
| ModelOrdering.StuckMeansCycle | packages/core/src/model-set-view.ts:81-90 | when every remaining model is depended on, some walk of references comes back to its start |
| ModelOrdering.Schema.Sync | packages/core/src/sequelize.js:472-484 | without a cycle every table is created and none before one it references |
| ModelOrdering.Schema.DropSorted | packages/core/src/sequelize.js:540-547 | without a cycle the sorted pass drops every table and none while another references it |
| ModelVariants.VariantCache.WithScopeAndSchema | packages/core/src/model.js:1245-1303 | returns the first live variant of the key looked up or creates one, dropping dead references on the way |
| ModelVariants.RequestIsExact | packages/core/src/model.js:1266-1285 | with the default delimiter the model returned has exactly the requested schema, scope names and scope |
| ModelVariants.RequestReturns | packages/core/src/model.js:1252-1297 | for any delimiter: the first live variant of the schema and scope asked for and the default delimiter, or else a new one with all that was asked for |
| ModelVariants.FilledAsAsked | packages/core/src/model.js:1252-1256 | an empty schema or delimiter is filled in with the default, any other is kept |
| ModelVariants.NoDuplicateVariants | packages/core/src/model.js:1245-1303 | over every run of requests and collections no two live variants ever have the same key if and only if no request asks for a variant that is live while none with the default delimiter is |
| ModelVariants.DefaultNeverRepeats | packages/core/src/model.js:1252-1256 | requests with the default delimiter never do |
| ModelVariants.EqualRequestsShare | packages/core/src/model.js:1258-1286 | equal requests return the same model, whatever is requested or collected in between, until it is collected itself |
| ModelVariants.DelimiterIsNotSeen | packages/core/src/model.js:1252-1256 | for any delimiter, the model returned is the requested one if and only if the delimiter is the default or no live variant differs from the request by having the default delimiter |
| ModelVariants.DelimiterIsIgnored | packages/core/src/model.js:1252-1256 | a concrete request that gets another delimiter, and two that create one key twice |
| QueryExecution.QueryOptions.SetTransactionFromCls | packages/core/src/model-internals.ts:161-191 | sets both options as specified, or throws and changes neither |
| QueryExecution.ChosenWithoutConnection | packages/core/src/model-internals.ts:172-190 | without a connection, an undefined transaction becomes the current one with its connection, null stays null, and a given one stays and brings its connection |
| QueryExecution.ChosenWithConnection | packages/core/src/model-internals.ts:161-183 | with a connection, an unbound transaction and one bound elsewhere are refused, each with its error; otherwise the transaction is the current one exactly if that is bound to the connection |
| QueryExecution.ResolvingIsStable | packages/core/src/model-internals.ts:161-191 | success is consistency of what was asked; then transaction and connection match, applying it again never throws and never changes the connection, and soon changes nothing |
| QueryExecution.TryWithin | packages/core/src/sequelize.js:356-385 | an attempt in a transaction sends its statement exactly if the transaction is bound and unfinished, then and after the beforeQuery hook, or the statement completes it |
| QueryExecution.QueryRawWithin | packages/core/src/sequelize.js:343-386 | over all retries, while anybody may finish the transaction: the attempts made are those up to the first that succeeds or must not be retried, so nothing is sent after a success; each is sent or not as the transaction is by then, the number sent is counted, nothing is sent on a finished transaction unless it completes it, and the pool only changes by that finishing |
| QueryExecution.TryOnce | packages/core/src/sequelize.js:356-385 | an attempt without a transaction gives back what it acquired unless it leaks, and touches no pool when given a connection |
| QueryExecution.QueryRaw | packages/core/src/sequelize.js:343-386 | over any retries without a transaction the pool is as before if and only if no attempt that acquired saw the constructor or an afterQuery hook throw, and lacks one connection for each that did; every attempt made that could acquire did |
| QueryExecution.MadeUpToTheEnd | packages/core/src/sequelize.js:356-385 | all attempts made but the last have failed and may be retried; the last succeeds, must not be retried, or is the last there is |
| QueryExecution.NoneAfterSuccess | packages/core/src/sequelize.js:356-385 | inside a transaction too, no attempt follows one that succeeded or must not be retried |
| QueryExecution.LeakingQuery | packages/core/src/sequelize.js:374-384 | a concrete query after which a connection stays checked out |
| BulkInserts.CollectColumns | packages/mssql/src/query-generator.js:240-268 | columns, special cases and the identity flag after the first loop |
| BulkInserts.MakeCommands | packages/mssql/src/query-generator.js:293-306 | the loop over chunks of 1000 gives the specified commands, at least one |
| BulkInserts.BulkInsert | packages/mssql/src/query-interface.js:35-45 | refused exactly for more than 1000 records outside a transaction; otherwise the statements are over the union of the columns with at most 1000 rows, as few commands as that allows, more than one command means a transaction, and every record is inserted once, in order, if and only if the records are unmixed |
| BulkInserts.ColumnsAreUnion | packages/mssql/src/query-generator.js:255-267 | the columns are the union of the records' columns, each once, without auto-increment columns that are only null |
| BulkInserts.ColumnsInOrder | packages/mssql/src/query-generator.js:255-267 | they are in the order in which the records first name them |
| BulkInserts.IdentityWhenSent | packages/mssql/src/query-generator.js:256-258 | identity values are announced on every command if and only if a row that is sent has one |
| BulkInserts.ValueOfMeans | packages/mssql/src/query-generator.js:270-288 | a row has the record's value for each column the record names, and null for the others |
| BulkInserts.RecordsInOrder | packages/mssql/src/query-generator.js:270-306 | without lone nulls the statements insert every record exactly once, in order, with all its values that are not auto-increment nulls |
| BulkInserts.EveryRecordOnce | packages/mssql/src/query-generator.js:240-306 | for all records, the rows inserted are the records' own rows, each once and in order, if and only if lone null auto-increment records are not mixed with others; if not, even their number is wrong |
| BulkInserts.LoneNullIsRepeated | packages/mssql/src/query-generator.js:240-306 | a concrete pair of records that becomes three rows |

## Left out

- ManagedBlocks.RunTransaction: which writes are committed is not stated for all runs in which something fails and a savepoint is inside a savepoint, a ROLLBACK TO fails, a deadlock hits a savepoint or a callback finishes its own transaction; atomicity may be lost in each of these, as the named runs show.
- ManagedBlocks.RunCallback: a callback that finishes or queries the transaction around its own is not among its steps; what that does to connections is stated over all interleavings by the lemmas about lifecycles.
- CascadingDeletes.Destroy: branches of one cascade are run in list order and interrupted at every await by arbitrary orderly deletes of the rows the whole cascade may delete, instead of as concurrent processes; these deletes are of rows that can be deleted, since a branch that is to delete another row fails, and the call with it; branches still running after another has failed are not followed, since the transaction they use is finished.
- CascadingDeletes.DestroyInOwnTransaction: cascades that find fewer rows because the source model has a default scope or soft-deleted rows are not modelled.
- QueryExecution.QueryRaw: the retry policy is the list of attempts and whether each may be retried, run by recursion instead of the retry library's loop.
- IncludeMerging.AssignOptions: `having` is like `where`, and is left out; option trees, includes and filters are values, so sharing between a scope and a query and updates of shared option objects are not captured.
- ScopedFinds.EffectiveFilter: includes that name a scoped variant of the model, through-model scopes of many-to-many includes and grouped limits are left out.
- ModelVariants.NoDuplicateVariants: merging several scopes into one is taken as given, and `defaultScope` is not overridden during a run.
- AttributeRefresh.Attributes.RefreshAttributes: normalization of data types and references and per-column index options are left out.
- OptimisticLocking.NoLostUpdate: loads without the key or the version and edits that overwrite the key or, raw, the version are excluded.
- OptimisticLocking.SavedInstanceAgrees: runs with an after-hook that changes what was saved are excluded; what such a hook does has its own exact result.
- With `noTypeValidation` it is the database that refuses NaN as a version, an INTEGER that is not null; the model does not tell the two apart.
- The assumptions of dirty saving: no custom setters, no manual `changed(key, flag)`, no column with another attribute's name; `fields` left to its default.
- Timestamps, virtual and JSON attributes in saves, data-type comparators, nested creates of a new record, RETURNING.
- `startUnmanagedTransaction`, `withConnection`, deferred constraints; whether a transaction fits the options of a reused or savepoint block is a fault that may occur.
- Soft deletes, manual SET NULL and SET DEFAULT (which the source refuses), static `update` and `bulkCreate`.
- The second pass of `drop` and the two-pass `sync` of cyclic schemas; a sort is written out in place of the toposort library.
- A ROLLBACK TO a savepoint that does not exist is an error without effect; a failed rollback of a savepoint does not destroy the connection, as in the source, where a savepoint never hands one back.
- ManagedBlocks.Query: a query that fails has had no effect, or was a deadlock. One whose `afterQuery` hook throws after the statement has run is a write followed by a throw. PostgreSQL is left out here: there a failed query makes the whole database transaction fail, and if the callback catches the error and returns, the COMMIT rolls back without an error and the writes are lost.
- Hooks are arbitrary: transaction hooks may fail, query hooks may finish the transaction, save and validation hooks may edit the instance and throw; what else they do is left out. `pool.release` is taken not to throw.
- SQL text, quoting, drivers, connection managers, the read and write pools, and validation of option types.
