# EvoBench tools: models and proofs

A Dafny model of the algorithmic cores of the EvoBench tooling, with proofs of what they promise. Each
module follows one source file or one protocol.

| module | what it models |
|---|---|
| `FileStore`, `KeyVal`, `KeyValProtocol` | the filesystem key-value table: names, inodes, temporary files and renames; the table as one caller sees it; any number of processes that insert, delete, read and crash, step by step |
| `TimeKeys`, `QueueProtocol` | the keys of queue entries and their file names; workers that open, lock, look again, process and delete entries, and may stop anywhere |
| `TimeRanges`, `Jobs` | daily time windows on a calendar with a fixed offset; jobs, their counters, and when a queue may run them |
| `RunQueue`, `RunQueues`, `Scheduler`, `JobFate` | running one job (what becomes of it and where its copy goes), selection over all queues, the index by commit, the configuration check, and whole runs of the pipeline; one job's counters, boost, place and reports |
| `InactiveTail`, `RoundRobin` | two consequences for runs in which every job is run when its queue is open and it is the one selected: when loading the queues can panic, and how a repeating queue alternates its jobs |
| `WorkingDirectoryPool`, `Eviction`, `Checkouts` | the pool of checkouts: which one a job gets, when one is cloned or retargeted, and what its status file says; which one is given up, compared with when each was really used; at which commit each is |
| `Git`, `NewestMatch` | the commit graph with its hash index and depths, reachability, and the search for the closest matching ancestor; for which histories that is the newest one |
| `LogData` | a log file cut into chunks that are decoded in any order |
| `CallPaths` | spans grouped by call path in chunks, merged in any order |
| `Query`, `Join`, `Tree`, `SelfTime` | the filter optimizer, the join of sorted sequences, the key-path tree, and self times |
| `Decimal`, `DigitNum`, `Times`, `NumberText` | decimal text, vectors of digits, and time values with 32-bit fields whose overflow is a panic; their texts read back |
| `GrepDiff`, `Bash`, `Migrate`, `MigrateOrigins`, `MigrateTexts` | time spans in a log, quoting for the shell, and the migration of a table; the same with the origins of each text traced, and the text at every key |
| `Sequences`, `Wrappers` | facts about concatenation and splitting, and the option and result types |

Processes are state machines: a step is taken by any process at any time, and a crash (of a process, not of
the machine) is one more step, which releases the file locks of that process. What a job run, a clone, the
clock or the scheduler of the operating system decide is a parameter or a free choice, so that every statement
holds for all of them. Classes have the fields that the source updates; their methods are proved against
functions, and the laws are proved about these functions and about sequences of them. Priorities are real
numbers, of which only the order and sums matter. New keys are taken to be unique, as clock, process id and
counter make them.

Release builds keep overflow checks on (`evobench-tools/Cargo.toml:11-12`), so arithmetic overflow is a panic and
appears as the outcome `Overflow`.

## Where the code and its documentation differ

The models follow the code. In each case a lemma shows an input, or says exactly when it happens.

- A lock that `QueueItem::lock_exclusive` takes lazily, as `run_job` does, is not followed by another look at the
  entry; without a lock around the whole run two workers can run and complete the same entry
  (`QueueProtocol.LazyLockingRepeatsWork`, `QueueProtocol.OnceExactlyUnderDiscipline`); it does no harm in the runs
  in which the entry is still there whenever it is locked (`QueueProtocol.OnceWhenLocksFindTheEntry`).
- The configuration check accepts, and for an empty pipeline suggests, an `Inactive` queue at the end of the
  pipeline, but loading the queues panics once such a queue holds a job. That can come to pass exactly if every queue
  before it opens at some time of day and passes jobs on (`InactiveTail.PanicExactlyWhenLastIsReachable`); a window
  that ends when it starts is accepted too, and nothing gets past it (`InactiveTail.EmptyWindowIsNeverPassed`).
- `closest_matching_ancestor_of` returns the newest match of the commits under consideration, which need not be the
  newest matching ancestor (`Git.ResultNeedNotBeNewestMatch`). When children are newer than their parents, it is that for
  every matcher exactly if of two proper ancestors the newer one never comes up later than the other
  (`NewestMatch.FindsNewestExactly`).
- `LogData::read_file` panics on a file of just two header lines without a final newline
  (`LogData.PanicsExactlyWithoutThirdPiece`).
- `optimize` can leave an `Or` or `And` with a single child (`Query.NotIdempotent`, `Query.IdempotentExactly`).
- `checked_sub` of times panics, instead of returning `None`, when only the sub-second part is too small
  (`Times.SubIsDifference`).
- The "least-recently used" working directory is the one with the earliest recorded time of use, but the pool records
  that time only when a directory is opened or cloned, so that a full pool keeps evicting the same one
  (`WorkingDirectoryPool.EvictionHitsTheSameDirectory`), also when it was used last of all
  (`Eviction.MostRecentlyUsedIsEvicted`, `Eviction.EvictedIsEvictedAgain`). `Eviction.EvictsLeastRecentlyUsedExactly`
  says when the choice is right.
- Ids of working directories are not reused while a pool is open, but can be after it is opened again
  (`WorkingDirectoryPool.ReopenedKeeps`).
- The literal of an empty word is empty, so that such words vanish from a command line (`Bash.RoundTripExactly`).
- Migrating a table can drop an entry without handling a conflict (`Migrate.UnhandledLoss`), exactly if the entry needs
  no change itself and two or more others get its key (`MigrateOrigins.LostExactly`); and between its deletions
  and insertions the entries that move are not in the table (`Migrate.MidwayKeepsAllExactly`).

## Model

| member | source | states |
|---|---|---|
| `KeyVal.Table.Insert` | evobench-tools/src/key_val_fs/key_val.rs:393-449 | an insertion fails exactly if it is exclusive and the key is there, and then changes nothing; else the table is the old map with the value at the key, also over a left-over temporary file |
| `KeyVal.Table.Delete` | evobench-tools/src/key_val_fs/key_val.rs:453-473 | the entry is gone, no other changes, and the result tells whether there was one |
| `KeyVal.Table.Get` | evobench-tools/src/key_val_fs/key_val.rs:505-511 | the value that the table maps the key to, or none |
| `KeyValProtocol.StepKeepsInv` | evobench-tools/src/key_val_fs/key_val.rs:393-473 | every step of every process, crashes and unlocked deletions included, keeps: the lock owner alone is inside `insert`, a temporary file holds the prefix written so far, open files keep their contents, and the table is the replay of its log |
| `KeyValProtocol.TableIsLinearizable` | evobench-tools/src/key_val_fs/key_val.rs:393-473 | in every interleaved run with crashes the table is the map that results from its log of atomic operations, and each operation answered what that map demanded |
| `KeyValProtocol.FilesAreComplete` | evobench-tools/src/key_val_fs/key_val.rs:408-438 | a file named after a key always holds the complete value of some insertion for that key |
| `KeyValProtocol.ReadersAreIsolated` | evobench-tools/src/key_val_fs/key_val.rs:104-127 | a reader gets the complete value that the table held when the file was opened, however late it reads |
| `KeyValProtocol.InsertionsExcludeEachOther` | evobench-tools/src/key_val_fs/key_val.rs:406-408 | two processes are never both inside the locked part of `insert` |
| `KeyValProtocol.ExclusiveInsertOncePerDeletion` | evobench-tools/src/key_val_fs/key_val.rs:410-415 | between two publications of a key, the later one exclusive, there is a deletion of the key |
| `KeyValProtocol.InsertAfterCrash` | evobench-tools/src/key_val_fs/key_val.rs:406-449 | wherever the lock owner crashes, afterwards any idle process can complete an insertion with the effect of one atomic operation |
| `TimeKeys.NameRoundTrip` | evobench-tools/src/key_val_fs/queue.rs:87-101 | the file name of every representable key is read back as that key |
| `TimeKeys.BeforeIsNumeric` | evobench-tools/src/key_val_fs/queue.rs:35-41 | keys are ordered as numbers whose leading part is the time, then the process id, then the counter |
| `TimeKeys.NamesAreFilenames` | evobench-tools/src/key_val_fs/as_key.rs:5-31 | the file name of every key satisfies the rules for names, so the assertions on it cannot fail |
| `TimeKeys.NameIsOfItsKey` | evobench-tools/src/key_val_fs/queue.rs:93-100 | a file whose name parses is the file of its key exactly when the three numbers have no sign and no leading zero |
| `TimeKeys.ForeignName` | evobench-tools/src/key_val_fs/queue.rs:93-100 | a name with a plus sign parses to a key whose file is another one |
| `QueueProtocol.StepKeepsInv` | evobench-tools/src/key_val_fs/queue.rs:196-294 | every step of a worker, stop, push and outside removal keeps the relation between entries, locks, phases of workers and the log, for users that look again and for users that exclude each other altogether |
| `QueueProtocol.CompletedAtMostOnce` | evobench-tools/src/key_val_fs/queue.rs:211-250 | in no run is an entry completed twice |
| `QueueProtocol.ProcessedAgainOnlyAfterStop` | evobench-tools/src/key_val_fs/queue.rs:211-250 | an entry is processed again only if the worker that processed it before stopped before it was done |
| `QueueProtocol.WorkersExcludeEachOther` | evobench-tools/src/key_val_fs/queue.rs:222-248 | two workers never hold the same entry |
| `QueueProtocol.NothingIsLost` | evobench-tools/src/key_val_fs/queue.rs:427-470 | a pushed entry that no outsider removes is in the queue exactly until a worker completes it |
| `QueueProtocol.DeleteFirstProcessesAtMostOnce` | evobench-tools/src/key_val_fs/queue.rs:245-247 | if all users delete first, no entry is processed twice, also with crashes |
| `QueueProtocol.DeleteLastProcessesBeforeCompletion` | evobench-tools/src/key_val_fs/queue.rs:263-269 | if all users delete last, an entry is completed only after the same worker processed it |
| `QueueProtocol.LazyLockingRepeatsWork` | evobench-tools/src/key_val_fs/queue.rs:271-287 | a run in which two workers that lock lazily both process and complete one entry |
| `QueueProtocol.OnceExactlyUnderDiscipline` | evobench-tools/src/key_val_fs/queue.rs:271-287 | completion is unique in all runs if and only if users look again after locking or run one at a time |
| `QueueProtocol.OnceWhenLocksFindTheEntry` | evobench-tools/src/key_val_fs/queue.rs:271-287 | any run, also of users that lock lazily, completes no entry twice and repeats work only after a stop, if the entry is there at every lazy locking |
| `QueueProtocol.TakeOverAfterStop` | evobench-tools/src/key_val_fs/queue.rs:239-248 | once the worker that holds an entry has stopped, any idle worker can lock, process and complete it |
| `TimeRanges.LocalNaiveTime.LessIsEarlier` | evobench-tools/src/serde_types/date_and_time.rs:91-99 | the field-by-field order of times of day is the order in time |
| `TimeRanges.LocalNaiveTime.NanosAreOnClock` | evobench-tools/src/serde_types/date_and_time.rs:91-99 | a time of day is so many full seconds after midnight, of which the fields are the hours, minutes and seconds |
| `TimeRanges.LocalNaiveTimeRange.NotInsideIsNextStart` | evobench-tools/src/date_and_time/time_ranges.rs:107-174 | with `false` the result is the earliest daily occurrence that starts strictly after the time |
| `TimeRanges.LocalNaiveTimeRange.InsideIsTheContainingOne` | evobench-tools/src/date_and_time/time_ranges.rs:107-174 | with `true` the result is the only occurrence that contains the time if there is one, else the earliest that starts after it |
| `TimeRanges.LocalNaiveTimeRange.OccurrencesAreDisjoint` | evobench-tools/src/date_and_time/time_ranges.rs:66-96 | no two daily occurrences share a point in time |
| `TimeRanges.LocalNaiveTimeRange.TomorrowStartsLater` | evobench-tools/src/date_and_time/time_ranges.rs:142-151 | tomorrow's occurrence starts after the time, so the `todo!()` cannot be reached |
| `TimeRanges.LocalNaiveTimeRange.ResultInsideCalendar` | evobench-tools/src/date_and_time/time_ranges.rs:98-106 | there is a result except at the edges of the calendar |
| `TimeRanges.LocalNaiveTimeRange.InsideExactlyOnClock` | evobench-tools/src/date_and_time/time_ranges.rs:207-212 | the result contains the time exactly if the time of day lies in the window on the clock face |
| `Jobs.ScheduleCondition.RunnableExactlyInWindow` | evobench-tools/src/run/config.rs:234-267 | a windowed queue is runnable exactly while the clock is in its window, which the returned window contains |
| `RunQueue.RunQueue.PushFront` | evobench-tools/src/run/run_queue.rs:55-58 | the job is inserted under the new key in key order, unless the key exists |
| `RunQueue.RunQueueWithNext.RunAndPush` | evobench-tools/src/run/run_queue.rs:239-341 | whether the job runs, its new counters, the queue that its copy goes to and the status, for every combination of budget, count, outcome, condition and configured queues; the old entry is still there |
| `RunQueue.RunQueueWithNext.RunJob` | evobench-tools/src/run/run_queue.rs:168-344 | the same with the old entry deleted at the end; after a failed push nothing has changed |
| `RunQueue.RunQueueWithNext.FinishCompletedJob` | evobench-tools/src/run/run_queue.rs:184-206 | a completed job goes to the queue for done jobs if there is one, and the status says whether |
| `RunQueue.RunQueueWithNext.HandleOutOfErrorBudget` | evobench-tools/src/run/run_queue.rs:208-230 | a job out of error budget goes to the queue for erroneous jobs if there is one, and the status says whether |
| `RunQueue.RunQueueWithNext.HandleTimeout` | evobench-tools/src/run/run_queue.rs:346-371 | when the condition says so, all entries move to the next queue from the oldest on, or are dropped if there is none; an error leaves the first ones moved and the others in place |
| `RunQueue.MovedInOrder` | evobench-tools/src/run/run_queue.rs:353-364 | with a clock that goes forward the moved jobs keep their order behind those already there |
| `RunQueue.InsertAt` | evobench-tools/src/key_val_fs/queue.rs:378-386 | inserting into a sorted queue puts the entry at one place and leaves all others as they are, sorted |
| `RunQueue.RemoveAt` | evobench-tools/src/key_val_fs/key_val.rs:145-163 | deleting a key from a sorted queue takes out exactly its entry |
| `JobFate.RunSpendsOne` | evobench-tools/src/run/run_queue.rs:239-341 | the entry under the new key has exactly one less error budget after a failure and exactly one less count after a success, the same job and base priority, no boost, and the working directory noted; a job that cannot be run keeps both counters |
| `JobFate.RunJobIsAtItsPlace` | evobench-tools/src/run/run_queue.rs:239-341 | the new key is in exactly one queue, or none: the current one after a failure that may be repeated and in a repeating queue, the next one after a success that is not the last, the queue for erroneous or done jobs when one counter is spent |
| `JobFate.ReportSaysWhy` | evobench-tools/src/run/run_queue.rs:239-341 | each status is answered only for the counters, the outcome and the queues that it stands for |
| `JobFate.ReportedExactlyWhenSpent` | evobench-tools/src/run/run_queue.rs:239-343 | over every run without crashes a job inserted once with count c and error budget e has exactly what its runs have left of both, is reported done exactly when it has succeeded c times and failed exactly when it has failed e times, and is in the pipeline exactly while it is reported active |
| `JobFate.BoostIsForOneRun` | evobench-tools/src/run/benchmarking_job.rs:233-251 | over every run, an entry of the pipeline that has a boost has not been run since the start or its insertion |
| `JobFate.InsertedIsFirst` | evobench-tools/src/run/run_queue.rs:55-58 | an inserted job is in the first queue and in no other |
| `Scheduler.JobsAreConserved` | evobench-tools/src/run/run_queue.rs:168-344 | a completed step keeps the number of copies of every job, less one for the job that ran if its status says it is gone; between push and deletion no copy is missing and at most one more is there |
| `Scheduler.NothingIsLostInCrashes` | evobench-tools/src/run/run_queue.rs:257-343 | over every run with crashes between push and deletion, the copies of a job are those at the start and those inserted, less those reported gone, plus at most one for each crash |
| `Scheduler.StatusTellsWhere` | evobench-tools/src/run/run_queue.rs:130-147 | the status of a job says in which queue its copy is, whether it is retained, and which counter is zero; active means both are positive and the copy is in the pipeline |
| `Scheduler.CopyArrives` | evobench-tools/src/run/run_queue.rs:257-343 | after a step the old entry is gone and the copy is at its destination |
| `Scheduler.TallyIsBounded` | evobench-tools/src/run/run_queue.rs:239-343 | over every run, each tally of runs, successes, failures or steps stays within what the jobs had at the start and what insertions brought |
| `Scheduler.JobRunsAreBounded` | evobench-tools/src/run/run_queue.rs:239-343 | a job inserted with count c and error budget e succeeds at most c times, fails at most e times and runs at most c + e - 1 times, whatever else happens |
| `Scheduler.TallyIsBoundedInCrashes` | evobench-tools/src/run/run_queue.rs:239-343 | over every run with crashes between push and deletion, each tally, which counts the runs before a crash too, stays within that and what the old entries that crashes leave allow |
| `Scheduler.JobRunsAreBoundedInCrashes` | evobench-tools/src/run/run_queue.rs:239-343 | the bounds for an inserted job, times one more than the number of crashes of its runs |
| `Scheduler.PipelineComesToRest` | evobench-tools/src/run/run_queues.rs:453-500 | without insertions the number of steps is bounded by the counters in the pipeline |
| `Scheduler.WorkLeftFalls` | evobench-tools/src/run/run_queue.rs:257-343 | every job run strictly lowers the sum of counts and error budgets in the pipeline |
| `Scheduler.StepKeepsPositive` | evobench-tools/src/run/run_queue.rs:239-343 | if only jobs with positive counters are inserted, only such jobs are in the pipeline |
| `Scheduler.RunKeepsPositive` | evobench-tools/src/run/run_queue.rs:239-343 | so over every run, and then every step that takes a job really runs it |
| `Scheduler.WorkLeftBoundsRuns` | evobench-tools/src/run/run_queue.rs:257-343 | a run without insertions has at most as many steps as that sum falls by |
| `Scheduler.StepKeepsSorted` | evobench-tools/src/key_val_fs/queue.rs:378-386 | every step, also one that stops before the deletion, keeps all queues in key order |
| `RunQueues.Best` | evobench-tools/src/run/run_queues.rs:402-407 | the first of the most prioritized entries of a queue |
| `RunQueues.SelectionIsGlobalOptimum` | evobench-tools/src/run/run_queues.rs:387-410 | the two-stage minimum is the one entry that precedes all others of all runnable queues: higher total priority, else earlier queue, else older key; none exactly if there is no candidate |
| `RunQueues.SelectionHasLargestSum` | evobench-tools/src/run/run_queues.rs:387-410 | base priority plus boost plus the queue's share (0, the configured one, or 1.5 for windows) of the selected entry is at least that of every other entry of a runnable queue, and for equal sums its queue is earlier, or the same and the entry older |
| `RunQueues.SelectedStepIsEnabled` | evobench-tools/src/run/run_queues.rs:453-496 | what is selected is a step of the scheduler, with the effect of that step |
| `RunQueues.RunQueues.Data` | evobench-tools/src/run/run_queues.rs:106-131 | loading fails exactly if an inactive queue of the pipeline holds a job; else the data is a copy of the queues with a correct index |
| `RunQueues.RunQueuesData.IndexIsFullScan` | evobench-tools/src/run/run_queues.rs:316-329 | the index says that there is a job for a commit exactly if a scan of all queues finds one |
| `RunQueues.PositionsMembers` | evobench-tools/src/run/run_queues.rs:112-125 | the indexed positions of a commit are exactly the positions of its jobs |
| `RunQueues.PositionsAreInOrder` | evobench-tools/src/run/run_queues.rs:112-125 | and are listed queue by queue, from the oldest entry on |
| `RunQueues.BuildIndex` | evobench-tools/src/run/run_queues.rs:112-125 | the nested loops build the index of all positions, in order |
| `RunQueues.RunQueues.RunNextJob` | evobench-tools/src/run/run_queues.rs:453-500 | the selected job is run and nothing else changes; nothing happens when none is selected or when its entry has disappeared |
| `RunQueues.RunQueues.CheckRunQueues` | evobench-tools/src/run/run_queues.rs:149-224 | accepts exactly the configurations with queues, distinct names, non-empty stop-start commands, no inactive queue before the last, and inactive extra queues |
| `RunQueues.SelectedRunIsRun` | evobench-tools/src/run/run_queues.rs:361-410 | what is proved for all runs of the scheduler holds for those in which time goes forward and each job is the one selected at its time |
| `InactiveTail.PanicExactlyWhenLastIsReachable` | evobench-tools/src/run/run_queue.rs:66-77 | for an accepted configuration taken into use at any time, jobs can be inserted, and run when they are selected, such that loading panics, if and only if the last queue is inactive, every earlier one has no window or one that is not empty and does not repeat, and a count of at most 255 lasts through them |
| `InactiveTail.EmptyWindowIsNeverPassed` | evobench-tools/src/run/run_queues.rs:361-384 | an accepted pipeline of a queue with an empty window and an inactive one never panics |
| `RoundRobin.OldestIsSelected` | evobench-tools/src/run/run_queues.rs:402-407 | of jobs with equal priority the oldest is selected |
| `RoundRobin.RunRotates` | evobench-tools/src/run/run_queue.rs:290-319 | in a repeating queue a run moves the oldest job to the end, or out of the queue, and no other job |
| `RoundRobin.EachWaitingJobRunsOnce` | evobench-tools/src/run/config.rs:80-84 | between two runs of a job every job that was waiting is run exactly once, and later arrivals not at all |
| `RoundRobin.QueueIsRoundRobin` | evobench-tools/src/run/run_queue.rs:257-319 | the same in every run of the whole scheduler whose jobs are the selected ones, if the jobs of the repeating queue, at first and on arrival, have equal base priorities and no boost, and new keys are later; with anything going on in the other queues |
| `WorkingDirectoryPool.RunKeeps` | evobench-tools/src/run/working_directory_pool.rs:786-956 | over every sequence of selections, actions and deletions the active directories stay within the capacity, or within their number at the start, and no old id comes back |
| `WorkingDirectoryPool.GivenIsActive` | evobench-tools/src/run/working_directory_pool.rs:927-956 | every id that is given out anywhere in a run is that of an active directory |
| `WorkingDirectoryPool.DeletedNeverReturns` | evobench-tools/src/run/working_directory_pool.rs:836-857 | the id of a deleted directory is never given out nor in use again |
| `WorkingDirectoryPool.FailureSetsAside` | evobench-tools/src/run/working_directory_pool.rs:698-726 | the directory of a failed action stays, and is never given out again, whatever follows |
| `WorkingDirectoryPool.FittingIsPreferred` | evobench-tools/src/run/working_directory_pool.rs:877-917 | a directory fits exactly if an active one has the commit or has one that no queued job needs; the one taken has the best status, and of equal ones the highest id |
| `WorkingDirectoryPool.NeededIsRetargetedOnlyWhenFull` | evobench-tools/src/run/working_directory_pool.rs:927-956 | a directory whose commit a queued job needs is given to a job for another commit if and only if no active one has the wanted commit, every active one is needed by a scan of all queues, and the pool is full |
| `WorkingDirectoryPool.EvictionHitsTheSameDirectory` | evobench-tools/src/run/working_directory_pool.rs:942-953 | while the pool is full, actions succeed and it is not opened again, every job that no directory fits gets the same directory |
| `Eviction.RecordedIsNotLater` | evobench-tools/src/run/working_directory.rs:360-442 | over every run the recorded time of use of a directory is never later than the true one, and equal to it until an action is run |
| `Eviction.EvictsLeastRecentlyUsedExactly` | evobench-tools/src/run/working_directory_pool.rs:942-953 | the directory that a full pool gives up after any run is the least recently used active one if and only if no action was run in it since opening, or every other active one was used since its last use |
| `Eviction.EvictedIsEvictedAgain` | evobench-tools/src/run/working_directory_pool.rs:942-953 | a directory that is given up and then used successfully is the most recently used one, and is given up again for the next job that no directory fits |
| `Eviction.MostRecentlyUsedIsEvicted` | evobench-tools/src/run/working_directory_pool.rs:942-953 | a pool of two, with jobs for both commits, that gives up the directory used at time 3 and not the one used at time 2 |
| `Checkouts.ProcessedDirectory` | evobench-tools/src/run/working_directory_pool.rs:633-728 | after an action its directory is at the commit that was checked out, or where it was, has one more run unless one was under way, and is finished or failed, also in the file; no other directory has changed |
| `Checkouts.RecordedCommitIsLastCheckout` | evobench-tools/src/run/working_directory.rs:577-599 | over every run each directory is recorded at the commit that was last checked out in it, or cloned |
| `Checkouts.RecordedRunsAreActions` | evobench-tools/src/run/working_directory.rs:601-640 | over every run the count of a directory's status is the number of actions that were run in it, and only one that was found processing can still be so |
| `Checkouts.CheckoutIsFoundAgain` | evobench-tools/src/run/working_directory_pool.rs:877-956 | after any run, a job checks out its commit and succeeds; as long as that directory is neither deleted nor used again, the next job for the commit gets an active directory at it, without cloning |
| `Checkouts.NewDirectoryFields` | evobench-tools/src/run/working_directory.rs:425-450 | a new directory is at the cloned commit, checked out, unused, with the time of cloning |
| `Checkouts.FittingIsFinishedIfAny` | evobench-tools/src/run/working_directory_pool.rs:877-900 | if an active directory at the commit is finished, the one chosen is finished, and none of those has a higher id |
| `Checkouts.FinishedIsPreferred` | evobench-tools/src/run/working_directory.rs:79-97 | of usable directories, finished is preferred to processing and processing to checked out |
| `Checkouts.FirstIsLowest` | evobench-tools/src/run/working_directory_pool.rs:786-793 | the first directory is the active one with the lowest id |
| `WorkingDirectoryPool.ReopenedKeeps` | evobench-tools/src/run/working_directory_pool.rs:440-526 | opening again keeps directories, commits, statuses and run counts; the next id is the same if and only if the directory with the last id used still exists |
| `WorkingDirectoryPool.Pool.GetFirst` | evobench-tools/src/run/working_directory_pool.rs:786-793 | the first active directory, or a new one if there is none |
| `WorkingDirectoryPool.Pool.GetNew` | evobench-tools/src/run/working_directory_pool.rs:795-809 | a new directory under the next id, which is used up also when cloning fails |
| `WorkingDirectoryPool.Pool.GetAWorkingDirectoryFor` | evobench-tools/src/run/working_directory_pool.rs:927-956 | a fitting directory, else a new one below capacity, else the one with the earliest recorded use |
| `WorkingDirectoryPool.Pool.DeleteWorkingDirectory` | evobench-tools/src/run/working_directory_pool.rs:836-851 | removes exactly that directory, or fails if there is none |
| `WorkingDirectoryPool.Pool.SetAndSaveStatus` | evobench-tools/src/run/working_directory.rs:601-640 | the new status, with one more run when it becomes processing, is in memory and in the status file; no other directory changes |
| `WorkingDirectoryPool.Pool.ProcessInWorkingDirectory` | evobench-tools/src/run/working_directory_pool.rs:633-728 | refuses missing and set-aside directories, which changes neither the map nor a status; else the status goes through processing and perhaps a checkout to finished or error |
| `Git.GitGraphData.UncheckedPush` | evobench-tools/src/git.rs:150-173 | appends the commit with one more than the greatest depth of its parents and indexes its hash; keeps the graph consistent if the hash is new |
| `Git.DepthIsLongestChain` | evobench-tools/src/git.rs:156-162 | the cached depth is the length of the longest chain of parents, and some chain has it |
| `Git.GitGraphData.HistoryFrom` | evobench-tools/src/git.rs:175-200 | the loop ends and returns exactly the commits reached by zero or more parent steps |
| `Git.VisitedAreTheReached` | evobench-tools/src/git.rs:175-200 | a visited set that is closed under parents and was reached is the set of all reached commits |
| `Git.GitGraphData.ClosestMatchingAncestorOf` | evobench-tools/src/git.rs:207-257 | the search ends for every way to break ties; none means that no commit reached matches; a result matches, is reached on a path without an earlier match, and is the newest match under consideration |
| `Git.SearchFindsFirstMatch` | evobench-tools/src/git.rs:226-239 | what comes up to be returned matches and is reached without passing another match |
| `Git.ExhaustedSearchMeansNoMatch` | evobench-tools/src/git.rs:226-256 | when nothing is left to follow, neither the commit nor any ancestor matches |
| `Git.OtherMatchesAreNotNewer` | evobench-tools/src/git.rs:226-255 | if no commit is older than its parents, every matching ancestor is at most as new as some commit under consideration at the end |
| `Git.NewerOnesWereFollowed` | evobench-tools/src/git.rs:226-255 | every ancestor that is newer than all commits under consideration at the end was followed to its parents, and does not match |
| `Git.NewestIsByCommitterTime` | evobench-tools/src/git.rs:226-239 | the newest of some commits is the one with the greatest committer time |
| `Git.ResultNeedNotBeNewestMatch` | evobench-tools/src/git.rs:202-239 | a history in which a newer matching ancestor exists than the one found |
| `NewestMatch.FindsNewestExactly` | evobench-tools/src/git.rs:207-257 | for commits newer than their parents, the result is the newest matching ancestor, for all matchers and ways to break ties, if and only if of any two proper ancestors the newer one comes up, as a parent of its newest child, no later than the other |
| `Git.GitGraphData.FromCommits` | evobench-tools/src/git.rs:339-382 | adding a history given oldest first keeps ids smaller for parents, index and depths correct, and old commits in place; it records exactly the new commits with their parents, returns the id of the last one, and changes nothing for a known history |
| `LogData.ChunksPartition` | evobench-tools/src/evaluator/data/log_data.rs:97-136 | the chunks concatenate to the input, fit the chunk size and end where lines end |
| `LogData.ChunkingSucceedsExactly` | evobench-tools/src/evaluator/data/log_data.rs:98-111 | cutting succeeds if and only if every line is ended and fits a chunk |
| `LogData.ChunksAreLongest` | evobench-tools/src/evaluator/data/log_data.rs:97-113 | no chunk could have held the next line too |
| `LogData.CutIntoChunks` | evobench-tools/src/evaluator/data/log_data.rs:93-136 | the loop ends and yields those chunks, or the number of the chunk without a line break |
| `LogData.ChunkDecodesItsLines` | evobench-tools/src/evaluator/data/log_data.rs:119-130 | a task decodes exactly the lines of its chunk, when lines are not empty and do not end in white space that matters |
| `LogData.TrimsAsciiWhitespace` | evobench-tools/src/evaluator/data/log_data.rs:119-124 | what is trimmed at the end of a chunk are the five kinds of white space |
| `LogData.DecodedIsEach` | evobench-tools/src/evaluator/data/log_data.rs:119-130 | decoding gives the message of each line in order, or tells the first line that cannot be decoded |
| `LogData.ChunkedIsLineByLine` | evobench-tools/src/evaluator/data/log_data.rs:116-151 | decoding in chunks gives the messages of decoding line by line, or the same first bad line |
| `LogData.RunTasks` | evobench-tools/src/evaluator/data/log_data.rs:116-134 | for every order of completion the result of each task is in its slot |
| `LogData.AutoVivify.AutoGetMut` | evobench-tools/src/utillib/auto_vivify.rs:9-25 | the vector grows to hold the slot, with generated values, and keeps what it had |
| `LogData.ReadFile` | evobench-tools/src/evaluator/data/log_data.rs:72-182 | the outcome, with every error and the panic, is a function of the input alone, whatever the order of completion |
| `LogData.ReadingIsLineByLine` | evobench-tools/src/evaluator/data/log_data.rs:88-175 | a file whose lines fit is read as if decoded line by line, with the end mark last; each error that remains says so of the line-by-line result |
| `LogData.FileIsReadLineByLine` | evobench-tools/src/evaluator/data/log_data.rs:72-182 | for a file of two right header lines and a body: if its lines fit and are tidy, the answer is the one for decoding the lines of the body, with the version of the first and the metadata of the second line; if they do not fit, and only then, a line break is reported missing |
| `LogData.FirstLineIsChecked` | evobench-tools/src/evaluator/data/log_data.rs:75-87 | each error of the first line: not decoded, not the start, or no second line |
| `LogData.SecondLineIsChecked` | evobench-tools/src/evaluator/data/log_data.rs:83-94 | each error of the second line: not decoded, not the metadata, or the panic without a newline behind it; else the body is what follows that newline |
| `LogData.PanicsExactlyWithoutThirdPiece` | evobench-tools/src/evaluator/data/log_data.rs:94-94 | reading panics if and only if the two header lines are right and no newline follows the second |
| `CallPaths.FromLogDataIndex` | evobench-tools/src/evaluator/index_by_call_path.rs:25-78 | for every order and grouping of the merges, each path has the same spans, equally often, as by grouping all spans directly, and paths without spans are not there |
| `CallPaths.AnyOrderIsDirect` | evobench-tools/src/evaluator/index_by_call_path.rs:36-67 | the spans at a path over any permutation of the chunks are those of the whole, and in the same order for chunks in order |
| `CallPaths.DirectIsProduct` | evobench-tools/src/evaluator/index_by_call_path.rs:36-55 | at a path a span is as often as it is given, times the number of path options that give it that path |
| `CallPaths.IndexChunk` | evobench-tools/src/evaluator/index_by_call_path.rs:36-55 | the loops over spans and path options group exactly the spans of the chunk |
| `CallPaths.Merge` | evobench-tools/src/evaluator/index_by_call_path.rs:56-67 | merging appends the spans of the second index to those of the first at every path |
| `Query.Optimize` | evobench-tools/src/silo/query.rs:119-230 | the loops of the optimizer compute the recursive form that the following lemmas are about |
| `Query.OptimizePreservesMeaning` | evobench-tools/src/silo/query.rs:119-188 | the optimized expression has the same truth value under every valuation of the leaves, with exact and at-least n-of |
| `Query.OptimizeNeverGrows` | evobench-tools/src/silo/query.rs:119-188 | the optimized expression is not larger |
| `Query.OptimizeFlattens` | evobench-tools/src/silo/query.rs:119-172 | there is no `Or` in an `Or`, no `And` in an `And` and no `Not` in a `Not` anywhere in the result |
| `Query.OptimizeKeepsLeaves` | evobench-tools/src/silo/query.rs:119-188 | the conditions are the same from left to right: none is lost, repeated or moved |
| `Query.IdempotentExactly` | evobench-tools/src/silo/query.rs:119-172 | optimizing again changes nothing if and only if, by a count of children made beforehand, splicing leaves no node with a single child |
| `Query.IdempotentWithoutEmpty` | evobench-tools/src/silo/query.rs:119-172 | in particular for expressions without empty `Or` and `And` |
| `Query.NotIdempotent` | evobench-tools/src/silo/query.rs:121-142 | an expression for which it is not so |
| `Join.InnerJoinIsJoin` | evobench-tools/src/join.rs:27-77 | for any number of sorted sequences the join by halves is sorted, a key occurs as often as in the sequence with fewest, and its j-th row lists the j-th values in input order |
| `Join.InnerJoinIsOneByOne` | evobench-tools/src/join.rs:62-75 | the join by halves equals joining one sequence after the other |
| `Join.Join2Vals` | evobench-tools/src/join.rs:11-25 | joining two sorted sequences pairs the j-th values of each key |
| `Join.SortedIsDetermined` | evobench-tools/src/join.rs:27-31 | a sorted sequence is determined by its values for each key |
| `Join.JoinOfParts` | evobench-tools/src/join.rs:62-75 | joining the joins of two groups is the join of all, wherever the groups are split |
| `Tree.GetAfterInsert` | evobench-tools/src/util/tree.rs:20-46 | insertion updates the map from paths to values at that path and nowhere else |
| `Tree.FromKeyVal` | evobench-tools/src/util/tree.rs:48-56 | the loop inserts all pairs in order |
| `Tree.FromKeyValIsMap` | evobench-tools/src/util/tree.rs:48-56 | a tree made from pairs has at each path the last value given for it |
| `Tree.ListedExactly` | evobench-tools/src/util/tree.rs:90-105 | a pair is listed if and only if the tree has that value at that path |
| `Tree.FlattenIsIncreasing` | evobench-tools/src/util/tree.rs:80-105 | the pairs are listed in strictly increasing path order, so each once |
| `Tree.Walk.IntoJoinedKeyVal` | evobench-tools/src/util/tree.rs:82-105 | the recursive walk that pushes and pops path parts appends the joined pairs below the current path and restores the path |
| `Tree.RebuildKeepsMeaning` | evobench-tools/src/util/tree.rs:48-105 | the tree made from the flattened tree has the same value at every path |
| `Tree.ForthAndBack` | evobench-tools/src/util/tree.rs:48-105 | for a tree made from pairs it is the same tree |
| `Tree.TextForthAndBack` | evobench-tools/src/util/tree.rs:48-130 | a tree made from lines whose paths are split at a separator, and written with it: splitting what is written gives the listed paths and the same tree |
| `Tree.TreesAreDetermined` | evobench-tools/src/util/tree.rs:7-26 | trees without useless nodes that have the same values are equal |
| `SelfTime.SelfTimesSumUp` | evobench-tools/src/evaluator/all_outputs_all_fields_table.rs:185-218 | the self times add up to the inclusive time and what parents lack for their children |
| `SelfTime.TimeIsConservedExactly` | evobench-tools/src/evaluator/all_outputs_all_fields_table.rs:196-218 | the sum is never less than the inclusive time, and equal if and only if no node with a value is below its children's sum |
| `SelfTime.FixActsOnEverySubtree` | evobench-tools/src/evaluator/all_outputs_all_fields_table.rs:210-217 | every node is fixed with the original values of its children |
| `SelfTime.FixedValueAtPath` | evobench-tools/src/evaluator/all_outputs_all_fields_table.rs:196-218 | the same paths have values as before, and each is the old value less the original sum of its children, or 0 if that is more |
| `SelfTime.SamePathsAreListed` | evobench-tools/src/evaluator/all_outputs_all_fields_table.rs:295-301 | the rows that are written have the same paths in the same order as without the correction |
| `SelfTime.EverySubtreeConserves` | evobench-tools/src/evaluator/all_outputs_all_fields_table.rs:185-218 | in a consistent tree the self times below any node add up to its original inclusive time |
| `SelfTime.FixPanicsExactly` | evobench-tools/src/evaluator/all_outputs_all_fields_table.rs:185-218 | with 64-bit sums there is a panic if and only if the children of some node with a value sum up to 2^64 or more; else the result is the same |
| `SelfTime.ConsistentNeverPanics` | evobench-tools/src/evaluator/all_outputs_all_fields_table.rs:185-218 | a consistent tree of 64-bit values never panics |
| `DigitNum.DigitNum.PushLowestDigit` | evobench-tools/src/digit_num.rs:66-71 | the value becomes ten times the old one and the digit, without leading zeros |
| `DigitNum.DigitNum.Write` | evobench-tools/src/digit_num.rs:73-133 | the loops write the value divided by the power of ten, grouped by threes from the dot outwards when asked, with the digits after the dot padded |
| `DigitNum.CutIsDivision` | evobench-tools/src/digit_num.rs:78-97 | the digits before and after the dot are quotient and remainder by a power of ten |
| `DigitNum.WholeAndPart` | evobench-tools/src/digit_num.rs:78-97 | the two parts of a number that are printed are its quotient and remainder by a power of ten |
| `NumberText.WrittenIsRead` | evobench-tools/src/digit_num.rs:73-133 | what is written reads, without separators, as the whole part, a dot where it is asked for, and as many digits as the precision says, which together make the number |
| `DigitNum.DigitNum.ToU64` | evobench-tools/src/digit_num.rs:144-156 | the value if it fits 64 bits, else out of range, although the check is made at every digit |
| `Decimal.BreaksAreGroups` | evobench-tools/src/digit_num.rs:78-93 | counting down from the first digit makes the groups of three that are counted from the right |
| `Decimal.ChunksAreGroups` | evobench-tools/src/times.rs:216-225 | joining the chunks of three taken from the right makes these groups too |
| `Times.AddIsSum` | evobench-tools/src/times.rs:122-141 | addition is addition of increments and keeps the sub-second part valid; it panics if and only if the sum is not representable |
| `Times.SubIsDifference` | evobench-tools/src/times.rs:151-162 | subtraction gives the difference if and only if the minuend is not smaller; else none for smaller seconds, and a panic for equal seconds |
| `Times.SubUndoesAdd` | evobench-tools/src/times.rs:122-162 | subtracting what was added gives back the time |
| `Times.IncrementsDetermine` | evobench-tools/src/times.rs:116-120 | a valid time is determined by its number of increments |
| `Times.RoundTrips` | evobench-tools/src/times.rs:175-184 | conversion from a number succeeds exactly for seconds that fit 32 bits, and conversions undo each other |
| `Times.ResolutionsAgree` | evobench-tools/src/times.rs:243-273 | both resolutions accept the same microseconds, mean the same instant, agree with the conversion between them, and stay within 64 bits |
| `Times.SecondsArePrinted` | evobench-tools/src/times.rs:335-347 | seconds are printed as `DigitNum` writes the increments |
| `Times.MillisecondsArePrinted` | evobench-tools/src/times.rs:319-333 | milliseconds are printed as `DigitNum` writes the increments if they fit 32 bits, and panic exactly if they do not |
| `Times.DisplayIsExact` | evobench-tools/src/times.rs:227-317 | in every unit the text shows all digits of the increments in groups of three, with the dot where the unit says |
| `NumberText.TextIsPrinted` | evobench-tools/src/times.rs:227-317 | the whole text is the number of increments as `DigitNum` writes it with the dot for the unit, a space and the unit, which is the largest that fits |
| `GrepDiff.FindMatchingSpansFor` | evobench-tools/src/util/grep_diff.rs:78-116 | reports the spans of the one greedy choice with their lines and timestamps, or as an error the start line without an end |
| `GrepDiff.MatchReadsTheLine` | evobench-tools/src/util/grep_diff.rs:84-92 | a line counts exactly if what precedes its first tab is a timestamp and what follows matches, and that is what is taken from it |
| `GrepDiff.RenderedIsRead` | evobench-tools/src/util/grep_diff.rs:84-110 | the k-th span has the timestamps, texts and line numbers, from the given one on, of the start and end line of the k-th pair |
| `GrepDiff.SearchIsGreedy` | evobench-tools/src/util/grep_diff.rs:84-115 | each start is the first free start line, each end the first end line after it, and after the last end there is no start or one without an end |
| `GrepDiff.GreedyIsSearch` | evobench-tools/src/util/grep_diff.rs:84-115 | only one result is greedy |
| `GrepDiff.GreedyIsDisjoint` | evobench-tools/src/util/grep_diff.rs:84-115 | the spans are in order and share no line |
| `GrepDiff.FindsTheMost` | evobench-tools/src/util/grep_diff.rs:84-115 | no choice of disjoint spans has more of them |
| `GrepDiff.UnmatchedWhen` | evobench-tools/src/util/grep_diff.rs:76-110 | there is an error when a start line has no end line at or after it, and only when one has no end line after it |
| `GrepDiff.DurationIsDifference` | evobench-tools/src/util/grep_diff.rs:37-53 | a duration is given exactly if the end is not earlier and the span is under 2^32 seconds, and is then the exact difference |
| `Bash.BashStringLiteral` | evobench-tools/src/io_utils/bash.rs:9-30 | the loop writes the literal that the following lemmas are about |
| `Bash.QuotedOnlyIfNeeded` | evobench-tools/src/io_utils/bash.rs:6-14 | a word is written as it is exactly if it has only letters, digits and the twelve listed signs |
| `Bash.FromProgramAndArgs` | evobench-tools/src/io_utils/bash.rs:38-48 | program and arguments make the same text as the words of the command |
| `Bash.WordsOfCmd` | evobench-tools/src/io_utils/bash.rs:32-36 | the shell reads back exactly the words that are not empty, in order, and meets no operator, expansion or comment outside of quotes |
| `Bash.RoundTripExactly` | evobench-tools/src/io_utils/bash.rs:32-36 | quoting is undone if and only if no word is empty |
| `Bash.ExportIsOneArgument` | evobench-tools/src/io_utils/bash.rs:64-70 | for every name and value, exporting is the command with one argument |
| `Migrate.MigrateKeyVal` | evobench-tools/src/run/migrate.rs:45-136 | an unreadable value stops the migration before any change; else the table and the count are those of the plan carried out, and if new keys are distinct exactly the old entries are there under their new keys |
| `Migrate.InjectiveKeepsAll` | evobench-tools/src/run/migrate.rs:45-136 | with distinct new keys no conflict is handled, there is no error, and nothing is lost or added |
| `Migrate.QueueMigrationKeepsKeys` | evobench-tools/src/run/migrate.rs:138-147 | migrating a queue succeeds, keeps the keys and only replaces texts |
| `Migrate.MidwayKeepsAllExactly` | evobench-tools/src/run/migrate.rs:96-99 | for every readable table: between deletions and insertions every entry is in the table if and only if none moves |
| `Migrate.UnhandledLoss` | evobench-tools/src/run/migrate.rs:99-116 | three entries with one new key, of which one is lost without being handled as a conflict |
| `MigrateOrigins.TracingErases` | evobench-tools/src/run/migrate.rs:45-136 | a migration that traces which entries each text was made from gives the same table and the same outcome |
| `MigrateOrigins.LostExactly` | evobench-tools/src/run/migrate.rs:45-136 | if no conflict is refused, nothing in the table was made from an entry any more if and only if the entry needs no change itself and two or more others get its key |
| `MigrateTexts.TextAtKey` | evobench-tools/src/run/migrate.rs:45-136 | if no conflict is refused, for every table and key: what is at the key is what was there, the result of the handler for that and then the new text, or the texts of all entries that get the key, combined in the order in which the source hands them to the handler |
| `MigrateTexts.CountIsOfTouched` | evobench-tools/src/run/migrate.rs:68-93 | the number that is answered is that of the entries in an old format or with a new key |

## Left out

- Running benchmark commands, git subprocesses, decompression, output of tables and graphics, daemons, signals and logging; a job run is a success or a failure.
- Power loss and the syncing options of the table: a crash is one of a process, after which the file system is as it was.
- I/O errors other than those named, among them failures while a status file or a queue file is written.
- Decoding of values, matching of patterns and parsing of timestamps are functions that are given.
- Local times that do not exist or are ambiguous, and leap seconds: a zone has a fixed offset and seconds below 60.
- Rounding and incomparable values of priorities: they are real numbers.
- Nested locking of one table by its own handle, in `insert_jobs` and `migrate_key_val`: there one caller is modelled.
- `ScheduleCondition` commands to stop and start services, and closing queues when the window of a running job ends, except for moving the entries.
- `needs_cleanup`: a directory may be deleted at any time, which includes when it says so.
- Changes of statuses by the `wd` command, which may raise the number of active directories above the capacity.
- Waiting for entries to appear, which polls the directory, and listing keys while others change the directory.
- `KeyVal.Table.Get` and the other readers: that values can also fail to decode.
- `Tree.GetAfterInsert`: insertion is modelled on values, so it does not say that nodes are updated in place.
- `Bash.WordsOfCmd`: does not model what follows the splitting into words: an unquoted `[` may be expanded to file names, and a first word with `=` is an assignment.
- `CallPaths.IndexChunk`: the path strings are given; how they are built in reused buffers is not modelled.
- `WorkingDirectoryPool.Pool.ProcessInWorkingDirectory`: does not model the `current` link, which is made before the two refusals, the error file that is written beside the status file, nor a change to the pool while an action runs.
- `WorkingDirectoryPool.ReopenedKeeps`: does not model directories on disk that are not in the map, as a failed clone can leave one, which opening the pool again finds.
- `Git.GitGraphData.FromCommits`: the panics on an empty history and on an unknown parent are preconditions, as the source documents them.
- `Scheduler.JobRunsAreBounded`: counts runs that are completed; those that a crash repeats are in `Scheduler.JobRunsAreBoundedInCrashes`.
- `RunQueues.RunQueues.RunNextJob`: does not model the selection of the working directory, which is in `WorkingDirectoryPool` and can fail before the job is run, nor the command that stops and starts services.
- `Bash.ExportIsOneArgument`: does not model the prefix and the suffix that are put around the command as they are.
- `RunQueue.RunQueueWithNext.HandleTimeout`: is not a step of the runs of the scheduler, because nothing calls `close_open_queues`, its only caller.
- Statistics tables and the tree of log data, parsing of configurations, and small wrappers.
