# Plexus JsExec, modelled and proved in Dafny

The project models the parts of a JavaScript execution service whose correctness depends on
concurrency, on several SQL statements, or on text formats that one side writes and the other reads:

- **The worker pool.** A semaphore with one permit a worker admits tasks to a left-to-right scan over
  busy flags that are taken by compare-and-swap. `PoolProtocol` is the protocol as a step system for
  any number of tasks; `PoolManager` is the same as objects, with `acquire`, `status` and the guard's
  drop written as they are and other tasks running between any two atomic operations; `PoolTurns`
  says which of these operations are the caller's own; `PoolRuns` holds particular runs, and
  `PoolFairness` a semaphore that serves its waiters in order.
- **The function registry.** Functions, versions and aliases live in three tables, and each call runs
  several SQL statements without a transaction. `RegistryTables` holds the statements with the keys
  enforced, `RegistryCalls` the calls as machines of one statement a step and their interleavings,
  `RegistrySafety` and `RegistryRuns` what every interleaving keeps, `RegistryResolvers` the comparison
  of the three resolvers, `FunctionRegistry` the calls as methods of an object over the tables, and
  `RegistryReach` runs that reach the states in which a call does not do what it says.
- **The event pipeline.** Bytes are decoded chunk by chunk (`Utf8`), cut into lines through a buffer
  (`LineBuffer`), decoded into events and folded into a response (`Events`). There are two paths. The
  script that `runner.rs` generates writes for the hand-written decoder of the one-shot runner;
  `executor.js` parses stack traces (`StackTrace`), writes error objects (`ErrorEvents`) and is read by
  pooled workers with a decoder derived from the event types (`DerivedDecoder`). `ScriptStreams`
  follows both from what a script does to what the host gets.
- **Text and arithmetic.** Function and version references (`References`), the rewriting of static
  imports, up to what the written text does when it is read and run (`ImportTransform`), and duration
  percentiles (`Metrics`).

`Wrappers` and `Text` hold what the source takes from its standard libraries.

## What the proofs found

Where the code does not meet what its documentation or comments say, the model follows the code and
the exact condition is proved:

- A pool of size zero is accepted and never serves anybody (`WaiterCanBeServedIffPoolHasWorkers`).
- A status report reads the flags one by one and can call every worker free although a guard is held
  at every moment (`StatusCanMissEveryGuard`); it is off by no more than the flags that change
  meanwhile (`GetStatus`).
- Version numbers are 1..n up to 2^32 - 1 publications; then the 32-bit addition wraps in a release
  build (a debug build panics), version 0 is published, and no publication succeeds any more
  (`VersionNumbersAreGapless`, `VersionZeroIsReached`).
- An alias write, and an update, reports success although the function was deleted under it
  (`ReportedAliasIsSetIffFunctionLives`, `ReportedUpdateIsStoredIffFunctionLives`; runs that get there:
  `AliasOfDeletedReportsSuccess`, `UpdateOfDeletedReportsSuccess`).
- Two upserts of a new alias can race, and the slower one fails (`UpsertLosesIffAnotherCreated`,
  `RacingUpsertFails`); so do two publications of one function (`RacingPublicationFails`), and of two
  updates that read the same row the first is lost (`UpdateIsLost`).
- Activation runs the code of a version with the handler, environment and timeout of $LATEST, so an
  alias does not pin these (`ActivationAgreesIffLatestUnchanged`, `ChangedHandlerIsNotPinned`).
- A valid function name that has the form of a UUID is taken for an id (`BareNameRoundTrip`).
- Each chunk is decoded alone, so a cut inside a character changes the text
  (`ChunksDecodeIffCutOnBoundaries`).
- Through a pooled worker an error with a native frame in its stack is dropped as a whole
  (`ErrorVanishesIffFrameUnlocated`, `NativeFrameHidesFailure`); through the one-shot runner an error
  always arrives, but without location and stack (`RunnerErrorIsParsed`). The hand-written decoder would
  read every error object of `executor.js`, reducing lines and columns modulo 2^32, but never meets
  one (`DecodersAgreeIffAllFramesLocated`).
- Function names such as `async f`, `f ` or `f (g` do not survive the stack parser (`FrameRoundTrip`,
  `UnreadableNameIsLost`).
- Imports that are rewritten into a syntax error: one that renames an export with `as`
  (`RenamingBreaksRewriting`), a default import next to a namespace (`DefaultNamespaceBreaksRewriting`), and
  a namespace whose name has other than word characters, such as a dollar sign
  (`DollarNamespaceBreaksRewriting`). They are exactly those (`EmittedIsRead`). Besides, a falsy default
  export is replaced by its module, and an imported name that equals some default name followed by `__mod`
  makes the rewriting fail (`RewritingKeepsBindings`, `FalsyDefaultIsReplaced`,
  `ImportedTemporaryBreaksRewriting`).
- A percentile query fails when rows are deleted between counting and fetching (`CalculatePercentiles`,
  `OnlyDeletionsShrink`).
- Durations of 2^63 or more can put the percentiles out of order (`UndisturbedPercentiles`,
  `HugeDurationsDisorderPercentiles`).

`src/pool` is not declared in `src/lib.rs`, and `PoolStatus` has no definition; the pool is modelled as
its source is written.

## Model

| member | source | states |
|---|---|---|
| PoolProtocol.NoAvailableWorkersIsUnreachable | src/pool/manager.rs:160-195 | in no interleaving of any number of tasks acquiring, being cancelled and dropping guards does a permit holder run out of workers to probe: the branch commented "this is a bug" is dead |
| PoolProtocol.FreeWorkerAhead | src/pool/manager.rs:173-181 | at every moment of a scan some worker at or ahead of its position is free |
| PoolProtocol.StepKeepsInv | src/pool/manager.rs:160-195 | every atomic operation keeps the invariant: permits plus permit owners are the pool size, flags and guards agree, and from every index i at most size - i tasks still compete for or hold a worker |
| PoolProtocol.RoomIsKept | src/pool/manager.rs:160-195 | every operation keeps the room at every scan index |
| PoolProtocol.RoomPastBusyWorker | src/pool/manager.rs:173-181 | a failed probe leaves room for the task past the probed worker |
| PoolProtocol.GuardsFlagsAndPermitsAgree | src/pool/manager.rs:146-149 | in every reachable state a flag is set exactly while one guard holds its worker, no worker has two guards, and free permits plus permit owners equal the pool size |
| PoolProtocol.QuiescentPoolIsFull | src/pool/manager.rs:243-256 | once no guard is left and no acquisition is under way past the semaphore, all flags are clear and all permits are back |
| PoolRuns.PermitBeforeFlagIsABug | src/pool/manager.rs:287-293 | the drop order is needed: with the two halves of a drop swapped, every pool that has workers has a run from its start into a scan that has probed all workers in vain |
| PoolRuns.TakesFirstFreeWorker | src/pool/manager.rs:160-195 | a task that acquires alone takes the free worker with the lowest index and changes nothing else |
| PoolRuns.DropUndoesAcquisition | src/pool/manager.rs:287-293 | dropping the guard gives back exactly the state before the acquisition |
| PoolRuns.CancelUndoesRequest | src/pool/manager.rs:160-169 | a caller that gives up, before or after it was handed a permit, leaves the pool as if it had never called |
| PoolProtocol.ScanUnderInterference | src/pool/manager.rs:173-181 | however the other tasks interfere, a scan takes at most one probe for each worker: after any number of its probes it stands that much further on, in front of a worker, or holds the worker probed last |
| PoolProtocol.ScanAlone | src/pool/manager.rs:173-181 | a scan left alone ends holding a worker within as many probes as workers are ahead of it |
| PoolProtocol.ServeWaiter | src/pool/manager.rs:160-195 | from every state of the invariant a waiting task can be served within 2 * size + 5 operations, none of them a cancellation |
| PoolProtocol.WaiterCanBeServedIffPoolHasWorkers | src/pool/manager.rs:115-153 | no deadlock: in every reachable state a waiting task can be served if and only if the pool has a worker; a pool of size zero never serves anybody |
| PoolProtocol.PermitOwnersCanStep | src/pool/manager.rs:160-195 | while a task waits with no permit free, some task owns a permit and every owner has an operation of its own enabled |
| PoolFairness.FairRunIsRun | src/pool/manager.rs:164-169 | with a semaphore that serves in order every run is a run of the protocol, so all its properties hold |
| PoolFairness.RunKeepsQueue | src/pool/manager.rs:164-169 | in every such run the queue holds exactly the waiting tasks, each once |
| PoolFairness.NewcomerStandsLast | src/pool/manager.rs:160-169 | in every reachable state a new caller stands behind exactly those that wait already, each of which stands in the queue once |
| PoolFairness.NobodyIsOvertaken | src/pool/manager.rs:164-169 | a waiter moves up by one for every permit that is handed over before its own |
| PoolFairness.WaitIsBounded | src/pool/manager.rs:155-169 | bounded waiting: in every such run, as long as a task with k waiters ahead of it waits and no permit is idle, at most k permits have come back |
| PoolManager.Worker.TryAcquire | src/pool/worker.rs:208-212 | sets the flag and says whether it was clear |
| PoolManager.Worker.Release | src/pool/worker.rs:215-217 | clears the flag |
| PoolManager.PoolManager.constructor | src/pool/manager.rs:115-153 | distinct free workers and as many permits |
| PoolManager.PoolManager.Perform | src/pool/manager.rs:160-195 | each atomic operation on the objects is the protocol's action and keeps the invariant |
| PoolManager.PoolManager.Environment | src/pool/manager.rs:160-195 | what is performed between two operations of a caller is exactly what the schedule lists for other tasks and can be performed in its turn; the caller stays where it was |
| PoolTurns.RunnableIsPerformed | src/pool/manager.rs:160-195 | a schedule of other tasks that can be performed as it is listed is performed as it is listed |
| PoolManager.PoolManager.Acquire | src/pool/manager.rs:160-195 | under every interference: what the caller itself does is to ask, take a permit, start the scan and probe the workers up to the one it gets, and every other action of the run is one that the environment lists for another task; it ends waiting with no permit free or holding a worker whose flag is set, never with the error. With nothing listed no other task moves, and it waits exactly if no permit was free |
| PoolManager.PoolManager.Scan | src/pool/manager.rs:173-185 | under every interference the scan ends with the worker of its last probe, having probed the workers in front of it once each |
| PoolManager.PoolManager.DropGuard | src/pool/manager.rs:287-293 | the caller first clears its flag and last returns its permit, whatever is listed for others comes in between: the guard is gone and a permit is free. With nothing listed just that flag and that permit change |
| PoolManager.PoolManager.GetStatus | src/pool/manager.rs:198-213 | with other tasks running between any two reads, as listed and not otherwise: available and busy add up to the total, and the busy count differs from the number of live guards, at the first read as at the last, by at most the number of flags changed in between; without such a change it is exact, and the report itself changes nothing |
| PoolRuns.StatusCanMissEveryGuard | src/pool/manager.rs:202-203 | two reads of a reachable pool of two workers that find both free although a guard is held before, between and after |
| PoolRuns.BusyFlagsCountGuards | src/pool/manager.rs:202-203 | the number of set flags is the number of guards |
| RegistrySafety.StepKeepsInv | src/lambda/registry.rs:317-459 | every SQL statement of every call keeps the table invariant and what the calls in flight rely on |
| RegistrySafety.RunKeepsInv | src/lambda/registry.rs:121-713 | so does every interleaved run, and published versions and alias names of functions that still exist stay |
| RegistrySafety.PublishedVersionsAreImmutable | src/lambda/registry.rs:384-459 | over every run a published version does not change while its function exists, disappears with it, and neither comes back |
| RegistrySafety.VersionNumbersAreGapless | src/lambda/registry.rs:559-574 | in every reachable state the numbers of a function are exactly 1..n, none for a deleted function; all 2^32 numbers after the wrap-around |
| RegistrySafety.InsertSucceedsIffNumberIsNext | src/lambda/registry.rs:414-459 | a publishing call inserts exactly when its number is still the next and its function exists; a losing racer fails and changes no table |
| RegistrySafety.AliasesNameExistingVersions | migrations/003_create_aliases_table.sql:3-12 | in every reachable state each alias row names an existing version of an existing function |
| RegistrySafety.EveryNameIsValid | src/lambda/registry.rs:125-142 | in every reachable state every function has a valid name, although names are checked on creation only |
| RegistrySafety.AliasResolutionFailsIffFunctionDeleted | src/lambda/registry.rs:793-805 | after an alias lookup the version lookup misses exactly when the function was deleted in between, for all three resolvers |
| RegistrySafety.ReportedAliasIsSetIffFunctionLives | src/lambda/registry.rs:663-713 | an alias write that reports success has set the alias exactly when the function still exists |
| RegistryRuns.VersionsAreSnapshotsOfLatest | src/lambda/registry.rs:414-459 | every version row of every run holds code, hash, handler, environment and limits that $LATEST had at some moment inside the call that published it |
| RegistryRuns.TakenNumberIsNeverInsertedAgain | src/lambda/registry.rs:426-446 | once a number is taken, a call that carries it fails and changes nothing |
| RegistryRuns.LatestIsCreationOrUpdate | src/lambda/registry.rs:317-372 | at every moment of every run a function row is the one its creation inserted, or the merge of one row, read inside one updating call, with that call's changes: updates can be lost, but never mixed |
| RegistryRuns.ReportedUpdateIsStoredIffFunctionLives | src/lambda/registry.rs:350-371 | the last statement of an update always reports success, and has stored what it reports exactly when the function still exists |
| RegistryRuns.UpsertLosesIffAnotherCreated | src/lambda/versioning.rs:118-126 | in every run, an upsert that goes on to create its alias fails as already existing exactly when another call created the alias after it had looked and the function still exists, misses the version exactly when the function was deleted, and otherwise sets the alias |
| RegistryRuns.UpsertKeepsItsTarget | src/lambda/versioning.rs:86-127 | in every run an upsert to a version ends with that version set or in one of four failures |
| RegistryRuns.HashesAlwaysFitTheirCode | src/lambda/registry.rs:317-372 | across all interleavings, lost updates included, every stored, carried or returned hash is the hash of the code beside it |
| RegistryRuns.InvocationsOfPinnedAliasLoadItsVersion | src/lambda/invoker.rs:255-360 | alias pinning: over every run that neither re-points the alias nor deletes the function, every invocation of `name:alias` loads exactly the pinned version's settings |
| RegistryRuns.SuccessfulAliasWritePins | src/lambda/versioning.rs:86-127 | the last statement of a successful upsert establishes the pin while the function exists |
| RegistryRuns.CreationNeverRepoints | src/lambda/registry.rs:593-648 | in every interleaved run, no statement of a call begun to create an alias changes an alias row that exists, or any other table |
| RegistryResolvers.RegistryResolves | src/lambda/registry.rs:763-807 | the registry's resolution, run alone, answers what the version reference denotes and changes nothing |
| RegistryResolvers.InvokerResolves | src/lambda/invoker.rs:255-360 | resolving and loading in the invoker, run alone, answers what the function reference denotes |
| RegistryResolvers.ActivationResolves | src/lambda/activation.rs:130-185 | the activation launches the denoted version's code with the handler, environment and timeout of $LATEST |
| RegistryResolvers.InvokerAgreesWithRegistry | src/lambda/invoker.rs:255-360 | in every reachable state invoker and registry agree on version, code, handler, environment, timeout and memory, or on the failure |
| RegistryResolvers.ActivationAgreesIffLatestUnchanged | src/lambda/activation.rs:526-568 | activation and invoker agree on function, version, code and failures; they launch alike exactly when the version's handler, environment and timeout are those of $LATEST |
| RegistryResolvers.ActivationDriftsAfterUpdate | src/lambda/activation.rs:156-185 | after any update of a pinned function the two launches are these: the invoker's is pinned, the activation's has the new handler, environment and timeout |
| RegistryResolvers.EveryStatementIsProgress | src/lambda/versioning.rs:86-127 | every call ends after at most seven more statements |
| RegistryReach.EveryCountIsReached | src/lambda/registry.rs:414-459 | for every n up to 2^32 a run leads to a function with exactly n versions |
| RegistryReach.VersionZeroIsReached | src/lambda/registry.rs:572-573 | a run publishes version 0, and then every further number of that function is taken |
| RegistryReach.UpdateOfDeletedReportsSuccess | src/lambda/registry.rs:350-371 | from every reachable state with a function, a run in which its update reports success after its deletion |
| RegistryReach.AliasOfDeletedReportsSuccess | src/lambda/registry.rs:691-712 | from every reachable state with an alias, a run in which re-pointing it reports success after the deletion of its function |
| RegistryReach.RacingUpsertFails | src/lambda/versioning.rs:118-126 | from every reachable state, a run in which the slower of two upserts of a new alias fails |
| RegistryReach.RacingPublicationFails | src/lambda/registry.rs:414-459 | from every reachable state with a function, a run in which the slower of two publications fails on its number |
| RegistryReach.UpdateIsLost | src/lambda/registry.rs:317-372 | a run in which two updates both report success and the changes of the first are gone |
| RegistryReach.ResolutionMissesDeleted | src/lambda/registry.rs:793-805 | a run in which a resolution finds the alias and no longer its version |
| RegistryReach.InvocationMissesDeleted | src/lambda/invoker.rs:255-360 | the same for an invocation |
| RegistryReach.InvocationMissesFunction | src/lambda/invoker.rs:255-360 | a run in which an invocation finds its version and then no function any more |
| RegistryReach.ActivationMissesDeleted | src/lambda/activation.rs:130-185 | the same for an activation |
| RegistryReach.PinnedIsReached | src/lambda/versioning.rs:86-127 | every function can be created, published and, by an upsert, pinned by every alias |
| RegistryReach.DriftIsReached | src/lambda/activation.rs:156-185 | for every function, colon-free alias and update a run after which invoking launches what was published and activating launches the published code with the updated settings |
| RegistryReach.ChangedHandlerIsNotPinned | src/lambda/activation.rs:171-185 | with a changed handler the two launches differ |
| FunctionRegistry.FunctionRegistry.CreateFunction | src/lambda/registry.rs:121-176 | table and reply are those of the modelled call; the table invariant is kept |
| FunctionRegistry.FunctionRegistry.UpdateFunction | src/lambda/registry.rs:317-372 | the field-by-field merge in place is the modelled call; the table invariant is kept |
| FunctionRegistry.FunctionRegistry.DeleteFunction | src/lambda/registry.rs:384-401 | the modelled call, with the cascades; the table invariant is kept |
| FunctionRegistry.FunctionRegistry.GetNextVersionNumber | src/lambda/registry.rs:559-574 | one more than the maximum of the function's numbers, 1 if it has none, with the 32-bit wrap-around |
| FunctionRegistry.FunctionRegistry.PublishVersion | src/lambda/registry.rs:414-459 | the modelled call; the table invariant is kept |
| FunctionRegistry.FunctionRegistry.CreateAlias | src/lambda/registry.rs:593-648 | the modelled call; the table invariant is kept |
| FunctionRegistry.FunctionRegistry.UpdateAlias | src/lambda/registry.rs:663-713 | the modelled call; the table invariant is kept |
| FunctionRegistry.FunctionRegistry.Upsert | src/lambda/versioning.rs:86-127 | resolve, verify, update, else create is the modelled call; the table invariant is kept |
| FunctionRegistry.FunctionRegistry.ResolveVersion | src/lambda/registry.rs:763-807 | the reply of the modelled call |
| FunctionRegistry.AloneIsARun | src/lambda/registry.rs:414-459 | a call that runs alone is a run of the interleaved system from any of its states, so what is proved of all runs holds of these methods |
| FunctionRegistry.CreateThenResolve | src/lambda/registry.rs:121-176 | creating fails without effect on an invalid or taken name; otherwise the name leads to a function whose row holds exactly what was asked for, the hash of the code and both times, and no other reference changes its meaning |
| FunctionRegistry.UpdateChangesOnlyLatest | src/lambda/registry.rs:317-372 | an update that runs alone changes $LATEST of its function field by field as asked, with description, hash and time, and no version, alias or name; repeating it changes no setting |
| FunctionRegistry.MissingFunctionIsReported | src/lambda/registry.rs:317-459 | updating, publishing and deleting a missing function fail without effect |
| FunctionRegistry.CreateAliasThenResolve | src/lambda/registry.rs:593-648 | creating an alias alone sets it exactly if the target is a number, that version exists and the alias does not; then its row is new and it denotes that version, otherwise the failure says why and no table changes |
| FunctionRegistry.UpdateAliasThenResolve | src/lambda/registry.rs:663-713 | updating an alias alone re-points it exactly if the target is a number, that version exists and the alias does, whose time of creation is kept; otherwise the failure says why and no table changes |
| FunctionRegistry.DeletedFunctionIsGone | src/lambda/registry.rs:384-401 | after a deletion no reference to the function denotes anything and no other reference changes its meaning |
| FunctionRegistry.UpsertThenResolve | src/lambda/versioning.rs:86-127 | an upsert that runs alone succeeds exactly when its target resolves to a version; then the alias denotes what the target denoted and nothing else changes its meaning; otherwise nothing changes and the failure says why |
| FunctionRegistry.PublishThenResolve | src/lambda/registry.rs:414-459 | publishing stores $LATEST under the next number, and the number resolves to it also after later updates |
| FunctionRegistry.NumberIsNext | src/lambda/registry.rs:559-574 | the computed number is one more than the count of versions, with the wrap-around, and free |
| FunctionRegistry.UpdateElseCreate | src/lambda/versioning.rs:118-126 | falling back from update to create is sound: the update reported a missing alias only without any effect |
| References.BareNameRoundTrip | src/lambda/types.rs:241-271 | a valid name refers to the function of that name exactly when it is not the text of a UUID |
| References.UuidTextsAreValidNames | src/lambda/registry.rs:87-106 | every UUID of 32 or 36 characters is a valid name that is read as an id |
| References.UuidRoundTrip | src/lambda/types.rs:241-271 | each textual form of a UUID (plain, with hyphens, in braces, as a URN), in small or large letters, refers to the function with that id |
| References.ReferredIdIsSpelled | src/lambda/types.rs:241-271 | a text of 32 characters that refers to an id spells that id and no other |
| References.AsciiNames | src/lambda/registry.rs:87-106 | an ASCII name is valid exactly if it has 1 to 64 characters, all of them letters, digits, hyphens or underscores |
| References.LengthCountsBytes | src/lambda/registry.rs:87-106 | the limit on names counts encoded bytes |
| References.LimitCountsBytes | src/lambda/registry.rs:87-106 | a name of alphanumeric characters is valid exactly if it takes at most 64 bytes |
| References.NameAliasRoundTrip | src/lambda/types.rs:241-271 | a valid name, a colon and an alias read back as that pair exactly when the alias has no colon |
| References.FurtherPartsAreIgnored | src/lambda/types.rs:250-271 | of a text with more than one colon the first two parts are taken, exactly unless it is the URN of a UUID |
| References.VersionRefRoundTrip | src/lambda/types.rs:285-307 | a printed version reference reads back exactly when it is not an alias that is empty, `$LATEST` or readable as a 32-bit number |
| References.PrintedReferenceReadsTheSame | src/lambda/types.rs:285-307 | what was read, printed and read again is the same for every text |
| References.NumberIsReadIffSpelled | src/lambda/types.rs:285-307 | the texts that read as a version number are exactly its digits, behind an optional plus sign and leading zeros |
| Utf8.LossyOfEncoded | src/runner.rs:361 | lossy decoding inverts encoding for every text, whatever follows |
| Utf8.DecodedIffEncoded | src/runner.rs:361 | a character is decoded exactly where an encoding starts, so no overlong forms and no surrogates are |
| Utf8.ReplacedIsLongestPrefix | src/pool/worker.rs:318 | elsewhere one replacement stands for the longest prefix that can still become a character, or for one byte |
| Utf8.ChunksDecodeIffCutOnBoundaries | src/runner.rs:361 | decoding every chunk alone gives back the text exactly when no chunk starts inside a character, and a longer text otherwise |
| Utf8.LossyChunksAreAtLeastStarts | src/runner.rs:361 | decoded chunks have at least one character for each starting byte, and one more if a chunk starts inside a character |
| Utf8.BoundaryCutsText | src/pool/worker.rs:318 | a cut in front of a starting byte falls between two characters |
| LineBuffer.DrainLines | src/runner.rs:364-374 | the inner loop moves exactly the complete lines from the buffer to the events |
| LineBuffer.ReadChunks | src/pool/worker.rs:302-343 | up to the end or the first error, events and buffer account for exactly the text received |
| LineBuffer.RunnerEvents | src/runner.rs:348-383 | the events are those of the whole received text split at newlines, trimmed, without blanks, decoded, failures dropped |
| LineBuffer.WorkerEvents | src/pool/worker.rs:298-363 | the same without a stream error; with one, the events of the complete lines and then the error event, the unfinished line being lost |
| LineBuffer.CuttingOnBoundariesDoesNotMatter | src/runner.rs:348-383 | every way of cutting the encoded text on character boundaries yields the same events |
| LineBuffer.CuttingInsideACharacterMatters | src/runner.rs:361 | a cut inside a character yields other events |
| LineBuffer.LinesAreIndependent | src/runner.rs:364-383 | the events of two texts joined by a newline are those of the one and then those of the other |
| LineBuffer.PaddedLineReadsTheSame | src/runner.rs:366-373 | white space around a line, a carriage return among it, changes nothing |
| Events.LocationRoundTrip | src/runner.rs:425-432 | a location is read back modulo 2^32, unchanged exactly when line and column fit |
| Events.FramesRoundTrip | src/runner.rs:434-452 | nested stack frames are read back in order, with their optional parts |
| Events.EventRoundTrip | src/types.rs:149-198 | the decoder inverts the layout of every console, returned and error event |
| Events.OddEventsAreRead | src/runner.rs:391-463 | unknown levels are read as plain messages, names that are no text as `Error`, and an error without a name not at all |
| Events.WrittenEventsAreRead | src/runner.rs:391-463 | events written one a line are read back as exactly that list |
| Events.ExecuteReadsBack | src/runner.rs:348-463 | end to end: any list of events in the layout of the event types, encoded and cut on character boundaries, comes back as exactly that list |
| Events.FoldResponse | src/lambda/invoker.rs:513-540 | last value, last error, last metrics; success exactly when no error event came |
| StackTrace.ParseStack | src/runtime/executor.js:13-63 | the loop over the lines collects the frames of exactly the frame lines, in order |
| StackTrace.LocationRoundTrip | src/runtime/executor.js:70-104 | a location reads back exactly when it is anonymous or its file name is not empty, on one line, without a comma and a space, and not `<anonymous>`; colons and digits in it do no harm |
| StackTrace.OuterLocationIsDropped | src/runtime/executor.js:70-78 | of a location in evaluated code only what follows the last comma and space is read |
| StackTrace.EvaluatedLocationRoundTrip | src/runtime/executor.js:70-91 | behind the place of any evaluation, a location reads back exactly when it does alone |
| StackTrace.LineOnlyRoundTrip | src/runtime/executor.js:93-102 | a file and a line read as column zero exactly when the file name is plain and does not end in a number of its own |
| StackTrace.NoNumberNoLocation | src/runtime/executor.js:80-103 | what does not end in a colon and a number is no location |
| StackTrace.NamedTextRoundTrip | src/runtime/executor.js:34-49 | the exact condition on a function name |
| StackTrace.FrameRoundTrip | src/runtime/executor.js:19-60 | every printed frame reads back if and only if its name and location are readable |
| StackTrace.UnreadableNameIsLost | src/runtime/executor.js:34-49 | a name that is not readable is not given back, wherever the frame is |
| StackTrace.SomeNamesAreUnreadable | src/runtime/executor.js:34-43 | such names are `async f`, `f ` and `f (g` |
| StackTrace.AsyncFrameRoundTrip | src/runtime/executor.js:25-49 | a frame printed with the async marker reads back as the frame if and only if its location is readable and its name is not empty, on one line and without white space in front of a parenthesis or at its end |
| StackTrace.PrintedRoundTrip | src/runtime/executor.js:19-91 | a frame printed with or without a name, a location, a place of evaluation and an async marker reads back if and only if it is readable in that form |
| StackTrace.StackRoundTrip | src/runtime/executor.js:13-63 | a list of frames printed behind any message, each in any of its forms, reads back in order if and only if all its frames are readable |
| StackTrace.OnlyFrameLinesAreRead | src/runtime/executor.js:19-25 | a text reads as no frames exactly when no line of it, trimmed, starts with `at` and a space |
| DerivedDecoder.DerivedRoundTrip | src/types.rs:149-198 | the decoder derived from the event types inverts the layout of every console, returned and error event |
| DerivedDecoder.DerivedIsStricter | src/pool/worker.rs:325-338 | what the derived decoder accepts, the hand-written one reads in the same way |
| DerivedDecoder.UnknownLevelIsRefused | src/types.rs:134-143 | a console line of an unknown level is refused by the derived decoder and read as a plain message by the other |
| DerivedDecoder.OddFilenameIsRefused | src/types.rs:108-118 | a location with a file name that is neither text nor null is refused by the derived decoder and read without file name by the other |
| DerivedDecoder.ErrorArrivesIffAllFramesLocated | src/pool/worker.rs:325-338 | a pooled worker yields for an error object of `executor.js` the whole error, with message, name, location and frames as they are, if all frames have a location below 2^32, and nothing otherwise |
| DerivedDecoder.PrintedStackReachesHost | src/runtime/executor.js:201-221 | from a stack as V8 prints it, evaluated code and async frames included, to the host of a pooled worker: exactly the printed frames arrive if and only if all are readable and located below 2^32, and a readable stack arrives whole or not at all |
| DerivedDecoder.DecodersAgreeIffAllFramesLocated | src/types.rs:121-127 | a comparison of the two decoders on the error objects of `executor.js`: the hand-written one would always yield an event, the derived one yields the same event if all frames have a location below 2^32, and nothing otherwise |
| DerivedDecoder.ErrorVanishesIffFrameUnlocated | src/pool/worker.rs:321-342 | on the line of an error object a pooled worker yields nothing exactly when some frame has no location that fits |
| DerivedDecoder.WorkerReadsBack | src/pool/worker.rs:298-363 | end to end through a pooled worker: any list of events in the layout of the event types, encoded and cut on character boundaries, comes back as exactly that list |
| ScriptStreams.PooledScript | src/runtime/executor.js:112-225 | end to end from a script to the host of a pooled worker: all that is logged, returned and thrown arrives in order, except exactly the errors with a frame that has no fitting location and results without a JSON text |
| ScriptStreams.PooledLevels | src/runtime/executor.js:141-148 | through a pooled worker the levels log, info, warn and error arrive as such, debug and trace as log |
| ScriptStreams.OneShotScript | src/runner.rs:583-641 | end to end from a script to the host of the runner: all of it arrives in order, each error without location and stack |
| ScriptStreams.RunnerErrorIsParsed | src/runner.rs:630-640 | an error that the generated script writes always arrives, with message and name, no location and no frames |
| ScriptStreams.NativeFrameHidesFailure | src/pool/worker.rs:321-342 | an error thrown through a native frame is one failure for the runner and nothing for a pooled worker |
| ImportTransform.WrittenStatementsAreRead | src/import_transform.rs:52-97 | for every well-formed clause, with any spacing and in front of any text, what the string function writes reads, as JavaScript, as the intended statements if the clause can be rewritten, and as a syntax error otherwise |
| ImportTransform.MatchedIsNamespace | src/import_transform.rs:55-59 | whatever matches the pattern of a namespace import is a star, white space, `as`, white space and a name of word characters |
| ImportTransform.EmittedIsRead | src/import_transform.rs:41-50 | the text for any list of imports reads as their statements in order if all of them can be rewritten, and as a syntax error otherwise |
| ImportTransform.ListedSpecifiersAreRead | src/import_transform.rs:61-68 | the text between braces stands for its exports and their new names however it is spaced, with a last comma or without |
| ImportTransform.ImportMirrored | src/import_transform.rs:55-96 | the intended statements of one import run and bind what the import binds, save for a falsy default |
| ImportTransform.ImportsMirrored | src/import_transform.rs:41-50 | the same for lists of imports that can be rewritten, the temporaries of earlier ones being declared already |
| ImportTransform.RewritingKeepsBindings | src/import_transform.rs:41-97 | for every list of well-formed imports that links, the text that the string function writes, read and run, runs exactly when all imports can be rewritten and no imported name is a temporary; then it binds what the imports bind exactly when all default exports are truthy |
| ImportTransform.ExecutedNamesAreFree | src/import_transform.rs:77-91 | if the statements run, temporaries and imported names are distinct |
| ImportTransform.DollarNamespaceBreaksRewriting | src/import_transform.rs:56-59 | a namespace import under any name with a dollar sign links, and what is written for it starts with `const *` and does not run |
| ImportTransform.RenamingBreaksRewriting | src/import_transform.rs:61-68 | an import of any export under another name links, and what is written for it does not run |
| ImportTransform.DefaultNamespaceBreaksRewriting | src/import_transform.rs:70-86 | so does a default import next to a namespace import |
| ImportTransform.ImportedTemporaryBreaksRewriting | src/import_transform.rs:72-91 | for every default name, importing that name followed by `__mod` next to it links, and does not run when rewritten |
| ImportTransform.FalsyDefaultIsReplaced | src/import_transform.rs:88-96 | a falsy default export is bound by the static import, and its module by the rewritten one |
| ImportTransform.OtherDefaultIsKept | src/import_transform.rs:88-96 | every other default export is what the rewritten import binds |
| Metrics.MetricsCollector.CalculatePercentiles | src/lambda/metrics.rs:261-325 | with other callers running between the four queries: zeros if nothing was counted; otherwise it fails exactly when, by the time of a fetch, its percentage of the count covers the table, and else each percentile is a duration of that time with more than its percentage of the count at or below it and all but at most that many at or above it |
| Metrics.PercentileIsUnique | src/lambda/metrics.rs:304-324 | in an unchanged window only one duration is that percentile |
| Metrics.OffsetRoundsDown | src/lambda/metrics.rs:304-307 | the offset that is fetched is the percentage of the count rounded down |
| Metrics.RankIsPercentile | src/lambda/metrics.rs:304-322 | the row at that offset is the percentile, and there is none exactly if the window has shrunk so far |
| Metrics.UndisturbedPercentiles | src/lambda/metrics.rs:304-324 | while the durations stay as counted no fetch fails, and the percentiles are ordered exactly under the stated condition on durations of 2^63 and more |
| Metrics.OnlyDeletionsShrink | src/lambda/metrics.rs:236-255 | neither recording nor the deletion of another function can make a fetch fail |
| Metrics.OthersRowsStay | migrations/004_create_invocations_table.sql:2-18 | deleting a function takes all durations from its windows and none from the others |
| Metrics.PercentilesAreOfRecordedDurations | src/lambda/metrics.rs:27-66 | as long as no duration in the window reaches 2^63, the percentiles are those of the durations as recorded |
| Metrics.SelectedAreRecorded | src/lambda/metrics.rs:27-66 | a query selects exactly the durations recorded in its window, cast and in order |
| Metrics.HugeDurationsDisorderPercentiles | src/lambda/metrics.rs:304-322 | with the durations 2^63, 2^63 and 0 the 50th percentile is larger than the 99th |
| Metrics.MetricsCollector.FetchPercentile | src/lambda/metrics.rs:328-369 | finds a row exactly when the offset is in range, and then a duration of that rank |
| Metrics.MetricsCollector.RecordInvocation | src/lambda/metrics.rs:27-66 | adds the record, cast to signed numbers |
| Metrics.MetricsCollector.CleanupOldRecords | src/lambda/metrics.rs:236-255 | keeps the rows from the cutoff on and counts the others |
| Metrics.CleanupKeepsRecentWindows | src/lambda/metrics.rs:236-255 | cleaning up changes no window that starts within the retention period, and exactly the rows from the cutoff on remain |
| Metrics.CutoffIsRetentionAgo | src/lambda/metrics.rs:236-245 | the cutoff lies the retention period back, or at zero |
| Metrics.SortedElementHasItsRank | src/lambda/metrics.rs:344-353 | the row at an offset of the sorted durations has at least offset + 1 durations at or below it and count - offset at or above it |
| Metrics.RanksAreOrdered | src/lambda/metrics.rs:304-322 | larger ranks do not have smaller durations |
| Metrics.OffsetsAreOrdered | src/lambda/metrics.rs:304-307 | the three offsets are in range and ordered |
| Metrics.PercentilesWereRecorded | src/lambda/metrics.rs:27-66 | storing and reading back loses nothing: every percentile is a duration recorded in the window |

## Left out

- Foreign keys: taken as enforced, which is what the SQL library does by default; the registry does not set the pragma itself.
- SQL engine, JSON text codec and hash function: each statement is one atomic step, the codec is any pair where reading inverts writing and a text is one non-blank line, the hash is any function. Database errors other than violated constraints do not occur.
- FunctionRegistry.FunctionRegistry.PublishVersion: the class methods run one call at a time, and the interleavings of their statements are those of `RegistryCalls`; the same holds for the other methods of that class.
- Identifiers of new functions: taken as never repeated.
- PoolManager.PoolManager.Acquire: any waiter may be served next (`PoolFairness` fixes the order); the semaphore's closing is not modelled, nor is a drop of the future inside the scan, which has no await point.
- Worker spawning and shutdown, 16-bit port arithmetic, health checks, HTTP, temporary files, and the statistics of the pool.
- LineBuffer.WorkerEvents: the decoder is a parameter here, and errors before the first chunk are not modelled.
- DerivedDecoder.DerivedIsStricter: what the derived decoder makes of arrays in place of objects, of an object in place of a level and of repeated keys, which neither side writes, and of the remaining kinds of events, is a parameter or not modelled.
- FunctionRegistry.UpsertThenResolve: is about an upsert that no other call interrupts; how it ends under interleaving is stated by `RegistryRuns.UpsertLosesIffAnotherCreated` and `RegistryRuns.SuccessfulAliasWritePins`.
- FunctionRegistry.UpdateChangesOnlyLatest: is about an update that no other call interrupts; what updates do to each other under interleaving is stated by `RegistryRuns.LatestIsCreationOrUpdate`.
- PoolManager.PoolManager.GetStatus: the two read locks in front of the first flag are not modelled; the statistics in the report are left out.
- The other event kinds of `src/types.rs`: the hand-written decoder reads only three kinds.
- ScriptStreams.PooledScript: values whose text cannot be written, messages that are no text, and errors of the executor itself are not modelled; lines and columns in a stack are below 2^53.
- Events.FoldResponse: recording the outcome and the other invocation types are not modelled.
- StackTrace.LocationRoundTrip: line and column are unbounded; JavaScript numbers are exact up to 2^53 - 1, which `ErrorEvents` requires.
- References.BareNameRoundTrip: which characters beyond ASCII are alphanumeric is a parameter.
- The regular expression that finds imports in a program; string literals as names of exports.
- ImportTransform.WrittenStatementsAreRead: the reader knows the statements that are written, with the white space that is written, not all of JavaScript.
- ImportTransform.RewritingKeepsBindings: is about modules that export no function named `then`, which awaiting an import would call; what comes of such a module depends on that function. Bindings are compared after all imports have run; the live update of imported bindings, the order of evaluation and side effects of modules are not modelled.
- Metrics.OffsetsAreOrdered: the source multiplies by 0.50, 0.95 and 0.99 in floating point; the model uses exact fractions, which differ from these at large counts at most.
- Metrics.PercentilesAreOfRecordedDurations: one direction; with larger durations a rank among the recorded ones may still hold by coincidence of equal durations.
- Metrics.MetricsCollector.RecordInvocation: the primary key and the foreign key of the invocations table, and the columns that percentiles do not use; averages and global statistics.
- `delete_alias` and `list_aliases`, which the source does not implement; the plain lookups and listings of functions, versions and scripts.
- Activation's update, publish and alias methods, which look up a name and then make the modelled calls.
