# ArtPM agent: proofs about its stateful parts

A Dafny 4.11 model of the parts of the ArtPM agent whose correctness rests on state, ordering or text
that has to be read back, with proofs of what they keep. Concurrency is modelled as step systems over
shared fields, locks, caches and a file system with exclusive create; code that updates objects in place
is modelled with classes, loops and `modifies` clauses and proved against specification functions.
`dafny verify dfyconfig.toml` checks everything.

| file | models |
|---|---|
| `SessionLifecycle.dfy`, `SessionRuns.dfy`, `SessionReopening.dfy`, `SessionAnswers.dfy` | the persistent MCP session: any number of callers, `close`, and background workers under two locks; what can still happen once shutdown is requested; what callers are told |
| `TenantSession.dfy` | tenant stamping on flush and the filter on every ORM statement, over arbitrary interleavings of sessions |
| `ConfigValues.dfy`, `ConfigLayers.dfy` | the algebra of dotted-path writes, stacks of patches, provenance, deep update |
| `ConfigDicts.dfy`, `LayeredConfig.dfy` | nested dicts on the heap: the in-place patch walk, deep copies, the layer stack, the dotted-path reader and writer |
| `ArtifactPublish.dfy` | versioned publishing by exclusive create, interleaved and alone |
| `TemplateColumns.dfy`, `TemplateStore.dfy`, `TemplateChoice.dfy` | header detection and column names, the template store over whole runs, ranking and choice |
| `RowRealignment.dfy` | moving a plan's rows under a template's columns and to the sheet they are written to |
| `TokenTable.dfy`, `TokenCache.dfy`, `TokenBudget.dfy` | the usage table and its aggregates; read-through with overlapping readers and a failing cache; budgets over whole runs |
| `MarketCache.dfy` | the market list cache with its disk copy, across process restarts |
| `EnvQuoting.dfy`, `EnvLines.dfy`, `EnvFile.dfy` | the in-place `.env` writer, from characters to files, and applying a batch of settings |
| `BackupNames.dfy`, `Backup.dfy`, `BackupRuns.dfy` | snapshot names and their order, taking and pruning snapshots, whole runs of backups |
| `Common.dfy`, `Text.dfy` | result types, string operations, decimal numerals and string order shared by the others |

## Where the code does less than it says

Each item gives the condition under which the promise holds, over all inputs or runs; where it takes a run
to reach the failure, a reachable one is given as well.

- A reconnect forced for generation g can tear down a newer session even if it is the only forced
  reconnect: the worker dies, another caller restarts it without force, and the first caller then takes
  the lifecycle lock (`ForcedStopMayHitNewerSession`). The comment at
  `artpm_agent/core/mcp_client_stdio.py:551-552` promises the opposite. The failed session itself is never
  what a forced reconnect finds, because its failure marking has already dropped it: it finds nothing, or a
  newer session, the latter exactly if `_session` is not None under the locks; and if `_generation` is
  still g there, it finds nothing (`ForcedDropHitsNothingOrNewer`). All three cases occur:
  `ForcedStopFindsNothing` (generation unchanged), `ForcedStopMayHitNewerSession`, `NewerSessionMayBeGone`
  (generation changed, nothing to lose). A worker that is still connecting is joined and never serves
  (`ConnectingWorkerIsJoined`, `JoinedWorkerDoesNotServe`).
- A forced reconnect that gives up joining its worker leaves `_shutdown` set although nobody has called
  `close` (`JoinTimeoutClosesClient` is such a run). From there on some continuation starts a worker if and
  only if another `_ensure_connected` is past its shutdown check, and in some continuation the client serves
  again if and only if such a call is forced (`JoinTimeoutExactly`).
- After `close` has returned, the client serves again in some continuation if and only if a forced
  `_ensure_connected` is past its shutdown check (`CloseExactly`; `InFlightCallServesAfterClose` is such a
  run). While only unforced ones are, `_shutdown` stays set and a worker that they start leaves at its first
  look at it (`UnforcedStayShut`, `InFlightCanStart`); while none is, no worker ever starts (`ClosedForGood`).
- `dump` names the wrong layer for a key patched under a spelling with leading whitespace, or with trailing
  whitespace and no dot (`CreditableIsNecessary`, `CreditableExactly`).
- A failed open of the temporary file removes the destination, which by then may be another publisher's
  artifact (`FailedOpenDeletesPublished`). Every file is accounted for throughout a run if and only if no such
  removal hits a file (`HarmlessRunExactly`, step by step `HarmfulExactly`).
- Columns headed `a, a, a_2` get the same name twice (`ThreeHeadersClash`, `DistinctUnlessClash`), and a
  template may keep 120 columns while the generator accepts 100 by default (`GeneratorAcceptsExactly`).
- Learning a known file under another template's name leaves two templates with that name
  (`RenamedOntoAnother`, `LearnedNamesDistinctExactly`).
- A template that shares no text with the prompt is chosen when it is the only one ever used
  (`UseAloneCanDecide`); the choice has strictly the best text if and only if the text of some stored
  template scores for the prompt (`ChosenIsBestTextExactly`).
- A plan column is validated trimmed but matched untrimmed, so its cells are dropped
  (`MeantCellArrivesExactly`). Rows are filed under a sheet's stored name and looked up under the name it
  is written with, so a table learned from `data[1].csv` loses every row (`BracketsAreRewritten`); they
  arrive if and only if the stored name is plain (`RowsArriveExactly`, `PlainExactly`), and
  `GenerateFirstSheet` says what then becomes of every row. Other sheets can receive them as well
  (`OtherSheetsReceiveToo`), exactly as `OtherSheetsExactly` says. `_sheet_name` is not idempotent
  (`QuotedSpaceIsNotTrimmed`, `SheetNameTwiceExactly`).
- A market answer restored from disk can be almost two times to live old (`DiskRestartsTheClock`), and a
  `close` between the validity check and the read yields an answer no fetch returned
  (`CloseFallsBetween`). A call that found a fresh entry answers from nothing if and only if a `close` of its
  process, and no later store into its memory, fell between its check and its read (`EmptyAnswerExactly`).
- When the in-place writer runs, because a value is empty or `set_key` raised, a `.env` key that several
  lines assign keeps its old value, and so does one that a later line names without `=`
  (`UpdateTakesEffect`); control characters that JSON escapes by number do not read back (`UnquoteQuote`);
  U+0085, U+2028 and U+2029 are written raw and split the line at the next write (`WrittenStaysOneLine`).
- Names within one second are not in the order of creation. The snapshot just taken survives its own
  pruning if and only if nothing is pruned or the second has had at most `keep + 1` backups: once the bare
  stamp has been pruned its name is free again, and the third backup of a second with one kept is deleted
  at once (`BackupWithinSecond`, `NewSurvivesExactly`, `RecentRemainExactly`). Later, when a second's backups,
  all of which survived that, and later ones are from three to ten too many, the most recent are left if and
  only if that second had at most ten (`SomeTooManyExactly`, with the run `ElevenThenThree`); with at most ten they are left
  however many there are too many (`UpToTenRemain`). One backup a second at increasing times always leaves the
  most recent (`BackupOverTime`).

## Model

| member | source | states |
|---|---|---|
| `SessionLifecycle.RequestStep` | `artpm_agent/core/mcp_client_stdio.py:255-273` | the unguarded checks of `_ensure_connected` take at most the lifecycle lock, only when it is free, and change none of thread, readiness, shutdown, session and generation |
| `SessionLifecycle.CallStep` | `artpm_agent/core/mcp_client_stdio.py:543-564` | outside the lifecycle section a call takes the state lock only when it is free, and its failure never touches thread, readiness, shutdown or generation |
| `SessionLifecycle.GuardStep` | `artpm_agent/core/mcp_client_stdio.py:314-317` | a short section under the state lock alone releases it, and drops the session only as broken |
| `SessionLifecycle.AwaitStep` | `artpm_agent/core/mcp_client_stdio.py:306-330` | waiting for readiness takes the state lock only when it is free, and never lowers the broken mark or touches thread, readiness and session |
| `SessionLifecycle.BetweenStep` | `artpm_agent/core/mcp_client_stdio.py:273-289` | holding the lifecycle lock alone, entering a section takes the state lock only when it is free; no thread is created and the session is at most dropped |
| `SessionLifecycle.StopStep` | `artpm_agent/core/mcp_client_stdio.py:332-372` | the stop section and the end of `close` keep both locks to their end, create no thread and connect nobody |
| `SessionLifecycle.RestartStep` | `artpm_agent/core/mcp_client_stdio.py:289-304` | the restart section keeps both locks to its end, and only creating the thread changes `_thread` to a new identity |
| `SessionLifecycle.WorkerStep` | `artpm_agent/core/mcp_client_stdio.py:161-250` | a worker takes only the state lock, publishes only its own session, and raises the generation exactly when it connects |
| `SessionLifecycle.StepKeepsInv` | `artpm_agent/core/mcp_client_stdio.py:161-372` | every step of every thread keeps locks, ownership, session facts and generations consistent |
| `SessionLifecycle.AtMostOneWorker` | `artpm_agent/core/mcp_client_stdio.py:273-304` | in every reachable state at most one worker has not finished its final cleanup, and it is `_thread` |
| `SessionLifecycle.UnguardedClearIsSafe` | `artpm_agent/core/mcp_client_stdio.py:248-250` | the cleanup outside every lock can only clear the worker's own session |
| `SessionLifecycle.UsableMeansSession` | `artpm_agent/core/mcp_client_stdio.py:210-216` | ready, not broken and not shutting down together imply a live session owned by the current worker |
| `SessionLifecycle.GenerationCountsConnects` | `artpm_agent/core/mcp_client_stdio.py:210-216` | the generation is the number of successful connects |
| `SessionLifecycle.GenerationGrowsByConnects` | `artpm_agent/core/mcp_client_stdio.py:210-216` | over any run it grows by exactly the connects of that run and never falls |
| `SessionLifecycle.WaitsDescend` | `artpm_agent/core/mcp_client_stdio.py:273-311` | every wait is for a thread of strictly lower rank in the lock order |
| `SessionLifecycle.NoWaitCycle` | `artpm_agent/core/mcp_client_stdio.py:262-311` | no chain of waits returns to where it began |
| `SessionLifecycle.SomeoneCanStep` | `artpm_agent/core/mcp_client_stdio.py:345-372` | from any live thread the waits lead to a live thread that can go on without any timeout expiring |
| `SessionLifecycle.CloseRequestsShutdown` | `artpm_agent/core/mcp_client_stdio.py:358-372` | `close` leaves with shutdown requested whatever others do meanwhile |
| `SessionLifecycle.ClosedForGood` | `artpm_agent/core/mcp_client_stdio.py:266-304` | after that, with no `_ensure_connected` in flight, no worker ever starts in any continuation |
| `SessionLifecycle.ForcedDropHitsNothingOrNewer` | `artpm_agent/core/mcp_client_stdio.py:551-561` | in every run from a failure under the current generation to the forced drop: what is dropped is nothing or a newer session, the latter exactly if `_session` is not None; the generation is unchanged exactly if nothing connected, and then nothing is dropped |
| `SessionLifecycle.ConnectingWorkerIsJoined` | `artpm_agent/core/mcp_client_stdio.py:332-343` | a worker that has not connected when a reconnect is forced is the thread the caller goes on to join |
| `SessionLifecycle.JoinedWorkerDoesNotServe` | `artpm_agent/core/mcp_client_stdio.py:284-287` | while the forced caller joins, shutdown stays requested and a worker that reaches serving leaves at its first step |
| `SessionLifecycle.NoConnectWithoutNewThread` | `artpm_agent/core/mcp_client_stdio.py:299-304` | a run that creates no thread and finds no worker connecting has no connect |
| `SessionRuns.ForcedStopMayHitNewerSession` | `artpm_agent/core/mcp_client_stdio.py:551-557` | a reachable run in which a forced reconnect drops a session newer than the failure, and the other caller is not forcing one at any point |
| `SessionRuns.ForcedStopFindsNothing` | `artpm_agent/core/mcp_client_stdio.py:551-557` | a reachable run in which the generation is unchanged at the drop and nothing is dropped |
| `SessionRuns.NewerSessionMayBeGone` | `artpm_agent/core/mcp_client_stdio.py:551-557` | a reachable run in which the generation has changed and nothing is dropped |
| `SessionRuns.JoinTimeoutClosesClient` | `artpm_agent/core/mcp_client_stdio.py:284-287` | a reachable run that closes the client without `close`, its worker unfinished |
| `SessionRuns.InFlightCallServesAfterClose` | `artpm_agent/core/mcp_client_stdio.py:266-304` | a reachable run in which `close` has returned and then an in-flight forced reconnect clears `_shutdown`: a second worker serves, ready |
| `SessionReopening.UnforcedStayShut` | `artpm_agent/core/mcp_client_stdio.py:266-304` | with shutdown requested and no forced call past its check, in every run `_shutdown` stays set and a worker that serves leaves with its next step |
| `SessionReopening.InFlightCanStart` | `artpm_agent/core/mcp_client_stdio.py:266-304` | with no lock held, a call past its shutdown check can start a worker, and bring the client back if it is forced, unless it is about to find the client unbroken |
| `SessionReopening.ComesBackExactly` | `artpm_agent/core/mcp_client_stdio.py:266-304` | with shutdown requested and no lock held, some continuation lowers `_shutdown`, and one serves a ready session, exactly if a forced call is past its check |
| `SessionReopening.JoinTimeoutExactly` | `artpm_agent/core/mcp_client_stdio.py:284-287` | after a join that timed out, some continuation starts a worker exactly if another call is past its check, and the client comes back exactly if a forced one is |
| `SessionReopening.CloseExactly` | `artpm_agent/core/mcp_client_stdio.py:358-372` | after `close` has returned, the client comes back in some continuation exactly if a forced call is past its check |
| `SessionAnswers.EnsureAnswersExactly` | `artpm_agent/core/mcp_client_stdio.py:266-330` | a step leaves `_ensure_connected` exactly if it sees a connection or a reason to fail; with a connection a first attempt goes on to the call, else the request is over; how each place of decision is reached and what a poll has seen |
| `SessionAnswers.NoCallWithoutReady` | `artpm_agent/core/mcp_client_stdio.py:543-549` | in every run, no request is sent unless `_ready` was set at some point since it was made |
| `SessionAnswers.FailureForcesExactly` | `artpm_agent/core/mcp_client_stdio.py:550-557` | a failed call forces a reconnect exactly if its generation is still the current one; otherwise it asks again and touches nothing |
| `SessionAnswers.MarkedIsForced` | `artpm_agent/core/mcp_client_stdio.py:553-561` | forcing drops the session as broken under the state lock before the reconnect |
| `SessionAnswers.CallersWriteExactly` | `artpm_agent/core/mcp_client_stdio.py:255-372` | field by field, which places of a caller set it, which clear it, and that no other does; `close` drops thread, session and loop exactly if the joined worker has finished |
| `SessionAnswers.WorkersWriteExactly` | `artpm_agent/core/mcp_client_stdio.py:161-250` | the same of a worker, and that it serves until it fails or sees shutdown, and records a failure exactly if shutdown was not requested |
| `TenantSession.BindNewRows` | `artpm_agent/database/tenant_session.py:35-48` | stamps scoped new rows in order, raises at the first that carries another scope and leaves the rest as they were |
| `TenantSession.Database.Flush` | `artpm_agent/database/tenant_session.py:35-48` | an accepted flush puts what the pending scoped instances hold behind the view of the session's scope, in order, writes every other one as it is, and is in no other scope's view; a refused one writes nothing |
| `TenantSession.ConflictsExactly` | `artpm_agent/database/tenant_session.py:42-46` | which given scope columns make the hook raise |
| `TenantSession.AcceptedStoresAll` | `artpm_agent/database/tenant_session.py:35-83` | an accepted flush, explicit or ahead of a statement, stores every pending row once, in order, in its own scope's view alone; the statement then acts on that table; adding only queues |
| `TenantSession.RefusedStoresNothing` | `artpm_agent/database/tenant_session.py:42-48` | an operation is refused exactly when a pending row conflicts, and then nothing is stored |
| `TenantSession.ViewInserted` | `artpm_agent/database/tenant_session.py:47-48` | inserted rows are in the view of the inserting session's scope and of no other |
| `TenantSession.OwnViewOnly` | `artpm_agent/database/tenant_session.py:71-82` | a scoped statement reads and changes nothing but its own scope's rows, as a function of those rows alone |
| `TenantSession.OthersKeepView` | `artpm_agent/database/tenant_session.py:71-82` | a scoped statement of another scope leaves this scope's rows and their order |
| `TenantSession.NonInterference` | `artpm_agent/database/tenant_session.py:35-83` | in every interleaving, what one scope observes and stores equals the run with every other scope's operations deleted |
| `TenantSession.UnscopedStatementInterferes` | `artpm_agent/database/tenant_session.py:66-67` | with one statement that opts out of scoping this fails |
| `ConfigValues.FindAfterSet` | `artpm_agent/config_layers.py:84-93` | one write is read below its path, leaves incomparable paths alone and turns its prefixes into dicts |
| `ConfigValues.LastWriterWins` | `artpm_agent/config_layers.py:73-94` | for every sequence of writes and every path, the last comparable write decides what is read |
| `ConfigValues.WrittenValueIsRead` | `artpm_agent/config_layers.py:79-82` | a write with no later comparable write reads back whole |
| `ConfigValues.UnwrittenPathReadsAsBefore` | `artpm_agent/config_layers.py:79-82` | a path no write is comparable with reads as before, also past replaced scalars |
| `ConfigValues.WritesIdempotent` | `artpm_agent/config_layers.py:73-94` | applying the same writes twice equals once |
| `ConfigValues.DeepUpdateReads` | `artpm_agent/config.py:66-73` | after a deep update every path reads from the update where it says anything, else from the base |
| `ConfigValues.DeepUpdateTwice` | `artpm_agent/config.py:66-73` | the same deep update twice equals once |
| `ConfigLayers.StackIsWrites` | `artpm_agent/config_layers.py:139-144` | merging a stack is one sequence of path writes over the base |
| `Text.SplitJoins` | `artpm_agent/config_layers.py:66-70` | the pieces of a text cut at a separator join back to it |
| `Text.JoinedSplits` | `artpm_agent/config_layers.py:66-70` | and pieces without the separator are what their joined text is cut into |
| `ConfigLayers.PartsJoin` | `artpm_agent/config_layers.py:66-70` | the path of a patch key joins back to the stripped key |
| `ConfigLayers.ValidKeyExactly` | `artpm_agent/config_layers.py:66-70` | a patch key is valid exactly if, stripped, it is not empty, has no dot at either end and no two in a row |
| `ConfigLayers.MergedReads` | `artpm_agent/config_layers.py:139-144` | on merged layers a path reads as the last entry that wrote it, or as in the base if no entry is comparable |
| `ConfigLayers.ApplyTwiceIsApplyOnce` | `artpm_agent/config_layers.py:73-94` | a patch applied twice equals once |
| `ConfigLayers.ProvenanceRight` | `artpm_agent/config_layers.py:157-176` | for every stack of creditable keys, the merged value of a key is its value after the layer `dump` names, or the base's |
| `ConfigLayers.CreditableExactly` | `artpm_agent/config_layers.py:162-165` | which patch keys `dump` credits with what they write: no leading whitespace, trailing whitespace only after a dot |
| `ConfigLayers.CreditableIsNecessary` | `artpm_agent/config_layers.py:158-176` | a stack of one key is attributed rightly for every base, value and key if and only if that key is creditable |
| `ConfigDicts.GraftIsPathSet` | `artpm_agent/config_layers.py:93` | one assignment into a dict of the heap tree is one path write of its value |
| `ConfigDicts.StepInto` | `artpm_agent/config_layers.py:87-92` | one step of the walk: descends or puts an empty dict, without changing what the remaining write amounts to |
| `ConfigDicts.WriteAt` | `artpm_agent/config_layers.py:86-93` | the whole walk is one path write, in place, on dicts it owns |
| `ConfigDicts.DeepCopy` | `artpm_agent/config_layers.py:83` | a fresh tree with the same value; the original is unchanged |
| `ConfigDicts.ApplyPatch` | `artpm_agent/config_layers.py:73-94` | the result is the pure application of the patch or its first invalid key; base and patch are not changed nor shared |
| `LayeredConfig.Stack.AddPatch` | `artpm_agent/config_layers.py:113-123` | appends one layer, or refuses at 32 and changes nothing |
| `LayeredConfig.Stack.Merged` | `artpm_agent/config_layers.py:139-144` | a fresh tree with the value of the stack, or the first invalid key; the stack keeps its value |
| `LayeredConfig.Stack.Winner` | `artpm_agent/config_layers.py:158-168` | the search from the top finds the last layer with a crediting key |
| `LayeredConfig.Stack.Dump` | `artpm_agent/config_layers.py:146-177` | every key of the merged configuration, its value and the layer credited with it |
| `LayeredConfig.Get` | `artpm_agent/config.py:462-482` | the dotted-path reader returns exactly what the tree's value has at the path |
| `LayeredConfig.Set` | `artpm_agent/config.py:484-500` | the dotted-path writer is one path write if no scalar lies on the way, and otherwise raises without any change |
| `ArtifactPublish.VersionedNameInjective` | `artpm_agent/artifacts/generator.py:167-172` | different versions of a file have different names |
| `ArtifactPublish.VersionBeforeExtension` | `artpm_agent/artifacts/generator.py:167-172` | a version goes before the extension, which is kept whole |
| `ArtifactPublish.VersionAtEnd` | `artpm_agent/artifacts/generator.py:167-172` | a name without an extension gets it at its end, and version 1 is the name itself |
| `ArtifactPublish.SmallerWereTaken` | `artpm_agent/artifacts/generator.py:174-193` | in every interleaving a publisher tries a version only after each smaller one was found taken |
| `ArtifactPublish.StepKeepsInv` | `artpm_agent/artifacts/generator.py:174-189` | every harmless step keeps each file accounted for by the publisher that made it |
| `ArtifactPublish.PublishingIsSafe` | `artpm_agent/artifacts/generator.py:174-193` | in every interleaving whose opens succeed: earlier files untouched, published ones whole and under distinct names, failed publishers leave nothing |
| `ArtifactPublish.HarmlessRunIsSafe` | `artpm_agent/artifacts/generator.py:174-193` | the same under the weaker condition that no removal after a failed open hits a file |
| `ArtifactPublish.HarmfulExactly` | `artpm_agent/artifacts/generator.py:186-188` | a step breaks the accounting if and only if it is such a removal |
| `ArtifactPublish.HarmlessRunExactly` | `artpm_agent/artifacts/generator.py:174-193` | every file is accounted for at every point of a run if and only if no such removal is in it |
| `ArtifactPublish.HarmSeen` | `artpm_agent/artifacts/generator.py:186-188` | such a removal breaks what an observer relies on at once if the file was there before or is published |
| `ArtifactPublish.FailedOpenDeletesPublished` | `artpm_agent/artifacts/generator.py:180-188` | a reachable run in which a failed open deletes another's published artifact |
| `ArtifactPublish.ArtifactRoot.PublishNew` | `artpm_agent/artifacts/generator.py:174-193` | alone, publishing takes the least free version up to the limit and adds that one file, or fails exactly if none is free |
| `ArtifactPublish.FreeVersionExists` | `artpm_agent/artifacts/generator.py:175-193` | a free version exists while the directory holds fewer entries than the limit |
| `TemplateColumns.NormalizeColumns` | `artpm_agent/artifacts/templates.py:96-111` | the k-th occurrence of a case-folded name gets the suffix `_k`, the first none, blanks a numbered filler |
| `TemplateColumns.NamesExactly` | `artpm_agent/artifacts/templates.py:96-111` | what a column is called, from its cell, its number and how many columns up to it share its folded name |
| `TemplateColumns.DistinctUnlessClash` | `artpm_agent/artifacts/templates.py:96-111` | the names are distinct if and only if no first occurrence is spelled like a suffixed one |
| `TemplateColumns.ThreeHeadersClash` | `artpm_agent/artifacts/templates.py:103-110` | headers `a, a, a_2` clash |
| `TemplateColumns.GeneratorAcceptsExactly` | `artpm_agent/artifacts/generator.py:524-543` | the generator accepts learned columns exactly when they fit its limits on number and length and do not clash |
| `TemplateColumns.DetectHeader` | `artpm_agent/artifacts/templates.py:147-159` | the earliest of the scanned rows with the lexicographically greatest counts, and its column names |
| `TemplateColumns.CountsExactly` | `artpm_agent/artifacts/templates.py:147-159` | the two counts are the numbers of cells that are not blank and that are text |
| `TemplateStore.Store.LearnFromFile` | `artpm_agent/artifacts/templates.py:428-471` | replaces the first template with the name or hash under its identity and history, or appends |
| `TemplateStore.Store.RecordUse` | `artpm_agent/artifacts/templates.py:538-556` | counts one use of the first template with the id, or changes nothing if there is none |
| `TemplateStore.StepKeepsStore` | `artpm_agent/artifacts/templates.py:448-469` | one operation loses nothing, keeps ids distinct and creation times, adds at most one template, counts uses exactly |
| `TemplateStore.RunKeepsStore` | `artpm_agent/artifacts/templates.py:428-556` | over every run from an empty store ids are distinct and usage counts sum to the successful uses |
| `TemplateStore.RunLosesNothing` | `artpm_agent/artifacts/templates.py:428-556` | between any two points of a run no id is lost, no creation time changes, and at most one template is added per learn |
| `TemplateStore.LearnedNamesDistinctExactly` | `artpm_agent/artifacts/templates.py:448-466` | learning keeps names distinct exactly when no template after the replaced one has the new name |
| `TemplateStore.RenamedOntoAnother` | `artpm_agent/artifacts/templates.py:449-464` | a run of three learns that leaves two templates with one name |
| `TemplateChoice.Search` | `artpm_agent/artifacts/templates.py:498-536` | the listed templates that score, best first, cut to the limit |
| `TemplateChoice.TextScoresExactly` | `artpm_agent/artifacts/templates.py:507-528` | the text scores exactly when the prompt names the template, holds a keyword, shares a token or is contained in it |
| `TemplateChoice.PointsExactly` | `artpm_agent/artifacts/templates.py:498-531` | what a template scores in points, from the keywords held, the tokens shared, its name, its whole text and its use |
| `TemplateChoice.HaystackHolds` | `artpm_agent/artifacts/templates.py:507-516` | name, notes, keywords, sheet names and columns are all in the text searched |
| `TemplateChoice.RankedExactly` | `artpm_agent/artifacts/templates.py:527-536` | ranked matches are exactly the stored templates with a positive score, in descending order |
| `TemplateChoice.RankedByScoreThenTime` | `artpm_agent/artifacts/templates.py:535-536` | matches come by score and then by last change |
| `TemplateChoice.ListedInOrder` | `artpm_agent/artifacts/templates.py:473-485` | templates are listed by last change, use and id, greatest first |
| `TemplateChoice.TemplateForPrompt` | `artpm_agent/artifacts/coordinator.py:618-634` | the choice made from three matches is the choice made from the whole ranking |
| `TemplateChoice.ChosenLeads` | `artpm_agent/artifacts/coordinator.py:628-634` | a chosen match leads every other stored template by three points or is the only one that scores |
| `TemplateChoice.ChoiceExactly` | `artpm_agent/artifacts/coordinator.py:618-634` | the choice in full: a scoring template is chosen exactly if it leads every other one that scores by 3.0 points, and which answer is given otherwise |
| `TemplateChoice.ChoiceIsByText` | `artpm_agent/artifacts/coordinator.py:628-634` | with two or more scoring, the chosen one's text alone scores strictly highest |
| `TemplateChoice.ChosenIsBestTextExactly` | `artpm_agent/artifacts/coordinator.py:618-634` | the returned template has strictly the best text if and only if the text of some stored template scores for the prompt |
| `TemplateChoice.UseAloneCanDecide` | `artpm_agent/artifacts/templates.py:529-531` | with no text in common a template is returned for having been used |
| `RowRealignment.CoercePlanRows` | `artpm_agent/artifacts/coordinator.py:418-450` | one coerced row per validated plan row |
| `RowRealignment.CellValue` | `artpm_agent/artifacts/generator.py:417-431` | an error exactly for a number that is not finite and for text over the limit; else the cell as it is, or the same text after one quote if it is a formula |
| `RowRealignment.TableRows` | `artpm_agent/artifacts/generator.py:433-463` | all rows laid out and checked, or an error exactly when there are too many or one is refused |
| `RowRealignment.RowsExactly` | `artpm_agent/artifacts/generator.py:433-463` | which rows are refused, and that every other row has each of its cells entered under its column |
| `RowRealignment.CoercedRowLaid` | `artpm_agent/artifacts/coordinator.py:437-449` | a coerced row always fits the template and lays out as the plan's cells under its columns |
| `RowRealignment.RealignedRows` | `artpm_agent/artifacts/coordinator.py:418-450` | coercion then checking fails only on a limit or a cell, and otherwise keeps every row at template width with the plan's own cells, formulas quoted |
| `RowRealignment.MeantCellArrivesExactly` | `artpm_agent/artifacts/coordinator.py:435-449` | a list-row cell meant for a template column arrives if and only if its plan column is trimmed or it is empty |
| `RowRealignment.MeantCellsArrive` | `artpm_agent/artifacts/coordinator.py:175-190` | with trimmed plan columns every meant cell of list and mapping rows arrives |
| `RowRealignment.PlainExactly` | `artpm_agent/artifacts/generator.py:129-138` | a stored sheet name is written unchanged exactly if it is trimmed, of 1 to 31 characters, without invalid ones and without outer quotes |
| `RowRealignment.SheetNameTwiceExactly` | `artpm_agent/artifacts/generator.py:129-138` | a written name is itself written unchanged exactly if it is trimmed |
| `RowRealignment.QuotedSpaceIsNotTrimmed` | `artpm_agent/artifacts/generator.py:135-137` | a quoted space is accepted once and refused the second time |
| `RowRealignment.BracketsAreRewritten` | `artpm_agent/artifacts/generator.py:135` | the stored name `data[1]` is written as `data_1_` |
| `RowRealignment.RowsArriveExactly` | `artpm_agent/artifacts/generator.py:545-567` | the rows of the first sheet reach it exactly if its stored name is plain |
| `RowRealignment.GenerateFirstSheet` | `artpm_agent/artifacts/generator.py:595-615` | from the plan to the sheet: with a plain name every row arrives with the plan's own cells or a limit or cell is refused, with any other accepted name the sheet has no rows |
| `RowRealignment.OtherSheetsExactly` | `artpm_agent/artifacts/generator.py:545-560` | another sheet of the template receives them too exactly if its written name, or the numeral of its index, is the first one's stored name; and what that means for its stored name |
| `RowRealignment.OtherSheetsReceiveToo` | `artpm_agent/artifacts/generator.py:545-560` | two templates in which another sheet does |
| `TokenCache.StepKeepsInv` | `artpm_agent/core/token_monitor.py:277-300` | every step keeps each cached and each read value exact at a recent instant |
| `TokenCache.BoundedStaleness` | `artpm_agent/core/token_monitor.py:105-147` | in every run a returned value was the exact aggregate no earlier than 15 seconds, for reports 30, plus the duration of the call that computed it ago |
| `TokenCache.LagIsACall` | `artpm_agent/core/token_monitor.py:105-147` | in a run whose calls take at most so long, no value is charged with more |
| `TokenCache.LiveEntryReturned` | `artpm_agent/core/token_monitor.py:105-111` | a call that finds a live entry returns it and changes nothing |
| `TokenCache.OtherwiseComputed` | `artpm_agent/core/token_monitor.py:112-147` | any other call returns today's aggregate of the table and, with a working cache, leaves it there |
| `TokenCache.ReadingTrue` | `artpm_agent/core/redis_cache.py:96-125` | a reader's step, with a cache that is absent, failing or working, keeps what it carries exact |
| `TokenBudget.Monitor.Track` | `artpm_agent/core/token_monitor.py:67-103` | records one row and drops every cached aggregate, or refuses negative numbers |
| `TokenBudget.Monitor.ReadThrough` | `artpm_agent/core/token_monitor.py:105-300` | every cached aggregate: of the current table and for today, or within the time to live after midnight for an earlier day after which nothing was tracked |
| `TokenBudget.Monitor.Compute` | `artpm_agent/core/token_monitor.py:277-300` | the aggregate read from the table, its sums by the rows that qualify |
| `TokenBudget.Budget.CheckLimit` | `artpm_agent/core/token_monitor.py:350-394` | the verdict, the remainder and the errors in terms of the current totals of the period |
| `TokenBudget.Budget.SetLimit` | `artpm_agent/core/token_monitor.py:430-437` | replaces one known limit by a positive value, or changes nothing |
| `TokenBudget.WeekStaysWithin` | `artpm_agent/core/token_monitor.py:387-389` | the week's limit is kept although its first day comes from two looks at the clock |
| `TokenBudget.WeeksBeginOnMondays` | `artpm_agent/core/token_monitor.py:387-389` | a week begins on the Monday on or before a day |
| `TokenBudget.DayStaysWithin` | `artpm_agent/core/token_monitor.py:385-386` | the day's limit is kept although the cached total may be the day before's |
| `TokenBudget.Spend` | `artpm_agent/core/token_monitor.py:350-370` | tracking no more than was just allowed keeps every day, week and month within its limit |
| `TokenBudget.SpendAll` | `artpm_agent/core/token_monitor.py:350-437` | so does every sequence of guarded requests with limits only raised |
| `MarketCache.StepKeepsInv` | `artpm_agent/core/mcp_client_stdio.py:637-707` | every step of calls, closes and restarts keeps memory and disk entries traceable to a recent fetch |
| `MarketCache.CachedAnswersAreRecent` | `artpm_agent/core/mcp_client_stdio.py:519-541` | a cached answer is some fetch's payload, less than one time to live old, or less than two if it came from disk, plus call durations |
| `MarketCache.DiskRestartsTheClock` | `artpm_agent/core/mcp_client_stdio.py:678-683` | with instantaneous calls an answer can be two seconds short of two times to live old |
| `MarketCache.NoCloseNoEmptyAnswer` | `artpm_agent/core/mcp_client_stdio.py:521-530` | without a `close` no cached answer is empty |
| `MarketCache.OnlyUnforcedHitsCache` | `artpm_agent/core/mcp_client_stdio.py:519-541` | a call answers from the cache exactly if it is not forced and found an entry younger than the time to live; any other returns what was fetched since it was asked |
| `MarketCache.EmptyAnswerExactly` | `artpm_agent/core/mcp_client_stdio.py:519-541` | a call that found a fresh entry answers from nothing exactly if a `close` of its process and no later store fell between its check and its read |
| `MarketCache.CloseFallsBetween` | `artpm_agent/core/mcp_client_stdio.py:519-541` | a run from the start in which a fetch succeeds, a second call finds it fresh, `close` falls between and the call answers from nothing |
| `EnvQuoting.UnquoteQuote` | `artpm_agent/api/config_admin.py:425-441` | a written value reads back exactly when it is bare or has no control character escaped by number |
| `EnvQuoting.QuoteOneLine` | `artpm_agent/api/config_admin.py:425-441` | a quoted value has no line break exactly when it has none of the three that JSON leaves alone |
| `EnvQuoting.NumericEscape` | `artpm_agent/api/config_admin.py:425-441` | a control character without a name is written as its number in four hexadecimal digits |
| `EnvQuoting.BareValueReads` | `artpm_agent/api/config_admin.py:516-521` | an unquoted value reads as itself, whatever whitespace surrounds it and whatever comment follows |
| `EnvQuoting.SingleQuotedReads` | `artpm_agent/api/config_admin.py:516-521` | between single quotes everything stands for itself |
| `EnvQuoting.DoubleQuotedReads` | `artpm_agent/api/config_admin.py:516-521` | between double quotes everything but a backslash does |
| `EnvLines.UpdateLines` | `artpm_agent/api/config_admin.py:455-473` | the loop that pops updates as it meets their keys computes the updated lines |
| `EnvLines.WrittenAssigns` | `artpm_agent/api/config_admin.py:455-464` | a rewritten line is recognised as an assignment of its key and value, with or without `export` |
| `EnvLines.PlainAssignmentReads` | `artpm_agent/api/config_admin.py:455-460` | an assignment is recognised behind any whitespace and with any whitespace before its `=` |
| `EnvLines.ExportedAssignmentReads` | `artpm_agent/api/config_admin.py:455-460` | and behind `export` and whitespace |
| `EnvLines.ParsedHasForm` | `artpm_agent/api/config_admin.py:455-460` | every recognised line has one of these forms |
| `EnvLines.NamedReads` | `artpm_agent/api/config_admin.py:516-521` | a key alone on its line, but for whitespace and a comment, is named |
| `EnvLines.ExportKept` | `artpm_agent/api/config_admin.py:461-462` | rewriting keeps `export` followed by a space and adds none |
| `EnvLines.UpdatedReads` | `artpm_agent/api/config_admin.py:455-473` | every key reads as the update if no line assigned it, or just one did and no later line takes it back, else as before |
| `EnvLines.UpdateTakesEffect` | `artpm_agent/api/config_admin.py:459-464` | an update takes effect if and only if no line assigned the key, or just one did and no later line takes it back, or the lines already said so |
| `EnvLines.OtherLinesStay` | `artpm_agent/api/config_admin.py:459-473` | all other lines stay verbatim and in place, before anything appended |
| `EnvLines.AppendedLines` | `artpm_agent/api/config_admin.py:468-473` | what is appended: at most one blank line, then an assignment for each update no line had |
| `EnvFile.LinesOfOutput` | `artpm_agent/api/config_admin.py:475-479` | splitting the written text gives the lines less one blank line at the end |
| `EnvFile.FirstLine` | `artpm_agent/api/config_admin.py:458` | the first line of a text ends at its first line break, of any of the kinds |
| `EnvFile.RestoredEndings` | `artpm_agent/api/config_admin.py:360-391` | the file uses only the detected line ending and reads as the text that was written |
| `EnvFile.WrittenStaysOneLine` | `artpm_agent/api/config_admin.py:459-464` | the exact condition under which a written line splits at the next write |
| `EnvFile.PersistedLines` | `artpm_agent/api/config_admin.py:444-479` | the lines and the line endings of the file after an in-place write |
| `EnvFile.PersistThenRead` | `artpm_agent/api/config_admin.py:444-479` | what every key reads as after an in-place write, from file to file |
| `EnvFile.Host.Persist` | `artpm_agent/api/config_admin.py:394-422` | a batch with an empty value, or one on which `set_key` raises, goes through the in-place writer and makes the specified file; any other leaves what python-dotenv wrote; a file with one kind of line ending keeps it |
| `EnvFile.DetectsUsedEnding` | `artpm_agent/api/config_admin.py:363-376` | the detected ending is the one a file with line breaks of one kind uses |
| `EnvFile.Host.PersistInPlace` | `artpm_agent/api/config_admin.py:444-479` | detecting, rewriting and restoring make the specified file |
| `EnvFile.Host.LoadFile` | `artpm_agent/api/config_admin.py:516-521` | the environment is overridden by exactly what the file says, its last word on each key, and only where that is a value |
| `EnvFile.Host.ApplyConfig` | `artpm_agent/api/config_admin.py:482-533` | a refused batch changes nothing; after an accepted one the process sees what the new file says, whichever writer made it, the submitted value of a key the file is silent on, and every other variable as before; after an in-place write, exactly which updates the file reads as |
| `Backup.Snapshots.TakeBackup` | `scripts/backup_data.py:37-64` | the naming loop ends at the first free name, never reuses one, adds the snapshot, prunes, and leaves exactly `keep`, or one more than before |
| `Backup.Snapshots.Prune` | `scripts/backup_data.py:67-78` | deletes all but the snapshots with fewer than `keep` greater names, and leaves exactly `keep`, or all if there are no more |
| `Backup.KeptExactly` | `scripts/backup_data.py:71-77` | exactly as many names are kept as asked for or all, and each is greater than each that is not |
| `BackupNames.StampsInTimeOrder` | `scripts/backup_data.py:45` | stamps of earlier times sort before those of later ones |
| `BackupNames.StampLayout` | `scripts/backup_data.py:45` | a stamp is `YYYYMMDD_HHMMSS`, each field in decimal |
| `BackupNames.CandidateBefore` | `scripts/backup_data.py:45-51` | so does every numbered name of an earlier second |
| `BackupRuns.TakeBackups` | `scripts/backup_data.py:37-64` | every run of backups leaves what the specification says and returns the last name |
| `BackupRuns.SecondExactly` | `scripts/backup_data.py:45-51` | what a directory of earlier snapshots holds after n backups in one second, and the name the last of them got |
| `BackupRuns.NewestRemain` | `scripts/backup_data.py:67-78` | backups under ascending stamps leave the last `keep` of them on top of the greatest earlier ones, the new one included |
| `BackupRuns.BackupOverTime` | `scripts/backup_data.py:37-78` | the same of the program, for strictly increasing times over any directory of earlier snapshots |
| `BackupRuns.NewSurvivesExactly` | `scripts/backup_data.py:45-51` | the new snapshot survives its own pruning if and only if nothing is pruned or its second has had at most `keep + 1` backups |
| `BackupRuns.RecentRemainExactly` | `scripts/backup_data.py:67-78` | what remains is the most recent if and only if the second has had at most `keep + 1` backups |
| `BackupRuns.BackupWithinSecond` | `scripts/backup_data.py:37-78` | both of the program, over any directory of earlier snapshots |
| `BackupRuns.UpToTenRemain` | `scripts/backup_data.py:67-78` | a second with up to ten backups and any later ones leave the most recent, whatever there was before |
| `BackupRuns.SomeTooManyExactly` | `scripts/backup_data.py:67-78` | when n backups of one second and later ones are from three to ten too many, the most recent are left if and only if n is at most ten |
| `BackupRuns.ElevenThenThree` | `scripts/backup_data.py:67-78` | a run in which the eleventh snapshot of a second is gone and the third is still there |

## Left out

- SessionLifecycle: accesses under one lock that are adjacent in the code and touch one field are one step; error texts and categories, logging, `atexit` and the internals of submitting coroutines are not modelled, nor are exceptions that are not `Exception` in a worker. The second attempt of a call touches no field and is not a step.
- The heartbeat and the loop drain of a worker are one step that may fail; their timing is not modelled.
- TenantSession.NonInterference: each operation is atomic and visible at once; transactions, rollback of rows flushed earlier, the identity map and PostgreSQL row security are not modelled. A refused flush drops the pending rows, as the session's rollback does. Generated row ids are not part of what is observed.
- ConfigDicts.ApplyPatch: base and patch are trees, as JSON gives them; a dict shared between two keys of an inline base is not modelled. `add_patch` keeps the caller's nested values by reference, so the value of a layer is that of the moment it is merged.
- ConfigValues.DeepUpdateReads: `_deep_update` is modelled on values; that it stores dicts of the update in the base by reference is not captured.
- Reading patch files, profile and home directories, environment variables in `Config`: input and output.
- ArtifactPublish: file-name sanitising and path resolution are not modelled; file contents are written by whole prefixes to the file the publisher created.
- TemplateColumns.NormalizeColumns: header cells arrive cleaned; Unicode normalisation and case folding are parameters.
- TemplateChoice.ChoiceIsByText: scores are exact tenths, so rounding of the 0.1 bonus is not modelled; token splitting is a parameter; stores of up to 10,000 templates, the number a search lists.
- The document template store repeats the spreadsheet one; only the latter is modelled. Paragraph styling is not modelled.
- RowRealignment.GenerateFirstSheet: the template's columns are ones the generator accepts; the default name of a sheet that has none and the workbook itself are not modelled. That two sheets may come out with one name is left to the library that writes the workbook.
- RowRealignment: dates are not among the cell types a plan can carry; values that stand for themselves are kept as spelled.
- TokenCache.BoundedStaleness: each aggregate is one query; the second query of `get_today_stats`, for yesterday, and the differences derived from it are not modelled. The local time zone is fixed.
- TokenBudget.Monitor.ReadThrough: the reports other than the two totals are arbitrary functions of the table and the day.
- TokenBudget: costs, alert levels, recommendations and the configuration file of the limits are not modelled; the calendar of months is a parameter.
- MarketCache.CachedAnswersAreRecent: the wall clock and the monotonic clock advance together, the time to live is fixed, and a document on disk is replaced as a whole.
- EnvFile.Host.Persist: what `python-dotenv` writes, and whether it raises, are parameters with no constraint; only the in-place writer and the restored line endings are modelled. Decoding errors and file permissions are not modelled.
- EnvQuoting.UnquoteQuote: the reader is single-line and without interpolation; a quote that is not closed on its line is read as plain text; lines whose key is not a word are skipped.
- EnvFile.Host.ApplyConfig: coercion of a submitted value is a parameter; after a batch that python-dotenv wrote, nothing is said about what the file says, only that the process agrees with it. The reload does not fail.
- Backup.Snapshots.TakeBackup: files are copied whole; a copy that fails half way is not modelled, nor are entries of the backup directory that are not directories.
- BackupRuns.BackupOverTime: years have four digits and the local clock never goes back.
- Permission approval, the workflow engine, the conversation store, the model gateway, the user interface, routing and telemetry: they rest on stores and services outside these files, or would only add easy members.
