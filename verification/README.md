# A verified model of the DatabaseQueryResource operator

The operator polls a PostgreSQL database, renders one Kubernetes object for every row of a query, and
keeps the cluster in step with the rows. This project models its reconcile loop and the parsers around
it in Dafny, and proves what they promise.

* **Surroundings.** The cluster is a history of writes (`Cluster`), so the number of writes is the
  resource version. Every API call meets an arbitrary *turn*: writes of others that arrive before it, a
  possible failure, and a lag of its read. The custom resource has its own store of revisions
  (`ResourceStore`) with turns of the same kind: spec edits, finalizer edits, deletion. The database
  (`Database`) accepts or refuses each status report, and an `Occasion` holds the clock and the answers
  of configuration, connection, detection query and query. Statements either hold for every such
  environment (*safe*); or say, for every one of them, how a step ends, since what a step does is
  determined by the turns it meets (`RowEnds`, `PruneDone`, `StoreCourse`); or say exactly what happens
  to calls that nothing disturbs or that meet failures only (*exact*); a premise of the last kind is
  about the calls of the step in question and no others.
* **Writing a child.** `Json` and `Manifests` model canonical JSON (numbers become float64), the recorded
  last-applied configuration, the overlay and the decision to write. `ConflictRetry` is the retry loop.
* **A pass.** `Rows`, `Children`, `Deletions`, `StatusLedger` and `Pass` are the steps of a full pass;
  `PassLaws` says what passes achieve; `Cleanup` is the finalizer path. Every pass comes with a record
  of each of its rows and of its pruning, disturbed or not, from which `FailureLaws` derives what a
  failure or an interference can cost. The API server's log of calls bears the records out and
  determines which calls are a row's own.
* **The schedule.** `Schedule` has the webhook's rules and the decision between skipping and a full pass,
  `ScheduleRuns` the bounds over timed runs of wake-ups, `ChangeRuns` what becomes of database changes and
  spec edits over them; `TimedRuns` carries the bounds over to runs of whole reconciles.
* **The loop.** `Reconciler` puts a reconcile together, deferred status write included; `ReconcileRuns` is
  about runs of whole reconciles, undisturbed ones and arbitrary ones.
* **Texts.** `StatementSplitter`, `SplitterLaws` and `PostgresQuoting` treat the SQL splitter;
  `ObjectKeys`, `PgIdentifiers` and `GvkPatterns` the string codecs; `Text` holds `strings.Split`,
  `strings.Join`, `strings.TrimSpace` and string order.

## What turned out differently

Where the code does not do what one might expect of it, the model follows the code and states exactly when
it does.

* The splitter opens a dollar quote at any dollar with another one after it. It agrees with PostgreSQL's
  lexical rule if and only if every dollar quote it opens has a proper tag and follows no identifier
  (`AgreesOnProperDollars`); `$1; $2` is read as one open quote (`ParametersReadAsQuote`).
* The decision to write a child reads nothing but the recorded configuration (`DriftIsInvisible`), so an
  object that has drifted is left alone (`DriftStays`). After a pass without failures a rendered object
  holds its content if and only if no such drift is hidden (`PassRefinesSetSpec`).
* An update records the merged annotations. After it the object counts as up to date if and only if it had
  no annotation beside the desired ones and no desired annotation is empty; otherwise it is written again
  on every pass (`ConvergesAfterUpdateExactly`, `UpdatedForever`, `SecondPassIsQuietExactly`).
* An integer can change without being noticed, unless it is below 2^53 in size, or below 2^54 and twice an
  odd number (`ChangesSeenExactly`).
* A failing row's key is not among the processed ones, so its object is pruned when it was managed
  (`PassExactly`). Whatever else fails or interferes, an object is removed only if every row that asks for
  it is bad itself or had one of its own calls disturbed (`RemovedForCause`).
* A stale child goes if and only if a read and a deletion of it are served (`PruneExactly`). One that stays
  is no longer managed and is not touched again, unless a row asks for it or a staler revision of the
  resource is read (`OrphansStay`).
* The finalizer is removed although children whose read failed may remain; nothing remains if and only if
  every living one could be read (`NothingLeftExactly`, `ReleaseLeavesNothingExactly`).
* A spec edit forces the next reconcile that reads it to attempt a full pass, and the next one only if the
  status write of the first was lost or something else is due (`FailedEditRetriedExactly`,
  `EditForgotten`).
* A detected change whose pass fails has used up its trigger once a check time was stored: before the poll
  interval has elapsed it is attempted again only for rows stamped after the check time that is really
  stored, or when detection itself fails (`DetectedChangeRetriedExactly`, `DetectedChangeForgotten`). No
  change waits longer than both intervals (`ChangesAreQueried`, `CallsQueryChanges`).
* A spec that bypassed the webhook can stop its own schedule (`ParkedExactly`).
* A delay can be shorter than both intervals and the 30 seconds of a connection retry (`ShortDelay`), exactly
  when a reconcile skips without a check and less than that is left of the change interval since the last
  one (`ShortDelayExactly`). With only the timer this takes a lost connection in every reconcile since that
  check (`ShortDelaysFollowLostConnections`), and it never happens twice in a row (`ShortDelaysAreAlone`).
* A part that arrives already quoted is passed through unchanged, so the sanitised name decodes if and only
  if those parts were well formed (`DecodableExactly`).
* The documentation pages describe polling by `MAX(timestamp)` and pruning by label. The code looks for
  any row stamped after the last check and prunes by the managed keys in the status; so does the model.

## Model

Go files are under `internal/` and `api/`; "undisturbed" means no other writer, no failure and no stale
read, "steady" allows failures.

| member | source | states |
|---|---|---|
| `Json.CanonDecidesContent` | internal/controller/databasequeryresource_controller.go:191-207 | comparing canonical forms decides equal content, in both directions, against a definition of equal content that uses no normal form |
| `Json.CanonIsIdempotent` | internal/controller/databasequeryresource_controller.go:191-201 | a second JSON round trip changes nothing |
| `Json.ChangesSeenExactly` | internal/controller/databasequeryresource_controller.go:174-181 | every change of an integer is seen if and only if it is below 2^53 in size, or below 2^54 and twice an odd number; any other is confused with a neighbour |
| `Json.RoundsToNearest` | internal/controller/databasequeryresource_controller.go:191-201 | an integer comes back as the nearest number that float64 has around it, the even one of two that are as near |
| `Manifests.UpToDateExactly` | internal/controller/databasequeryresource_controller.go:133-187 | a live object is left alone if and only if its recorded configuration has the content of the desired one |
| `Manifests.CheckFailsExactly` | internal/controller/databasequeryresource_controller.go:133-160 | the check itself fails if and only if the live object carries a record that cannot be read; an absent object, or one without a record, has to be written |
| `Manifests.DriftIsInvisible` | internal/controller/databasequeryresource_controller.go:152-187 | two live objects with the same record get the same verdict, whatever else differs |
| `Manifests.OverlayIsIdempotent` | internal/controller/databasequeryresource_controller.go:213-235 | overlaying twice is overlaying once, as the caller of the retry loop needs |
| `Manifests.UpdateKeepsTheRest` | internal/controller/databasequeryresource_controller.go:213-235 | an update keeps every unmanaged field and foreign annotation and removes exactly the annotations desired empty |
| `Manifests.LiveObject.ApplyDesiredState` | internal/controller/databasequeryresource_controller.go:213-235 | the in-place overlay is the specified one |
| `Manifests.LiveObject.SetLastAppliedConfig` | internal/controller/databasequeryresource_controller.go:98-130 | the record is the object's own configuration without the record itself |
| `Manifests.ConvergesAfterCreate` | internal/controller/databasequeryresource_controller.go:98-187 | a freshly created object is up to date, integers included |
| `Manifests.ConvergesAfterUpdateExactly` | internal/controller/databasequeryresource_controller.go:98-187 | an updated object is up to date if and only if the replaced one had no foreign annotation and no desired annotation is empty |
| `Manifests.NeverSettlesByUpdating` | internal/controller/databasequeryresource_controller.go:223-253 | updating never brings that condition about, nor destroys it |
| `Manifests.UpdatedForever` | internal/controller/databasequeryresource_controller.go:223-253 | without it every further pass writes the object again |
| `Cluster.VersionFixesContent` | internal/controller/databasequeryresource_controller.go:245-281 | optimistic concurrency: a version that is still current has the content it was read with |
| `Cluster.ApiServer.Get` | internal/controller/databasequeryresource_controller.go:138-145 | a read answers from the history as it was, at worst `lag` writes ago, and what it returns was a version of the object |
| `Cluster.ApiServer.Update` | internal/controller/databasequeryresource_controller.go:256-264 | an update lands if and only if nothing fails and the version is the current one |
| `Cluster.ApiServer.ServerSideApply` | internal/controller/databasequeryresource_controller.go:579-584 | an apply lands unless it fails, merged over an object that appeared meanwhile |
| `Cluster.ApiServer.Delete` | internal/controller/databasequeryresource_controller.go:885-895 | a deletion removes an existing object unless it fails |
| `ConflictRetry.Attempt` | internal/controller/databasequeryresource_controller.go:250-264 | one attempt lands on the object exactly as it stood, or changes nothing |
| `ConflictRetry.UpdateWithConflictRetry` | internal/controller/databasequeryresource_controller.go:245-281 | for every interleaving: success is one write of overlay and record onto the object as it stood just before, failure is no write; how many attempts are made, from what each starts, and how the last one ends follow from the surroundings alone (`RetryEnds`) |
| `ConflictRetry.EndsOnce` | internal/controller/databasequeryresource_controller.go:245-281 | that description has one solution: the number of attempts, the history left and the error are determined |
| `ConflictRetry.GivesUpForCause` | internal/controller/databasequeryresource_controller.go:245-281 | it fails only when an update was refused or found the object gone, a re-read after a conflict returned nothing, or three attempts in a row were overtaken |
| `ConflictRetry.RetryLands` | internal/controller/databasequeryresource_controller.go:262-277 | after a conflict on the first or second attempt, a served and current re-read followed by no change of the object makes the next update land on the object as re-read, whatever else is written |
| `ConflictRetry.TwoConflictsAreSurvived` | internal/controller/databasequeryresource_controller.go:245-281 | when one of the three attempts is unhindered and nothing but conflicts goes wrong before it, the update succeeds |
| `Rows.ShouldUpdateResource` | internal/controller/databasequeryresource_controller.go:133-187 | whatever the surroundings do, the verdict is on what the read returns: a refused read fails, an absent object has to be written; undisturbed it is the verdict on the live object |
| `Rows.Create` | internal/controller/databasequeryresource_controller.go:573-585 | creation by server-side apply is one write with its record, exactly when the call is served, or none |
| `Rows.Replace` | internal/controller/databasequeryresource_controller.go:592-610 | replacing what was read is one landed write, or none; whether it lands, and when, is that of the retry loop |
| `Rows.Write` | internal/controller/databasequeryresource_controller.go:567-611 | create or replace: one write applied to the current object on success, none on failure; which of these, and what is written, follows from the surroundings alone (`WriteEnds`); undisturbed it succeeds |
| `Rows.ProcessRow` | internal/controller/databasequeryresource_controller.go:500-619 | under any disturbance a row writes at most once, only its own object, and nothing if it fails; its calls, its write and its success follow from the surroundings alone (`RowEnds`); when nothing disturbs its calls it fails exactly when it is bad and does exactly the specified step |
| `Rows.RefusedCheckFails` | internal/controller/databasequeryresource_controller.go:138-146 | a row whose check is refused fails after that one call |
| `Rows.RowSurvivesConflicts` | internal/controller/databasequeryresource_controller.go:500-619 | a row whose check and read are served succeeds although others write to its object, as long as the object stays in place, no call fails but for conflicts, and one of its three attempts is unhindered |
| `Rows.AbsentIsCreated` | internal/controller/databasequeryresource_controller.go:567-585 | a row that finds its object absent, and whose apply is served, succeeds; the object is then what was rendered with its record, unless someone created it in between |
| `Rows.ApplyingKeepsTheRest` | internal/controller/databasequeryresource_controller.go:213-281 | a write that applies an object keeps every annotation and unmanaged field that the object does not name |
| `Pass.ProcessRows` | internal/controller/databasequeryresource_controller.go:500-619 | all rows: under any disturbance a record for each row, one after the other, of which the above holds and which the log of calls bears out; the keys are exactly the recorded ones and only asked objects are written, each applied to what stood there just before; undisturbed the history, keys and failures are those of the specified steps |
| `Pass.SortKeys` | internal/controller/databasequeryresource_controller.go:676-681 | the managed list is the sorted listing of the processed keys, without repetition |
| `PassLaws.AskedCarryTheOwner` | internal/controller/databasequeryresource_controller.go:521-555 | every applied object is what some row rendered, up to the default namespace and the managed-by label, and is not owned by another controller |
| `PassLaws.PreparedExactly` | internal/controller/databasequeryresource_controller.go:500-558 | exactly which rows name an object to apply, and which object: all that render, except another controller's in the owner's namespace; as rendered, with default namespace and label |
| `PassLaws.RowsFailExactly` | internal/controller/databasequeryresource_controller.go:500-619 | of an undisturbed pass exactly those rows fail whose name is impossible or whose object carried an unreadable record when the pass began; the keys of all others are kept |
| `PassLaws.GoodRowSucceeds` | internal/controller/databasequeryresource_controller.go:560-619 | any other row succeeds; an object that was absent or without a record is written and holds the desired content |
| `PassLaws.RowsHoldExactly` | internal/controller/databasequeryresource_controller.go:500-619 | without failures an asked name holds the content of the last row that asked for it if and only if no drift is hidden: the object had drifted and every row took it to be up to date |
| `PassLaws.FaithfulHidesNothing` | internal/controller/databasequeryresource_controller.go:133-187 | on a cluster where every object is as its record tells, no drift is hidden |
| `PassLaws.DriftStays` | internal/controller/databasequeryresource_controller.go:133-187 | whatever else is put into the spec of a created object, its row leaves it there |
| `PassLaws.RowHoldsExactly` | internal/controller/databasequeryresource_controller.go:560-619 | a successful row leaves the desired content if and only if it does not meet unseen drift |
| `PassLaws.RowsMakeExist` | internal/controller/databasequeryresource_controller.go:500-619 | afterwards an object exists if and only if it did before or a row for it succeeded |
| `Children.ReadableMembers` | internal/controller/databasequeryresource_controller.go:914-935 | the deletion reader names exactly the valid objects whose keys are listed |
| `Children.ReadersAgree` | internal/controller/databasequeryresource_controller.go:408-414 | on lists of valid keys all readers name the same objects in the same order |
| `Children.CollectChildren` | internal/controller/databasequeryresource_controller.go:909-947 | reading the managed children writes nothing and returns, under any disturbance, exactly those whose read returns an object, in order; on a steady cluster those that exist and are served |
| `Children.FoundExactly` | internal/controller/databasequeryresource_controller.go:909-947 | a child is among them if and only if one of the reads for it returned it |
| `Deletions.DeletedExactly` | internal/controller/databasequeryresource_controller.go:871-906 | with failures, exactly the objects with a served deletion call are gone and all others are unchanged |
| `Deletions.DeletedAmidExactly` | internal/controller/databasequeryresource_controller.go:885-904 | whatever others write: right after a deletion call that met no fault its object is gone, one that met a fault deletes nothing, and no call touches another object |
| `Deletions.DeletionsCount` | internal/controller/databasequeryresource_controller.go:318-326 | the number of living children never rises and falls by exactly the deletions made |
| `Deletions.StaleMembers` | internal/controller/databasequeryresource_controller.go:876-884 | what is deleted is exactly the collected children whose key is not current |
| `Deletions.PruneStaleResources` | internal/controller/databasequeryresource_controller.go:871-906 | under any disturbance exactly the stale children are tried, each once, and exactly the entries of those found gone are dropped; recorded versions of current keys stay |
| `Deletions.Prune` | internal/controller/databasequeryresource_controller.go:621-641 | under any disturbance only managed objects that are not current are removed, the history left and the number of calls and errors are determined, and with failures only the result is the specified one |
| `Deletions.DeleteAll` | internal/controller/databasequeryresource_controller.go:318-326 | deletion stops at the first call that met a fault, having dealt with exactly the children before it, whatever others write |
| `StatusLedger.EntryIsLastReport` | internal/controller/databasequeryresource_controller.go:951-1024 | a recorded version is that of the key's last accepted report, or as it was read when there was none |
| `StatusLedger.RepeatsAreSeparated` | internal/controller/databasequeryresource_controller.go:951-1024 | between two accepted reports of one key and version the entry was dropped or changed |
| `StatusLedger.PassesChain` | internal/controller/databasequeryresource_controller.go:951-1024 | ledgers of successive reconciles chain |
| `StatusLedger.AllVersionsOf` | internal/controller/databasequeryresource_controller.go:951-1024 | after reporting, a key holds the version of a child with that key, or what stood before |
| `StatusLedger.VersionBook.UpdateStatusForChildResources` | internal/controller/databasequeryresource_controller.go:951-1024 | the database is asked to take each collected child in turn whose version is not recorded by then, whatever became of the others; exactly what it accepts is recorded, entered in the ledger and counted |
| `StatusLedger.NoChildIsPassedOver` | internal/controller/databasequeryresource_controller.go:965-1020 | for every child its version was recorded to begin with, or the database is asked to take it |
| `StatusLedger.AskedForCause` | internal/controller/databasequeryresource_controller.go:965-1020 | every question to the database is about a collected child whose version was not recorded when its turn came |
| `StatusLedger.RefusedChangesNothing` | internal/controller/databasequeryresource_controller.go:1008-1017 | without an accepted report a key keeps its entry or its absence, so a refused report is made again |
| `StatusLedger.HeldForCause` | internal/controller/databasequeryresource_controller.go:1008-1017 | a version recorded afterwards was recorded before or accepted by the database |
| `StatusLedger.VersionBook.Retain` | internal/controller/databasequeryresource_controller.go:684-695 | recorded versions of unmanaged keys are dropped, all others kept |
| `Pass.ReportsAll` | internal/controller/databasequeryresource_controller.go:643-673 | undisturbed, every living managed child ends up with its version recorded |
| `Pass.ReportAndRemember` | internal/controller/databasequeryresource_controller.go:643-695 | children of the old list are reported, under any disturbance exactly those that could be read, before the list is replaced; what ends up recorded is exactly what was recorded or accepted, within the managed keys |
| `Pass.ApplyAndPrune` | internal/controller/databasequeryresource_controller.go:489-641 | the writing half of a pass: the records of its rows and of its pruning under any disturbance, what each write applies or removes, the number of errors, exactly what pruning leaves when its own calls meet failures only, and exactly what the whole leaves undisturbed |
| `Pass.FullPass` | internal/controller/databasequeryresource_controller.go:489-721 | whatever happens, each write of a pass applies an asked object to what stood there just before, or removes a stale managed one with pruning on; the pass ends with exactly the keys of the rows that its records show to have succeeded, and with exactly the versions that the database accepted; undisturbed it leaves the specified history |
| `PassLaws.PassExactly` | internal/controller/databasequeryresource_controller.go:489-641 | object by object: managed and not successfully rendered means gone, a failing row's object included; everything else is as the rows left it |
| `PassLaws.PassRefinesSetSpec` | internal/controller/databasequeryresource_controller.go:489-641 | without failures: old managed objects not rendered are gone, all others not rendered are unchanged, and a rendered one holds the last row's content if and only if no drift of it is hidden |
| `PassLaws.ChildrenCarryTheOwner` | internal/controller/databasequeryresource_controller.go:521-528 | then every child without hidden drift carries the managed-by label of its owner |
| `PassLaws.PruneExactly` | internal/controller/databasequeryresource_controller.go:871-947 | with failures, a stale child is removed if and only if a read and a deletion of it are served |
| `PassLaws.PassKeepsOwnership` | internal/controller/databasequeryresource_controller.go:489-641 | a pass keeps: managed objects live, nothing else alive has changed since the start |
| `FailureLaws.RecordsAreDetermined` | internal/controller/databasequeryresource_controller.go:500-619 | the log of API calls determines which calls are a row's own, for the first row that asks for an object: two records of a pass that the log bears out agree on them |
| `FailureLaws.RowsFailForCause` | internal/controller/databasequeryresource_controller.go:500-619 | under any disturbance of the pass a row fails only if it is bad or one of its own calls was disturbed; with failures only, one of its own calls failed |
| `FailureLaws.BadRowsFail` | internal/controller/databasequeryresource_controller.go:500-619 | and a bad row whose own calls nothing disturbed does fail |
| `FailureLaws.UndisturbedPassSucceedsExactly` | internal/controller/databasequeryresource_controller.go:489-721 | an undisturbed reconcile that reaches its rows succeeds if and only if every row names an object with a possible name and no unreadable record |
| `FailureLaws.RemovedForCause` | internal/controller/databasequeryresource_controller.go:489-641 | under arbitrary failures and interference a reconcile's pass removes an object only with pruning on, if it was managed, and if every row that asked for it failed for a cause of its own |
| `FailureLaws.ManagedExactly` | internal/controller/databasequeryresource_controller.go:676-682 | the managed keys after a pass are exactly those of the rows that succeeded, every good and undisturbed row among them |
| `FailureLaws.SucceedsExactly` | internal/controller/databasequeryresource_controller.go:697-721 | a pass succeeds if and only if every row did and, with pruning on, no deletion call failed |
| `FailureLaws.PrunedExactly` | internal/controller/databasequeryresource_controller.go:621-641 | when the pruning calls of a reconcile meet failures only, whatever happened before: a child goes if and only if it was managed, is not any more, and a read and a deletion of it are served |
| `FailureLaws.PassInOrder` | internal/controller/databasequeryresource_controller.go:489-673 | the rows come first, one after the other, then pruning if it is on, and no write of the operator's after it |
| `PassLaws.RowConvergesExactly` | internal/controller/databasequeryresource_controller.go:560-619 | after a row its object is up to date if and only if it was absent, up to date or settled before |
| `PassLaws.DistinctRowsAreIndependent` | internal/controller/databasequeryresource_controller.go:500-619 | with distinct names the same holds of every row of a pass |
| `PassLaws.QuietPassExactly` | internal/controller/databasequeryresource_controller.go:489-641 | a pass writes nothing if and only if every asked object is up to date |
| `PassLaws.SecondPassIsQuietExactly` | internal/controller/databasequeryresource_controller.go:489-641 | with distinct names a second pass over unchanged rows writes nothing if and only if every object converged |
| `Cleanup.CleanUp` | internal/controller/databasequeryresource_controller.go:301-330 | only managed objects are removed and none is written; under any disturbance the children found are deleted up to the first failed call, and it succeeds if and only if there is none; on a steady cluster these are the served children |
| `Cleanup.CleanupExactly` | internal/controller/databasequeryresource_controller.go:301-330 | then exactly the managed children whose read was served are gone |
| `Cleanup.NothingLeftExactly` | internal/controller/databasequeryresource_controller.go:909-947 | nothing managed is left if and only if every living managed child could be read |
| `Cleanup.NothingLeft` | internal/controller/databasequeryresource_controller.go:909-947 | with reads failing only as not found, nothing managed is left |
| `Cleanup.PrefixCounts` | internal/controller/databasequeryresource_controller.go:318-326 | an aborted attempt has deleted a prefix, each deletion one living child less |
| `Cleanup.AttemptsMakeProgress` | internal/controller/databasequeryresource_controller.go:301-340 | over any number of attempts each removal is one living child less, so together they never remove more than there were |
| `Schedule.ValidateSpec` | internal/webhook/v1alpha1/validation.go:53-126 | the errors are those of the broken rules, in their order, and the warning comes exactly when the change interval cannot help |
| `Schedule.ReportedExactly` | internal/webhook/v1alpha1/validation.go:53-126 | every broken rule is reported and nothing else; a spec is admitted if and only if there is none |
| `Schedule.ValidatedExactly` | internal/webhook/v1alpha1/validation.go:53-149 | a required text is missing if empty, blank if of white space alone, and accepted if neither and parsing; an interval is accepted if and only if it is not blank, parses and is positive |
| `Schedule.BlankTemplateIsAdmitted` | internal/webhook/v1alpha1/validation.go:99-103 | a blank template of status updates is admitted like none, although the operator uses it |
| `Schedule.CopiesAgree` | internal/controller/databasequeryresource_controller.go:1156-1178 | for admitted specs the two copies of the interval defaulting agree and both intervals are positive |
| `Schedule.CopiesAgreeAlways` | internal/controller/databasequeryresource_controller.go:1156-1211 | for every spec both copies agree, and a missing or unparsable interval counts as ten seconds |
| `Schedule.DetectChanges` | internal/controller/databasequeryresource_controller.go:1280-1319 | a change is a visible row stamped strictly after the last check |
| `Schedule.FirstCheckSeesAll` | internal/controller/databasequeryresource_controller.go:1280-1290 | without an earlier check every visible row stamped after the beginning of 1970 is a change |
| `Schedule.RecordedExactly` | internal/controller/databasequeryresource_controller.go:1228-1249 | a check is recorded if and only if it is due and its query succeeds |
| `ChangeRuns.DetectionIsSound` | internal/controller/databasequeryresource_controller.go:1228-1319 | over any run a due check leads to a full pass if and only if detection fails or a visible row is stamped after the second in which the last recorded check ended, or after the epoch if there was none |
| `ChangeRuns.ChangesAreQueried` | internal/controller/databasequeryresource_controller.go:1156-1258 | over any run, whatever became of earlier attempts: after a change at time v the next attempt comes before v + poll interval + change interval, up to twice the running time of a reconcile |
| `ChangeRuns.DetectedChangeRetriedExactly` | internal/controller/databasequeryresource_controller.go:1228-1257 | a detected change whose pass failed is attempted again, before the poll interval has elapsed, if and only if the change interval has elapsed since the check time that is really stored and a row is stamped after it, or detection fails |
| `ChangeRuns.DetectedChangeForgotten` | internal/controller/databasequeryresource_controller.go:1228-1257 | a concrete change that was detected, whose query failed, and which the next wake-up skips |
| `ChangeRuns.FailedEditRetriedExactly` | internal/controller/databasequeryresource_controller.go:348-383 | a spec edit forces an attempt; when that fails the next wake-up attempts it again, unless the final status write was stored and nothing else is due |
| `ChangeRuns.EditForgotten` | internal/controller/databasequeryresource_controller.go:348-383 | a concrete edit whose query fails and whose next wake-up skips |
| `Schedule.SkipDelay` | internal/controller/databasequeryresource_controller.go:1235-1257 | a skip asks for a positive delay of at most the change interval |
| `ScheduleRuns.StallsExactly` | internal/controller/databasequeryresource_controller.go:1173-1257 | any reconcile asks for no wake-up if and only if it skips with a change interval that is not positive, or attempts a pass with such a poll interval or a template that does not parse |
| `FailureLaws.AttemptDelaysExactly` | internal/controller/databasequeryresource_controller.go:453-721 | the delay after an attempt of an admitted resource: at most thirty seconds without a connection, the poll interval without rows, otherwise the shorter of the intervals in use |
| `ScheduleRuns.PollTimeMovesOnlyOnSuccess` | internal/controller/databasequeryresource_controller.go:709-721 | over any run the poll time moves only with a pass that ends without errors and is stored |
| `ScheduleRuns.OverdueUntilSuccess` | internal/controller/databasequeryresource_controller.go:1218-1232 | once the poll interval has elapsed every wake-up attempts a full pass until one succeeds |
| `ScheduleRuns.BoundedStaleness` | internal/controller/databasequeryresource_controller.go:1156-1258 | with wake-ups no later than asked for, the next attempt comes before success time + poll interval + change interval, up to the running time of reconciles |
| `TimedRuns.FreshCall` | internal/controller/databasequeryresource_controller.go:285-722 | a call of `Reconcile` that reads the revision standing when it began, or a later one, is a call of the timed runs, by what it ensures alone |
| `TimedRuns.RunRefinesWakes` | internal/controller/databasequeryresource_controller.go:285-722 | over any run of such calls, with writes of others in between and any of their own status writes lost, there are wake-ups of the run model with the same stamps before each of them and after all |
| `TimedRuns.CallsBoundStaleness` | internal/controller/databasequeryresource_controller.go:1156-1258 | so after a call whose pass succeeded and was stored, the next call that attempts a pass comes before poll interval + change interval have gone by, up to the running time of a call |
| `TimedRuns.CallsQueryChanges` | internal/controller/databasequeryresource_controller.go:1156-1258 | and after a change at time v before v + poll interval + change interval, up to twice the running time of a call |
| `ScheduleRuns.SkipsAreBounded` | internal/controller/databasequeryresource_controller.go:1182-1258 | with only the timer, n skips in a row take n change intervals, less than a poll interval |
| `ScheduleRuns.NoHotLoop` | internal/controller/databasequeryresource_controller.go:1173-1258 | with only the timer and a reachable database, reconciles are at least the shorter interval apart |
| `ScheduleRuns.ShortDelayExactly` | internal/controller/databasequeryresource_controller.go:1173-1258 | any reconcile asks for less than the shorter interval and 30 seconds if and only if it skips without a check because the last one is less than the change interval ago, with less than that of the interval left |
| `ScheduleRuns.ShortDelaysAreAlone` | internal/controller/databasequeryresource_controller.go:459-475 | a delay below the shorter interval and 30 seconds is followed by one that is not |
| `ChangeRuns.ShortDelaysFollowLostConnections` | internal/controller/databasequeryresource_controller.go:453-475 | with only the timer, such a delay comes only when every reconcile from the last recorded check on has lost its connection |
| `ChangeRuns.ShortDelay` | internal/controller/databasequeryresource_controller.go:459-475 | a concrete lost connection after which a delay is that short |
| `ScheduleRuns.NeverStalls` | internal/controller/databasequeryresource_controller.go:1173-1258 | for an admitted spec every delay is positive and at most the longer interval |
| `ResourceStore.FilterExactly` | internal/controller/databasequeryresource_controller.go:1105-1123 | a status write never passes the event filter; an edit, the start of deletion and a change of finalizers do, and nothing else |
| `ResourceStore.MergedEditsPass` | internal/controller/databasequeryresource_controller.go:1105-1123 | however many events are merged, an edit among them passes |
| `ResourceStore.GenerationsRise` | internal/controller/databasequeryresource_controller.go:1105-1123 | generations never fall and a resource that is gone stays gone |
| `ResourceStore.EditsAreNotLost` | internal/controller/databasequeryresource_controller.go:1189-1193 | a generation that no reconcile has read forces a full pass, however the edit interleaved with earlier ones |
| `ResourceStore.StatusMovesByOwnWrites` | internal/controller/databasequeryresource_controller.go:348-383 | the stored status is always one that the operator wrote |
| `ResourceStore.CrStore.UpdateStatus` | internal/controller/databasequeryresource_controller.go:1243-1248 | a status write lands if and only if nothing fails and the version is current; it changes nothing else and keeps the invariant |
| `ResourceStore.CrStore.UpdateFinalizers` | internal/controller/databasequeryresource_controller.go:328-333 | a finalizer update lands under the same condition |
| `ResourceStore.CrStore.RetryStatus` | internal/controller/databasequeryresource_controller.go:364-382 | at most one status write lands in three attempts; how many are made and how the last one ends follow from the surroundings alone (`StatusEnds`) |
| `ResourceStore.StatusLostForCause` | internal/controller/databasequeryresource_controller.go:364-382 | the status is stored unless a write was refused or found the resource gone, a re-read after a conflict failed, or three attempts in a row were overtaken |
| `ResourceStore.StatusRetryLands` | internal/controller/databasequeryresource_controller.go:371-378 | after a conflict on the first or second attempt, a served and current re-read followed by no other write makes the next attempt store the status |
| `ResourceStore.PersistLostForCause` | internal/controller/databasequeryresource_controller.go:348-383 | so the resource stands with the final status unless it could not be compared, a late read had it already, or one of these causes held |
| `ResourceStore.CrStore.PersistStatus` | internal/controller/databasequeryresource_controller.go:348-383 | the deferred write is made exactly when the status read differs, with the generation read at the start, and ends as its retries do; undisturbed the resource ends up with exactly that status. Every revision keeps: observed generation within the generation, recorded versions within managed keys, managed keys readable |
| `Reconciler.ShouldReconcile` | internal/controller/databasequeryresource_controller.go:1182-1258 | the imperative decision is the specified one; a successful check, and nothing else, is written at once, and lands exactly when the server lets it |
| `Reconciler.ReportChildren` | internal/controller/databasequeryresource_controller.go:403-431 | a skipping reconcile reports, under any disturbance, exactly the managed children that could be read and whose version is not recorded, keeps the managed keys and records exactly what was accepted |
| `Reconciler.UpdateChildrenOnly` | internal/controller/databasequeryresource_controller.go:399-448 | only the reconcile time may move, exactly when a report was accepted, and is then written at once |
| `Reconciler.AttemptPass` | internal/controller/databasequeryresource_controller.go:453-721 | an attempt ends by connection, query, template or rows; the poll time moves exactly when no row and no deletion failed; what each write applies or removes and what each row did under any disturbance, and exactly what is left without |
| `Reconciler.ReconcileActive` | internal/controller/databasequeryresource_controller.go:387-721 | decision, skip or attempt together: on schedule, safe, recorded row by row, exact, and writing only the stated statuses |
| `Reconciler.ReconcileDeleted` | internal/controller/databasequeryresource_controller.go:301-340 | nothing is created or updated; the finalizer goes exactly when the cleanup of what is managed in the very revision that is released succeeded and the server accepts the write; failure asks for a retry with progress kept |
| `Reconciler.Reconcile` | internal/controller/databasequeryresource_controller.go:285-722 | one reconcile under arbitrary interleavings: it acts on what its first read returns; what each write to a child applies or removes, what each row did as the log of calls bears it out, what the database was asked and accepted, which status writes are made and which land, its delay, its recorded versions, a full attempt for every new generation, and exactly what it leaves undisturbed |
| `Reconciler.CalmReadsLatest` | internal/controller/databasequeryresource_controller.go:285-300 | when nothing disturbs its first read, a reconcile works on the resource as it stands |
| `Reconciler.StampsMoveExactly` | internal/controller/databasequeryresource_controller.go:348-383 | how each stamp of the status moves: with a successful pass, a successful check, an accepted report without a pass, and not otherwise |
| `Reconciler.FinalStatusStands` | internal/controller/databasequeryresource_controller.go:348-383 | the status that a reconcile has come to is what the resource stands with, unless one of the causes of `PersistLostForCause` held |
| `Reconciler.OthersFinalizersStay` | internal/controller/databasequeryresource_controller.go:329-330 | taking the finalizer off leaves every other finalizer, in the same number |
| `Reconciler.WithoutInOrder` | internal/controller/databasequeryresource_controller.go:329-330 | and in the same order |
| `Reconciler.ForeignFinalizersStay` | internal/controller/databasequeryresource_controller.go:301-340 | so a released resource still has every foreign finalizer of the revision that was read |
| `Reconciler.ReleaseLeavesNothingExactly` | internal/controller/databasequeryresource_controller.go:301-340 | when a reconcile takes the finalizer off on a steady cluster, nothing that the released resource names as managed is left if and only if every such child alive could be read |
| `Reconciler.ReconcileRefinesWake` | internal/controller/databasequeryresource_controller.go:285-722 | whatever part of its status writes persisted, a reconcile is a wake-up of the run model |
| `Reconciler.AdmittedIsNeverParked` | internal/controller/databasequeryresource_controller.go:459-484 | for an admitted spec every reconcile of a live resource returns a positive delay of at most the longer interval |
| `Reconciler.ParkedExactly` | internal/controller/databasequeryresource_controller.go:387-722 | a live resource is parked if and only if its poll interval does not parse, or it skips with a change interval that is not positive, or attempts a pass with such a poll interval or, having the rows, a template that does not parse |
| `ReconcileRuns.RunsOwnTheirChildren` | internal/controller/databasequeryresource_controller.go:285-722 | over runs of full, failing and skipping reconciles: the managed objects are alive and nothing else alive has changed |
| `ReconcileRuns.UndisturbedGrows` | internal/controller/databasequeryresource_controller.go:285-722 | a call of `Reconcile` that nothing disturbs continues such a run, by what it ensures alone |
| `ReconcileRuns.LastPassDecides` | internal/controller/databasequeryresource_controller.go:676-682 | the managed keys are those of the last reconcile that reached its rows, all its query asked for if it succeeded |
| `ReconcileRuns.RunsNeverRepeatReports` | internal/controller/databasequeryresource_controller.go:951-1024 | under any disturbance, while status writes persist, no version is reported while it is recorded |
| `ReconcileRuns.PersistGrows` | internal/controller/databasequeryresource_controller.go:285-722 | a call of `Reconcile` that reads the status the run has left continues such a run, whatever disturbs it |
| `ReconcileRuns.RunGrows` | internal/controller/databasequeryresource_controller.go:285-722 | each call of `Reconcile`, by what it ensures alone, adds one call to a run under any disturbance |
| `ReconcileRuns.EveryWriteWasAskedFor` | internal/controller/databasequeryresource_controller.go:489-641 | over every run, with lost status writes, conflicts and stale reads: each write applies an object that a row of that very call asked for to what stood there just before, or removes one that a row of an earlier call asked for |
| `ReconcileRuns.ForeignContentSurvives` | internal/controller/databasequeryresource_controller.go:213-281 | no annotation and no unmanaged field that the rows do not name is lost to a pass, however others write in between |
| `ReconcileRuns.OrphansStay` | internal/controller/databasequeryresource_controller.go:871-947 | an object not managed when a call begins is never written or removed from then on, whatever fails or interferes, unless a row asks for it or a staler revision of the resource is read |
| `StatementSplitter.LexIsGrammatical` | internal/util/postgres_client.go:137-210 | the lexer's lexemes print back to the text and each fits what follows it |
| `StatementSplitter.GrammarDetermines` | internal/util/postgres_client.go:137-210 | the declarative grammar determines the lexemes of every text, so quotes end at the first later occurrence of their whole delimiter |
| `StatementSplitter.SplitStatements` | internal/util/postgres_client.go:137-210 | the scanner with its flags, jumps and lookahead computes the statements of the grammar, for every text |
| `StatementSplitter.Scan` | internal/util/postgres_client.go:145-210 | its loop: at most one quoting mode at a time, the dollar mode with a tag, and what remains completes what was cut |
| `StatementSplitter.TagMatches` | internal/util/postgres_client.go:150-175 | reading up to the next dollar and comparing whole tags finds a closing delimiter wherever it stands |
| `StatementSplitter.SplitConservation` | internal/util/postgres_client.go:137-210 | the raw segments joined with ";" are the text; the statements are the trimmed segments at increasing places, and every other segment is blank |
| `SplitterLaws.ResplitIsStable` | internal/util/postgres_client.go:137-210 | splitting the joined statements gives the same statements, open quotes included |
| `SplitterLaws.StatementsAreWhole` | internal/util/postgres_client.go:137-210 | each statement is trimmed, not empty, and splits into just itself |
| `SplitterLaws.CutsExactlyOutsideQuotes` | internal/util/postgres_client.go:178-198 | a cut falls on every semicolon outside quotes and nowhere else |
| `SplitterLaws.FirstSegmentEndsAtFirstCut` | internal/util/postgres_client.go:178-198 | a segment runs exactly to the next cut |
| `PostgresQuoting.AgreesOnProperDollars` | internal/util/postgres_client.go:150-175 | the splitter reads a text as section 4.1.2.4 of the PostgreSQL documentation does if and only if the dollar quotes it opens are proper |
| `PostgresQuoting.StatementsOfProperDollars` | internal/util/postgres_client.go:137-210 | then the statements agree |
| `PostgresQuoting.ParametersReadAsQuote` | internal/util/postgres_client.go:150-175 | a family of texts with two positional parameters on which they do not |
| `ObjectKeys.KeySplitsIntoParts` | internal/controller/databasequeryresource_controller.go:1027-1035 | splitting a key gives the five components back if and only if none contains a slash |
| `ObjectKeys.KeysAreInjective` | internal/controller/databasequeryresource_controller.go:1027-1035 | keys of slash-free objects are injective |
| `ObjectKeys.ReadersRecover` | internal/controller/databasequeryresource_controller.go:914-935 | all readers recover the object a key was made from |
| `ObjectKeys.ReadableIsKey` | internal/controller/databasequeryresource_controller.go:914-935 | what the deletion reader accepts is exactly the keys of valid objects |
| `PgIdentifiers.QuotingRoundTrip` | internal/controller/databasequeryresource_controller.go:1327-1336 | the quoted form of a name is the one text that PostgreSQL reads as that name, for every non-empty name without NUL and no other |
| `PgIdentifiers.SanitizePGIdentifier` | internal/controller/databasequeryresource_controller.go:1340-1374 | the loop computes the specified result or the first error |
| `PgIdentifiers.AcceptedExactly` | internal/controller/databasequeryresource_controller.go:1324-1374 | a name is accepted if and only if each dotted part is |
| `PgIdentifiers.PartsSurvive` | internal/controller/databasequeryresource_controller.go:1340-1374 | number and order of the parts survive, quoted parts unchanged, bare parts decoding to themselves |
| `PgIdentifiers.SanitizeIsIdempotent` | internal/controller/databasequeryresource_controller.go:1340-1374 | sanitising twice is sanitising once |
| `PgIdentifiers.DecodableExactly` | internal/controller/databasequeryresource_controller.go:1350-1362 | the result decodes if and only if the parts that arrived quoted do |
| `PgIdentifiers.SingleQuoteInsidePassesThrough` | internal/controller/databasequeryresource_controller.go:1350-1362 | a concrete name that is accepted and does not decode |
| `GvkPatterns.ParseGVKs` | internal/util/gvk.go:12-42 | the loop computes the specified list |
| `GvkPatterns.ParsedExactly` | internal/util/gvk.go:12-42 | an entry is a pattern if and only if, padding aside, it is a version and a kind, or a group, a version and a kind, slash-free and joined by slashes; all others are skipped |
| `GvkPatterns.ConcatenationParses` | internal/util/gvk.go:12-42 | the entries of a ";"-concatenation are the concatenated entries |
| `GvkPatterns.PatternRoundTrip` | internal/util/gvk.go:12-42 | printing patterns, padded and mixed with skipped entries, and parsing gives the patterns back |

## Left out

- Rendering: Go templates, sprig and YAML decoding are an arbitrary outcome per row (`Rows.Row`); of a template only whether it parses.
- Database access: pgx connections, secrets, connection URIs and batches are success or failure.
- Text formats: JSON encoding, `time.ParseDuration` and the identifier regular expression are a normaliser on values, an arbitrary parser and a character predicate. A last-applied annotation is a recorded configuration or unreadable text.
- Owner references, Kubernetes garbage collection and finalizers of children: a deletion takes effect at once.
- One object visible under two API versions: objects are identified by their full key.
- Cluster-wide objects rendered with a namespace: the server drops it, so the key of such an object differs between the row that rendered it and pruning; a row of the model has no such object.
- Lost replies: an error means that the call was not applied.
- Writes that change nothing: the model gives them a new version too.
- `ReconcileRuns.RunsNeverRepeatReports`: assumes that each reconcile reads the status that the one before it left, because a lost status write is reported again.
- `Cluster.ApiServer.ServerSideApply`: apply over an object that appeared since the read is a merge of maps without field ownership, because ownership is the API server's.
- Recreation of the custom resource under its name after it vanished, and status writes by others.
- Conditions, messages, logging and truncation: a status write whose only change is a condition is a write of the same modelled status.
- `ScheduleRuns.BoundedStaleness`: assumes that the queue wakes the operator no later than the returned delay, that each reconcile reads the stamps stored before it, and that the spec stays the same during the run; the same goes for `ChangeRuns.ChangesAreQueried` and for the calls of `TimedRuns`.
- Clocks that run backwards: the results about delays and timed runs assume that no stored stamp lies in the future (`StampsBy`), which reconciles keep up by themselves on one clock (`StampsStayPast`).
- `ReconcileRuns.RunsOwnTheirChildren`: requires pruning throughout and runs without disturbance, because other writers may delete or create children at will.
- `Pass.SortKeys`: `sort.Strings` is selection of the least key, since only its result matters; a Go map iterated in any order is a set from which elements are taken.
- Watch predicates of children and the queue of controller-runtime.
- `PostgresQuoting.AgreesOnProperDollars`: covers dollar quoting only; SQL comments, `E''` strings and Unicode escapes are not read by the splitter either.
- `QueryRead` and `QueryWrite` beyond splitting: they send the statements in order and return the last one's rows.
