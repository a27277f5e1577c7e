# LinkFlow: a verified model

LinkFlow connects devices to tenants. Devices report properties and events over MQTT; a processor
checks the reports against the thing model of the product and stores them; a backend manages
thing models and sends property sets and service calls; a web console edits the models and receives
live updates. This project models the parts of it where correctness is not visible from one function,
and proves what those parts promise together.

| files | subject |
|---|---|
| `Runner`, `RunnerHandle`, `RunnerConservation`, `RunnerShutdown`, `RunnerProgress` | the bounded worker pool: no delivery lost or completed twice, what ends it, and that it always can end |
| `ConnectionProtocol`, `ConnectionSafety`, `ConnectionRow`, `ConnectionCache` | connect and disconnect events: guarded row update, Redis key, publication, under failures and reordering |
| `CommandRequest` | save a command, then publish it, then acknowledge |
| `Numbers`, `GridCheck`, `GridReach`, `CallCheck`, `Agreement` | the two numeric checks, what they accept, and exactly when they agree |
| `Json`, `Text`, `Publication`, `Definition` | what may be published, and that the processor can parse it |
| `DefinitionCache`, `ReportFilter` | the cached lookup and the filter-and-validate loops |
| `ModelTable` | the single current model of a product over transactions |
| `Trend`, `Realtime`, `RealtimeRuns` | trend grouping, the fan-out index and the bounded queues |
| `Editor`, `EditorRoundTrip`, `EditorMeaning`, `EditorRepublish` | the editor's converters, and what an untouched save does to a model in the eyes of the processor and of the backend |
| `Wrappers`, `Messaging` | options and results, decisions and outcomes |

`dafny verify dfyconfig.toml` checks the whole project.

## How it is modelled

Code that changes state step by step is a class whose methods are proved against a specification of the
whole new state, and functions state what the loops compute. Concurrency is a machine: `Step` takes one
atomic action of any participant (an action that is not possible changes nothing), `Exec` takes a list of
them, and a theorem about `Exec` for every list is a theorem about every interleaving, failure, crash and
redelivery. `CallIsARun` and `LoopIsARun` tie the sequential methods to the machines.

An outside effect (a database statement, a Redis command, a publication) has an `Outcome`: done, done with
the reply lost, or not done. Clock readings, fresh row ids, iteration orders and what the reader, the
handler and the network answer are parameters or actions. A float64 is an exact `real`; Go's `math.Round`,
`math.Trunc` and `math.Mod` are written out, and the tolerances are those of the code.

## Findings

Where a promise does not hold of the code without a condition, the condition is part of the theorem and
a counterexample stands beside it.

- The two numeric checks can differ on whole last-place units once the step or the distance from the
  minimum reaches 10^9 of them; exactly when is `Agreement.VerdictsAgreeExactly`
  (`Agreement.LimitIsTight`). Without precision and step they differ because only the processor counts
  decimals (`Agreement.UnconstrainedVerdicts`).
- A published fractional property may refuse every value: with a step below half a unit of the effective
  precision, or with bounds so close that they miss the grid (`GridReach.PublishedRefusesEverything`);
  exactly when is `GridReach.PublishedAcceptsExactly`.
- A precision of 2^63 or more is published, and the processor's conversion to `int` is then
  implementation-dependent (`Definition.HugePrecisionIsPublished`).
- The cache key of tenant and product is safe only because the reader casts both to uuids: exactly the
  readers that answer for no part holding `|` keep pairs apart (`DefinitionCache.PairsStayApartExactly`).
- When the marks of two opposite events of a device overlap, the online key can end up at odds with the row
  although nothing failed, in either direction (`ConnectionCache.OverlapLeavesStaleKey`).
- A command that reuses a command id and time, even of another tenant, is published although the stored row
  holds another one (`CommandRequest.SharedKeyPublishesUnstored`).
- A malformed command request is retried rather than dropped, and never succeeds
  (`CommandRequest.UnsavableNeverSucceeds`).
- A choice with surrounding white space is accepted and trimmed by both services, but the editor replaces
  it by its default on the next save: a padded data type becomes `string` (`EditorMeaning.PaddedTypeIsLost`),
  and a padded read-only property becomes writable (`EditorRepublish.ReadOnlyBecomesWritable`).
- The editor trims other white space than the backend, so an untouched save of a published model can be
  refused (`EditorRepublish.InvisibleNameIsLost`); exactly when is `EditorRepublish.SavingStaysPublished`.

## Model

| member | source | states |
|---|---|---|
| `GridCheck.ComputeDecimalDigits` | service/device-event-processor/internal/validator/property.go:111-120 | the loop returns the least digit count, at most 8, that brings the value within 1e-9 of an integer, and 8 when none does |
| `GridCheck.DecimalDigitsExactly` | service/device-event-processor/internal/validator/property.go:111-120 | that count is the least one, up to 8, at which some integer is within 1e-9, and 8 if there is none |
| `GridCheck.ComputeEffectivePrecision` | service/device-event-processor/internal/validator/property.go:94-109 | an explicit precision wins; otherwise the result is the digit count of step, minimum or maximum and at least that of each, an absent one counting as 0 |
| `GridCheck.AcceptedExactly` | service/device-event-processor/internal/validator/property.go:54-92 | a number is accepted iff it is in range, near a whole number of last-place units, and (with a step) a whole number of positive rounded steps from the rounded minimum |
| `GridCheck.NearIntegerExactly` | service/device-event-processor/internal/validator/property.go:69-76 | comparing with the rounded number finds an integer within the relative tolerance whenever there is one |
| `GridCheck.NumberRefusedExactly` | service/device-event-processor/internal/validator/property.go:54-92 | for every number, which of the five refusals it meets |
| `GridCheck.ValueCheckedExactly` | service/device-event-processor/internal/validator/property.go:22-52 | each data type admits its own kind of value and refuses others with its own reason; an int must equal some integer |
| `GridCheck.GridSoundness` | service/device-event-processor/internal/validator/property.go:54-92 | an accepted number with a step rounds to round(min) + k * round(step) in last-place units, k >= 0 when there is a minimum, not beyond round(max), and lies within the relative 1e-9 tolerance of that point |
| `GridCheck.DigitsAreExact` | service/device-event-processor/internal/validator/property.go:111-120 | with at most 8 decimals the derived digit count makes the number integral and no smaller count does |
| `GridCheck.GridCompleteness` | service/device-event-processor/internal/validator/property.go:65-109 | every in-range min + k * step is accepted when minimum and positive step are whole last-place units at an explicit precision, or have at most 8 decimals when the precision is derived |
| `GridReach.AcceptsSomeNumberExactly` | service/device-event-processor/internal/validator/property.go:54-92 | any property, with or without a step, accepts some number iff its step, if any, is at least half a last-place unit and, when both bounds are given, its grid is met between them: near the minimum, at its rounding, at the first step, or near the maximum |
| `GridReach.PublishedAcceptsExactly` | service/backend/internal/service/thingsmodel_validator.go:149-221 | a published property accepts some value unless it is fractional and fails that condition; integer, boolean and string properties always do |
| `GridReach.PublishedRefusesEverything` | service/backend/internal/service/thingsmodel_validator.go:175-221 | two published properties refuse every value: one without a step, between 0.2 and 0.8 with precision 0, and one without bounds, with a step of 0.4 |
| `CallCheck.AcceptEntries` | service/backend/internal/service/device_service.go:840-859 | the request loops copy all entries iff every entry fits, and stop otherwise |
| `CallCheck.LimitsReadExactly` | service/backend/internal/service/device_service.go:940-958 | the limits of a specification are read iff each is absent or a number, and then they are those numbers |
| `CallCheck.NumberFitsExactly` | service/backend/internal/service/device_service.go:959-994 | for every number, whole units or not: it fits iff it is in range, the precision is a natural number of digits at which some integer is within the tolerance, and some integer is within the tolerance of its number of positive steps |
| `CallCheck.ValueAcceptedExactly` | service/backend/internal/service/device_service.go:909-938 | a value is valid iff it is of the kind of its data type and, if a number, integral for an int and fitting the readable limits |
| `CallCheck.SettableExactly` | service/backend/internal/service/device_service.go:840-859 | an entry can be set iff its name is an identifier, it is declared with access mode write or readwrite, and its value is valid |
| `CallCheck.MissingRequiredIsRefused` | service/backend/internal/service/device_service.go:894-905 | a call that leaves out a required input is refused |
| `CallCheck.ValidatePropertySet` | service/backend/internal/service/device_service.go:834-862 | a property set is accepted, whole and unchanged, iff it is not empty and every entry is an identifier of a writable property whose value is valid; every refusal is the same error |
| `CallCheck.ValidateServiceInput` | service/backend/internal/service/device_service.go:864-907 | a call is accepted, with its input unchanged, iff the service exists and declares an input object, every entry is declared and valid, every declaration is an object and nothing required is missing; an unknown service is a different error |
| `Agreement.ToleratedExactly` | service/backend/internal/service/device_service.go:976-990 | the backend takes a quotient of whole units for an integer iff the distance to the nearest grid point is at most a billionth of the larger operand |
| `Agreement.GridTestsAgreeExactly` | service/backend/internal/service/device_service.go:976-990 | exact condition: the remainder test and the tolerance test agree on d units and a step of s iff the remainder is zero or the distance exceeds that billionth |
| `Agreement.GridTestsAgreeBelowLimit` | service/backend/internal/service/device_service.go:976-990 | they agree whenever both magnitudes are below 10^9 |
| `Agreement.LimitIsTight` | service/backend/internal/service/device_service.go:976-990 | neither magnitude may reach 10^9: under a step of 10^9 the value 1, and under a step of 3 the value 10^9, are accepted by the backend and refused by the processor |
| `Agreement.StepTestsAgreeExactly` | service/device-event-processor/internal/validator/property.go:78-89 | on whole units the scaled remainder test and the quotient test give one verdict iff the value is on the grid or further from it than the tolerance, an absent minimum counting as 0 |
| `Agreement.VerdictsAgreeExactly` | service/backend/internal/service/device_service.go:940-994 | exact condition for the two numeric checks as a whole on whole units: one verdict iff the number is out of range, there is no step, or it is on the grid or further from it than the tolerance |
| `Agreement.VerdictsAgree` | service/backend/internal/service/device_service.go:940-994 | in particular they give one verdict when step and distance from the minimum stay below 10^9 units |
| `Agreement.PublishedVerdictsAgreeExactly` | service/backend/internal/service/device_service.go:909-938 | for every definition the publication check accepts, with a precision that fits an int64: on anything but a number the backend accepts a value iff the processor does, and on whole units they agree iff the number is not judged, out of range, without a step, on the grid or further from it than the tolerance |
| `Agreement.PublishedVerdictsAgree` | service/backend/internal/service/device_service.go:909-938 | in particular they agree on every value that, when a number, is comparable |
| `Agreement.UnconstrainedVerdicts` | service/device-event-processor/internal/validator/property.go:65-76 | without precision and step the two agree on a number iff it is out of range or near a unit of the decimals the processor derives from the bounds |
| `Agreement.UnconstrainedHalfSplitsVerdicts` | service/device-event-processor/internal/validator/property.go:94-109 | without any constraint 0.5 is fine for the backend and has too many decimals for the processor |
| `Agreement.TooManyDecimalsAreRefused` | service/backend/internal/service/device_service.go:966-974 | under an explicit precision both services refuse every number that is within the tolerance of no last-place unit |
| `Agreement.PrecisionVerdictsAgree` | service/backend/internal/service/device_service.go:966-974 | with an explicit precision and no step they give one verdict on every number, whole units or not |
| `Definition.ParseOutput` | service/device-event-processor/internal/validator/definition.go:114-125 | an output parses iff each of its parameters is an object, into one definition per parameter; the error names the event or service |
| `Definition.ParseSection` | service/device-event-processor/internal/validator/definition.go:101-157 | events and services parse iff the bytes are absent or decode to objects whose outputs parse, into exactly those outputs |
| `Definition.ParseModel` | service/device-event-processor/internal/validator/definition.go:63-99 | a model parses iff its three parts do, into exactly their definitions |
| `Definition.ValidParamIsWellFormed` | service/backend/internal/service/thingsmodel_validator.go:149-221 | a published definition parses to a supported data type, limits only on numeric types, a positive step and min <= max |
| `Definition.WellFormedExactly` | service/device-event-processor/internal/validator/property.go:22-92 | a definition is well formed iff its data type is supported and none of its limits contradicts that type or another |
| `Definition.PrecisionSurvivesExactly` | service/device-event-processor/internal/validator/definition.go:177-184 | a published precision is parsed as a non-negative digit count, whatever the platform does on overflow, iff it is below 2^63, and then it is unchanged |
| `Definition.IntegersConvertExactly` | service/device-event-processor/internal/validator/definition.go:177-184 | an integer precision is kept iff it fits 64 bits, and is otherwise left to the platform |
| `Definition.HugePrecisionIsPublished` | service/backend/internal/service/thingsmodel_validator.go:196-210 | a float precision of 2^63 is published and an overflowing conversion parses it as negative |
| `Definition.PublishedModelParses` | service/backend/internal/service/thingsmodel_validator.go:35-131 | every model the publication check accepts is parsed without error, keeps exactly its property, event, service and output identifiers, and yields only well-formed definitions |
| `Definition.SupportedTypesOnly` | service/device-event-processor/internal/validator/property.go:22-52 | the unsupported-type branch is reachable iff the data type is not one of the five, so never for a well-formed definition |
| `Definition.ParsedExactly` | service/device-event-processor/internal/validator/definition.go:159-187 | a definition is parsed field by field, anything of the wrong kind counting as absent |
| `Publication.ParamRefusedExactly` | service/backend/internal/service/thingsmodel_validator.go:149-173 | a definition is refused iff its name, data type, required flag, access mode (for a property) or specification is at fault |
| `Publication.SpecRefusedExactly` | service/backend/internal/service/thingsmodel_validator.go:175-221 | each fault of a specification by itself: unit, limits on a type without numbers, unreadable or contradictory limits, a step that is not positive, a bad precision, and fractional limits of an int |
| `Publication.EventRefusedExactly` | service/backend/internal/service/thingsmodel_validator.go:64-93 | an event is refused iff its name, level, description or output is at fault |
| `Publication.ServiceRefusedExactly` | service/backend/internal/service/thingsmodel_validator.go:95-131 | a service is refused iff its name, call type, description, input or output is at fault |
| `DefinitionCache.ReaderCache.Check` | service/device-event-processor/internal/validator/validator.go:97-104 | a hit returns the stored definition iff it has not expired; the cache is unchanged |
| `DefinitionCache.ReaderCache.Store` | service/device-event-processor/internal/validator/validator.go:111-114 | storing replaces the entry of that key, with an expiry one time to live ahead, and no other |
| `DefinitionCache.ReaderCache.Lookup` | service/device-event-processor/internal/validator/validator.go:94-114 | an undisturbed lookup returns the fresh entry, or else the answer of the reader, which it stores on success |
| `DefinitionCache.LookupIsARun` | service/device-event-processor/internal/validator/validator.go:94-114 | an undisturbed lookup of the machine leaves the cache and the result the method leaves |
| `DefinitionCache.RunsKeepInv` | service/device-event-processor/internal/validator/validator.go:94-114 | for a reader that never answers for a part with a separator, over every interleaving of lookups for any texts, clock ticks and answers, each cached entry is an answer given for its key and not older than its expiry allows |
| `DefinitionCache.ReturnedDefinitionsAreRecent` | service/device-event-processor/internal/validator/validator.go:94-114 | with the reader that casts both parts to uuids, a returned definition is one it gave for that same tenant and product after now - ttl - L, L the longest gap between answer and store, whatever texts the lookups carry |
| `DefinitionCache.AnswersWereGiven` | service/device-event-processor/internal/validator/validator.go:105-110 | every answer on record was given by the reader, at its time, to a lookup of its tenant and product |
| `DefinitionCache.LongestGapWasMet` | service/device-event-processor/internal/validator/validator.go:105-114 | L is not just a bound: unless it is 0, some answer really was stored that long after it was given |
| `DefinitionCache.PairsStayApartExactly` | service/device-event-processor/internal/store/thingsmodel_reader.go:31-37 | in every run each lookup is served only what was answered for its own pair iff the reader answers for no part that holds the separator |
| `DefinitionCache.UsualUuidsAreRead` | service/device-event-processor/internal/store/thingsmodel_reader.go:31-37 | the reader may answer for every pair of uuids in the usual spelling |
| `Text.JoinDetermines` | service/device-event-processor/internal/validator/validator.go:95 | a joined key with a single separator is the key of no other pair |
| `Text.JoinSplitsTwice` | service/device-event-processor/internal/validator/validator.go:95 | a key with a further separator is the key of another pair as well |
| `Text.IdentifierGrows` | service/backend/internal/service/thingsmodel_validator.go:223-225 | an identifier starts as a letter and is continued by letters, digits and underscores only |
| `Text.SpacesDiffer` | service/backend/internal/service/thingsmodel_validator.go:238-241 | the white space of Go and of ECMAScript differs in two characters, next line and byte order mark |
| `ReportFilter.FilterEntries` | service/device-event-processor/internal/validator/validator.go:69-84 | the loop, in the iteration order given, keeps exactly the known entries and lists each unknown name once if all known ones are valid, and otherwise names the first invalid entry of that order with its reason |
| `ReportFilter.OrderIsIrrelevant` | service/device-event-processor/internal/validator/validator.go:69-84 | any two runs of the loop succeed together, exactly when every entry is valid or unknown, with the same accepted entries and the same dropped names up to order |
| `ReportFilter.EveryNameIsAccountedFor` | service/device-event-processor/internal/validator/validator.go:69-84 | on success every reported name is accepted or dropped, and the two counts add up |
| `ReportFilter.RefusalMayNameAny` | service/device-event-processor/internal/validator/validator.go:76-78 | for each invalid entry there is an order of the report in which the loop refuses with just that entry |
| `ReportFilter.FilteredAnswers` | service/device-event-processor/internal/validator/validator.go:69-84 | in terms of the value check: everything accepted passes the check of its definition, every known entry was checked, and a refusal names an entry with the very reason the check gives for it, or nothing was known |
| `ReportFilter.ReportsAnswer` | service/device-event-processor/internal/validator/event.go:48-95 | the same for every report of properties, event outputs and service outputs |
| `ReportFilter.PropertyReportAcceptedExactly` | service/device-event-processor/internal/validator/validator.go:64-91 | a property report is accepted iff every known entry passes the value check of its definition and one is known; accepted is the restriction to known names, dropped lists the others once, and the kind of failure is order-independent |
| `ReportFilter.ReportValidator.ValidateProperties` | service/device-event-processor/internal/validator/validator.go:54-92 | the checks before the lookup in their order, the cached or read definition, then the loop; an empty report and an all-unknown one are refused alike |
| `ReportFilter.ReportValidator.ValidateEvent` | service/device-event-processor/internal/validator/event.go:48-95 | the same for events: an undeclared event is refused, one without output accepts nothing and drops all, otherwise something must be accepted |
| `ReportFilter.ReportValidator.ValidateServiceCall` | service/device-event-processor/internal/validator/service.go:48-91 | the same for service replies, where an empty or wholly unknown output is accepted |
| `ReportFilter.KeysOf` | service/device-event-processor/internal/validator/event.go:119-127 | every key is listed once |
| `ConnectionProtocol.ConnectionStore.UpdateStatus` | service/device-event-processor/internal/store/device_connection_store.go:78-99 | the row changes iff the transaction took effect and the row is unseen or not seen later (ties included); the answer says whether it matched |
| `ConnectionProtocol.ConnectionStore.Mark` | service/device-event-processor/internal/store/device_connection_store.go:44-76 | the online key changes only after a reported, matching update; success iff nothing failed; the rest of the store is unchanged |
| `ConnectionProtocol.ConnectionHandler.Handle` | service/device-event-processor/internal/handler/device_connection_handler.go:41-117 | cancelled means retry, undecodable means drop, both without effect; otherwise rows, keys, publications and decision are those of one call for every combination of failures |
| `ConnectionProtocol.FailureRetries` | service/device-event-processor/internal/handler/device_connection_handler.go:72-117 | a call is acknowledged iff the update reported success and, where it matched, so did the Redis write and the publication; otherwise it is retried, never dropped |
| `ConnectionProtocol.AcknowledgedCallLeaves` | service/device-event-processor/internal/store/device_connection_store.go:44-76 | an acknowledged call that applies leaves its status and time in the row, its time under the online key or no key, every other row and key as it was, and its event published |
| `ConnectionProtocol.CallIsARun` | service/device-event-processor/internal/handler/device_connection_handler.go:72-117 | one undisturbed call is the three-step run of the interleaving machine, with the same effects and decision |
| `ConnectionProtocol.RetriedCallIsARun` | service/device-event-processor/internal/handler/device_connection_handler.go:72-117 | a call that asked for a retry and the call after it are a run too |
| `ConnectionProtocol.CompletionIsAStep` | pkg/public/messaging/runner.go:164-203 | a completed delivery is over, and counts as acknowledged only if the completion of an acknowledgement succeeded |
| `ConnectionSafety.AcknowledgedIsExplained` | service/device-event-processor/internal/handler/device_connection_handler.go:170-216 | over every run of failures, lost replies, redeliveries, reorderings, crashes and device removals, an acknowledged event was published or at some attempt found the device missing or seen strictly later |
| `ConnectionSafety.SightingsAreTrue` | service/device-event-processor/internal/store/device_connection_store.go:78-99 | over every run, each row an event was seen superseded by is the row its update really found at that moment |
| `ConnectionSafety.AcknowledgedWasPublishedOrOvertaken` | service/device-event-processor/internal/handler/device_connection_handler.go:72-117 | the same in terms of the run alone: an acknowledged event was published, or one of its own updates met a device that was gone or had been seen strictly later |
| `ConnectionSafety.NewestIsPublished` | service/device-event-processor/internal/store/device_connection_store.go:79-86 | once a delivery of the newest event of an existing device is acknowledged, its change has been published; this is where the guard must admit ties |
| `ConnectionRow.LastSeenNeverDecreases` | service/device-event-processor/internal/store/device_connection_store.go:79-86 | over every run that keeps the device, last_seen_at never decreases |
| `ConnectionRow.RowIsReplay` | service/device-event-processor/internal/store/device_connection_store.go:78-99 | the row after any run is the guarded replay of the events committed for the device, in commit order |
| `ConnectionRow.ReplayShowsLatest` | service/device-event-processor/internal/store/device_connection_store.go:79-86 | a replay leaves the row alone if every event is stale and otherwise shows the status and time of a latest event |
| `ConnectionRow.OrderMattersExactly` | service/device-event-processor/internal/store/device_connection_store.go:79-86 | exact condition: reordering and duplicating events leaves the row alone iff the latest admitted events agree on the status |
| `ConnectionRow.RunsConverge` | service/device-event-processor/internal/store/device_connection_store.go:78-99 | two runs that commit the same events at distinct times end with the same row |
| `ConnectionCache.SettledKeyAgrees` | service/device-event-processor/internal/store/device_connection_store.go:44-76 | from any agreeing row and key, once all events of a device are acknowledged its online key is present iff the row says online, whatever failed, was retried or had been seen before, if its marks did not overlap and times are distinct |
| `ConnectionCache.OverlapLeavesStaleKey` | service/device-event-processor/internal/store/device_connection_store.go:44-76 | for any two events of a device with opposite status and different times, neither stale, and any row and key, a run without a fault delivers just these, overlaps their marks and ends with everything acknowledged and key and row at odds |
| `Runner.Configured` | pkg/public/messaging/runner.go:40-73 | a runner is built iff the retry count is not negative; each positive setting is kept, whatever the others, and each other one becomes its default of 4 workers, 128 deliveries or 3 retries |
| `RunnerConservation.RunConserves` | pkg/public/messaging/runner.go:79-162 | in every reachable state each delivery received is in exactly one place: held by the receive loop, queued, in one worker, finished or abandoned; nothing else is anywhere |
| `RunnerConservation.RunStaysBounded` | pkg/public/messaging/runner.go:83-93 | the queue and the pool never exceed their sizes |
| `RunnerConservation.RunKeepsHistories` | pkg/public/messaging/runner.go:164-203 | every completed delivery had 1 to 1 + maxRetries handler calls, all but the last asking for a retry, and a final retry only when exhausted |
| `RunnerConservation.CompletedAtMostOnce` | pkg/public/messaging/runner.go:164-203 | each delivery gets at most one completion call and is then nowhere else |
| `RunnerConservation.TakenInOrder` | pkg/public/messaging/runner.go:107-162 | over every run deliveries are taken in the order received: what waits is in that order, and whatever a worker has started was received before all of it |
| `RunnerShutdown.AbandonmentNeedsCancellation` | pkg/public/messaging/runner.go:79-162 | a delivery is abandoned only after cancellation |
| `RunnerShutdown.FirstWorkerErrorWins` | pkg/public/messaging/runner.go:99-105 | a run that has returned reports the first worker error recorded, and the receive error only when there is none |
| `RunnerShutdown.ErrorsHaveCauses` | pkg/public/messaging/runner.go:95-203 | over every run the error returned names what happened: a completion call that failed on just that decision, a handler without an answer, or else the one action that stopped the receive loop: a source that failed before any cancellation, a nil delivery, or a receive or hand-over that cancellation ended |
| `RunnerShutdown.CloseFailureIsReported` | pkg/public/messaging/runner.go:107-112 | a returned run says whether closing the source failed |
| `RunnerShutdown.CancellationHasCause` | pkg/public/messaging/runner.go:137-162 | over every run, a run is cancelled from outside or by a worker that has reported an error, and by nothing else |
| `RunnerShutdown.SourceFailureDrains` | pkg/public/messaging/runner.go:95-127 | a run that ends without cancellation has handled and successfully completed every delivery received, and reports why its source stopped it: a failed receive or a nil delivery, whichever came |
| `RunnerProgress.NoDeadlock` | pkg/public/messaging/runner.go:79-162 | until the run has returned, some step other than a cancellation from outside brings it strictly closer to its end, so neither a full queue nor a lost worker strands it |
| `RunnerProgress.RunCanReturn` | pkg/public/messaging/runner.go:79-162 | from every reachable state a finite continuation without such a cancellation lets the run return, uncancelled if nothing had been cancelled and no worker had failed |
| `RunnerProgress.CancelledRunCanReturn` | pkg/public/messaging/runner.go:137-162 | once cancelled and with no worker in the middle of a delivery, the run can return without handling or receiving another one |
| `RunnerProgress.EveryDeliveryCanComplete` | pkg/public/messaging/runner.go:79-203 | so while nothing has been cancelled and no worker has failed, every delivery received can still be successfully completed |
| `RunnerHandle.Handle` | pkg/public/messaging/runner.go:164-203 | the retry loop stops at the first call that asks for no retry, is out of retries or has its pause interrupted, and ends as that call says: interrupted, refused, or completed as last decided |
| `RunnerHandle.LoopIsARun` | pkg/public/messaging/runner.go:164-203 | from the first call to the ending, a worker of the machine given the same outside leaves the machine exactly as the result of the loop says: worker, completions, refusals and abandonment |
| `CommandRequest.RequestStore.Save` | service/device-event-processor/internal/store/property_set.go:24-89 | a row is added iff the request is complete, its time parses, the insert took effect and no row has its key; success iff it was reported |
| `CommandRequest.RequestHandler.Handle` | service/device-event-processor/internal/handler/property_set_requested_handler.go:49-94 | cancelled means retry, undecodable means drop; otherwise table, publications and decision are those of one call for every combination of failures |
| `CommandRequest.ConflictsExactly` | service/device-event-processor/internal/store/property_set.go:69 | a row conflicts with a request iff it is of the same kind and has the same command id and time |
| `CommandRequest.SavedIsStored` | service/device-event-processor/internal/store/service_call.go:56-74 | a saved request is appended as it is if no row of its kind has its id and time, and no earlier row is lost |
| `CommandRequest.UnsavableExactly` | service/device-event-processor/internal/store/property_set.go:35-46 | a request cannot be saved iff it lacks its id, a time that parses, or its content |
| `CommandRequest.FailureRetries` | service/device-event-processor/internal/handler/property_set_requested_handler.go:60-93 | a call is acknowledged iff the request can be saved and both its effects reported success, and retried otherwise |
| `CommandRequest.SavedBeforePublished` | service/device-event-processor/internal/handler/property_set_requested_handler.go:80-93 | over every run with failures, crashes, retries and redeliveries, a command that goes out has a row of its kind, id and time before it goes out, and no two rows share them |
| `CommandRequest.AcknowledgedIsSavedAndPublished` | service/device-event-processor/internal/handler/service_call_requested_handler.go:80-93 | an acknowledged request has a row of its kind, id and time and was published; one delivery comes to publishing at most 1 + maxRetries times |
| `CommandRequest.AttemptsAreCounted` | pkg/public/messaging/runner.go:164-203 | the count of a delivery is how often it came to publishing |
| `CommandRequest.PublishedIsStoredExactly` | service/device-event-processor/internal/store/service_call.go:56-74 | every run stores what it publishes iff, among the requests that may be delivered, of whatever tenants, command id and time identify the request |
| `CommandRequest.SharedKeyPublishesUnstored` | service/device-event-processor/internal/store/property_set.go:51-69 | for any two requests with one key, also of different tenants, the fault-free run of both publishes one the table does not hold |
| `CommandRequest.AcknowledgeableExactly` | service/device-event-processor/internal/handler/service_call_requested_handler.go:80-93 | some run acknowledges a request iff it can be saved |
| `CommandRequest.UnsavableNeverSucceeds` | service/device-event-processor/internal/store/property_set.go:35-44 | a request that cannot be saved is never published, acknowledged or dropped, only retried and given up |
| `CommandRequest.CallIsARun` | service/device-event-processor/internal/handler/property_set_requested_handler.go:80-93 | one undisturbed call is the two-step run of the interleaving machine |
| `CommandRequest.RetriedCallIsARun` | service/device-event-processor/internal/handler/property_set_requested_handler.go:80-93 | a call that asked for a retry and the call after it are a run too |
| `CommandRequest.CompletionIsAStep` | pkg/public/messaging/runner.go:164-203 | a completed delivery is over, and counts as acknowledged only if the completion of an acknowledgement succeeded |
| `ModelTable.ThingsModelStore.CreateModel` | service/backend/internal/store/thingsmodel_store.go:25-93 | a creation clears the current mark of the product and inserts, or changes nothing and says why |
| `ModelTable.ThingsModelStore.UpdateModel` | service/backend/internal/store/thingsmodel_store.go:179-239 | an update clears the mark on the other rows and rewrites the row, or changes nothing |
| `ModelTable.ThingsModelStore.FindCurrent` | service/device-event-processor/internal/store/thingsmodel_reader.go:26-60 | the reader finds a current row of the product iff there is one |
| `ModelTable.ThingsModelService.Create` | service/backend/internal/service/thingsmodel_service.go:104-127 | input is trimmed, defaulted and checked (only a published model may be current) before the table is touched |
| `ModelTable.ThingsModelService.Update` | service/backend/internal/service/thingsmodel_service.go:155-177 | the same gate for updates |
| `ModelTable.RunKeepsInv` | service/backend/internal/store/thingsmodel_store.go:55-82 | over every sequence of committed, rolled-back or unacknowledged transactions each product has at most one current model, a current model is published, a date is set iff published, and every stored model is valid |
| `ModelTable.StoredModelsExactly` | deploy/init-scripts/timescaledb/08-thingsmodel.sql:72-77 | the same for any two rows of any reachable table, field by field |
| `ModelTable.CurrentIsDeterminedAndParses` | service/device-event-processor/internal/store/thingsmodel_reader.go:31-37 | the query for the current model has at most one answer, and that answer parses into well-formed properties, event outputs and service outputs |
| `ModelTable.MarkedRowTakesOver` | service/backend/internal/store/thingsmodel_store.go:271-291 | a committed row marked current becomes the only current one of its product |
| `ModelTable.OtherProductsKeepCurrent` | service/backend/internal/store/thingsmodel_store.go:271-291 | no transaction touches the current model of another product |
| `ModelTable.CreationsExactly` | service/backend/internal/service/thingsmodel_service.go:104-127 | a creation goes through iff the texts are not blank, the version is positive and new to the product, the status is blank or one of three, only a published model is marked current, the definitions are valid and the product exists |
| `ModelTable.UpdatesExactly` | service/backend/internal/service/thingsmodel_service.go:155-177 | the same for updates of a row that exists |
| `ModelTable.CreatedRow` | service/backend/internal/store/thingsmodel_store.go:55-82 | a committed creation adds a row with the caller's content, trimmed texts, version, status and mark, dated iff published; other rows lose at most the current mark |
| `ModelTable.UpdatedRow` | service/backend/internal/store/thingsmodel_store.go:190-228 | a committed update leaves the caller's content, name, status and mark in the row, its tenant, product and version unchanged, and its publication date kept while it stays published; other rows lose at most the current mark |
| `ModelTable.DeletedRow` | service/backend/internal/store/thingsmodel_store.go:241-265 | a committed deletion removes that row and no other |
| `ModelTable.BlankStatusIsDraft` | service/backend/internal/service/thingsmodel_service.go:191-197 | a blank status is stored as a draft, any other trimmed |
| `ModelTable.RunKeepsVersionsUnique` | deploy/init-scripts/timescaledb/08-thingsmodel.sql:72-73 | over every sequence of transactions a product has each version once |
| `Trend.NormalizeTrendProperties` | service/backend/internal/service/device_service.go:776-797 | names are accepted iff every non-blank one is an identifier and there are 1 to 8 distinct ones; the result is those in order of first occurrence |
| `Trend.OccurrencesAreFirst` | service/backend/internal/service/device_service.go:780-791 | the result is distinct, complete and ordered by first occurrence |
| `Trend.BuildIndex` | service/backend/internal/store/device_store.go:358-365 | the index leads each requested name to its (last) series |
| `Trend.GroupRows` | service/backend/internal/store/device_store.go:388-431 | after the row loop each indexed series holds the points of its property in row order |
| `Trend.GroupingLosesNothing` | service/backend/internal/store/device_store.go:349-431 | on distinct names every series holds exactly the rows of its own property, and the points add up to the rows with a bucket and a requested property |
| `Trend.RepeatedNameStaysEmpty` | service/backend/internal/store/device_store.go:358-365 | with a repeated name the earlier series stays empty, so the distinctness is needed |
| `Trend.PointExactly` | service/backend/internal/store/device_store.go:441-451 | a point shows the extremes and the count of its row and, as its value, the aggregate asked for, the average by default |
| `Realtime.Registry.Register` | service/backend/internal/realtime/registry.go:21-35 | the connection enters the bucket of each of its tenants; null changes nothing |
| `Realtime.Registry.Unregister` | service/backend/internal/realtime/registry.go:37-56 | it leaves each of them, and a bucket that empties goes |
| `Realtime.AddedExactly` | service/backend/internal/realtime/registry.go:21-35 | exactly the buckets of its tenants gain it, none becomes empty |
| `Realtime.RemovedExactly` | service/backend/internal/realtime/registry.go:37-56 | exactly the buckets of its tenants lose it, none stays empty |
| `Realtime.Conn.Send` | service/backend/internal/realtime/conn.go:48-60 | a frame is queued behind the others iff there is room and the connection is open (a closed one may still take it); a full queue closes the connection |
| `Realtime.Registry.Broadcast` | service/backend/internal/realtime/registry.go:58-77 | every connection of the tenant is sent the frame once and the answer counts those that took it; a blank tenant changes nothing |
| `Realtime.SendAll` | service/backend/internal/realtime/registry.go:70-76 | the sends serve each target exactly once and count the takers |
| `RealtimeRuns.IndexIsExact` | service/backend/internal/realtime/registry.go:21-56 | over every sequence of steps a connection is in the bucket of a tenant iff it is registered and has that tenant, and no bucket is empty |
| `RealtimeRuns.BroadcastTargetsExactly` | service/backend/internal/realtime/registry.go:58-69 | over every run a broadcast takes exactly the registered connections of its tenant as targets |
| `RealtimeRuns.TargetIsServed` | service/backend/internal/realtime/registry.go:70-76 | each target is served once: queued behind the others iff there is room and it is open (or takes one more), closed iff there is none |
| `RealtimeRuns.ClosesExactly` | service/backend/internal/realtime/conn.go:48-128 | a connection closes by a full queue, a failed write, the end of its write loop or from outside, its loop stops by the middle two, and neither is undone |
| `RealtimeRuns.WrittenIsPrefixOfAccepted` | service/backend/internal/realtime/conn.go:90-128 | over every sequence of steps at most 64 frames wait, written frames are a prefix of those accepted, at most one more is in flight or lost, each was broadcast for a tenant of the connection, and until the loop stops every accepted frame is written, in flight or waiting, in order |
| `RealtimeRuns.AcceptedCanBeWritten` | service/backend/internal/realtime/conn.go:90-128 | from every reachable state, until the write loop of a connection stops, a finite continuation writes everything accepted for it, closed or not |
| `Editor.ObjectFromRows` | web/src/pages/Admin/ThingsModelManagement.tsx:469-480 | the reduce over rows throws iff some row with an identifier cannot be written |
| `Editor.LimitsAreRead` | web/src/pages/Admin/ThingsModelManagement.tsx:268-290 | a blank limit is none, a text that is no number throws, and a precision must be a non-negative integer too |
| `Editor.BlanksAreShown` | web/src/pages/Admin/ThingsModelManagement.tsx:345-363 | whatever is absent or of the wrong kind is shown blank, as text, as not required |
| `EditorRoundTrip.LastRowWins` | web/src/pages/Admin/ThingsModelManagement.tsx:469-480 | what is saved under an identifier is what the last row with it writes |
| `EditorRoundTrip.BuiltFromRows` | web/src/pages/Admin/ThingsModelManagement.tsx:469-480 | nothing is saved that no row wrote, and every saved identifier is trimmed and not blank |
| `EditorRoundTrip.SavedPropertiesAreCanonical` | web/src/pages/Admin/ThingsModelManagement.tsx:418-480 | whatever the table holds, the saved properties are canonical |
| `EditorRoundTrip.PropertyFixedPoints` | web/src/pages/Admin/ThingsModelManagement.tsx:345-376 | reading and saving properties, in any key order, is the identity iff they are canonical |
| `EditorRoundTrip.PropertiesSettle` | web/src/pages/Admin/ThingsModelManagement.tsx:345-480 | whatever was read, once saving has not thrown a second round trip changes nothing |
| `EditorRoundTrip.PropertiesThrowExactly` | web/src/pages/Admin/ThingsModelManagement.tsx:268-292 | saving what was opened throws iff some property under a non-blank identifier has a limit whose text is no number, or a precision that is no non-negative integer |
| `EditorRoundTrip.EventsThrowExactly` | web/src/pages/Admin/ThingsModelManagement.tsx:482-507 | saving events throws iff one under a non-blank identifier has an output parameter that cannot be saved |
| `EditorRoundTrip.ServicesThrowExactly` | web/src/pages/Admin/ThingsModelManagement.tsx:509-546 | saving services throws iff one under a non-blank identifier has an input or output parameter that cannot be saved |
| `EditorRoundTrip.EventFixedPoints` | web/src/pages/Admin/ThingsModelManagement.tsx:378-394 | the same exact condition for events with their parameters |
| `EditorRoundTrip.EventsSettle` | web/src/pages/Admin/ThingsModelManagement.tsx:482-507 | the same idempotence for events |
| `EditorRoundTrip.ServiceFixedPoints` | web/src/pages/Admin/ThingsModelManagement.tsx:396-416 | the same exact condition for services with both parameter tables |
| `EditorRoundTrip.ServicesSettle` | web/src/pages/Admin/ThingsModelManagement.tsx:509-546 | the same idempotence for services |
| `EditorMeaning.ParamKeepsMeaning` | web/src/pages/Admin/ThingsModelManagement.tsx:345-363 | a published definition is saved without throwing and parsed as before iff its data type is written without padding (or means string) |
| `EditorMeaning.SavingKeepsMeaning` | web/src/pages/Admin/ThingsModelManagement.tsx:345-546 | opening any published model and saving it untouched never throws, keeps every identifier, and the processor parses the result to the very same definitions iff every data type survives |
| `EditorMeaning.PaddedTypeIsLost` | web/src/pages/Admin/ThingsModelManagement.tsx:300-311 | a padded data type is published and parsed trimmed, but the editor turns it into string |
| `EditorRepublish.SavingStaysPublished` | service/backend/internal/service/thingsmodel_validator.go:35-221 | the untouched save of a published model passes the publication check iff every name and unit keeps something the backend sees and every data type survives, unless nothing is limited by it |
| `EditorRepublish.SavingKeepsChoices` | web/src/pages/Admin/ThingsModelManagement.tsx:314-343 | the backend reads the same access modes, levels and call types after the save, each iff every one of them survives |
| `EditorRepublish.OffersArePublishable` | web/src/pages/Admin/ThingsModelManagement.tsx:300-343 | the editor offers exactly the choices that may be published |
| `EditorRepublish.PropertyStaysPublished` | service/backend/internal/service/thingsmodel_validator.go:149-173 | the same for one property: published iff publishable, same access mode iff it survives, and writable iff it was or its mode is lost |
| `EditorRepublish.ReadOnlyBecomesWritable` | service/backend/internal/service/device_service.go:846-853 | every published read-only property with a padded access mode becomes writable |
| `EditorRepublish.PaddedReadOnlyIsPublished` | service/backend/internal/service/thingsmodel_validator.go:149-173 | there are such properties |
| `EditorRepublish.InvisibleNameIsLost` | service/backend/internal/service/thingsmodel_validator.go:238-241 | a byte order mark is a published name of which the editor leaves nothing |
| `EditorRepublish.BackendAcceptsAlike` | service/backend/internal/service/device_service.go:909-994 | the backend accepts the same values for a saved definition iff its data type survives |

## Left out

- IEEE 754: rounding of arithmetic, NaN and infinities, and `math.Pow10` beyond its range; numbers are exact reals.
- Numbers of Go kinds other than float64, and `json.Number`: the model starts from decoded JSON, where every number is a float64.
- JSON decoding, JSON Schema validation and the texts of error messages; the `validation` package is not part of this model.
- Kafka's offsets: `Retry` is a completion like any other, and redelivery is a fresh delivery that any run may contain.
- A panic of the handler counts as the retry the runner turns it into; logging, middleware and the length of the pause are not modelled.
- ConnectionCache.SettledKeyAgrees: expiry of the Redis key is not modelled, and marks of one device are assumed not to overlap, because the promise is false otherwise (see the counterexample).
- ConnectionSafety.NewestIsPublished: the device is not removed during the run; a removed device may be acknowledged unpublished, which is the other branch of the first theorem.
- Timestamps are compared at the precision the database stores; the Go side parses nanoseconds.
- The two connection handlers, and the two command handlers, are one model each, with the kind of event in the data; the two request tables are one table keyed by kind.
- The acknowledgement tables of property sets and service calls: plain inserts.
- What a device does with a command published more than once, which retries allow.
- The three lookups are one class, since their code is the same up to the receiver.
- DefinitionCache.ReturnedDefinitionsAreRecent: the clock of the cache does not go backwards.
- PostgreSQL: each transaction is one atomic step that commits or not; row-level security, isolation between concurrent transactions and the plain UUID syntax checks are not modelled.
- ModelTable.RunKeepsInv: the table starts empty; its check constraints are not assumed but follow.
- The SQL that aggregates trend samples: grouping starts from its rows.
- Websocket reading, pings and close codes: a connection is its tenants, its queue and whether it is closed; a connection closing while its queue has room may or may not take one more frame, as Go's `select` may choose either.
- React state, drafts kept in dialogs, local row ids and the page around the converters.
- ECMAScript's `String(x)` and `Number(text)` are parameters with the one promise that a finite number is recovered from its text; 0 and -0 are one number.
- EditorRoundTrip.PropertiesSettle: objects are maps, so the enumeration order of keys is arbitrary and `__proto__` is a key like any other.
- EditorMeaning.SavingKeepsMeaning: speaks of what the processor parses; what the backend reads is the subject of `EditorRepublish`, and descriptions, which neither interprets, of the round-trip theorems.
- RunnerProgress.RunCanReturn: the continuation may use that a source can fail, a handler answers and a completion call returns; no fairness of the scheduler is claimed.
- DefinitionCache.PairsStayApartExactly: which texts PostgreSQL casts is modelled by their characters only, and two spellings of one uuid are two texts.
- Configuration, routing, sessions, plain CRUD services and the disabled MQTT gateway.
