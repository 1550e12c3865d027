# Verification of the CloseSpan prompt-testing runner and its clients

The project models the logic of the PDD runner (`services/pdd-runner/server.py`) and of the browser code
that drives it, and proves what the two promise together. `dafny verify dfyconfig.toml` checks everything.

**The runner's job machine.** Request handlers reserve capacity under one lock, register prompt evaluations
under a second one and start worker threads; the workers contend for a bounded semaphore and write into a
pruned registry. `Registry` and `Admission` are the two locked structures, as classes proved against
functions of their old contents. `JobMachine` makes every locked block, semaphore operation and job body one
step of a transition system, so that a run is any interleaving. `JobMachineRuns` proves what holds in every
reachable state, `JobMachineRoom` exactly when a registration can be refused for lack of room, `JobMachineDrain` that schedules without arrivals end with everything settled,
`JobMachineIntegrity` when a served result belongs to the prompt it is served for. `Service` ties the request
handler and the worker, written as methods over the classes, back to those steps.

**The runner's kernels.** `Paths` is path normalisation, `Scope` the chain from ticket pattern through profile
pattern to monorepo root, `CanonicalLists` (over `Order`) the lists with one accepted spelling,
`Instructions` the splitter of numbered instructions with its twin in the browser, `Contract` the section
parser and the change lists, `Headings` what its heading pattern means, `Budget` the staged budget of one evaluation attempt in integer micro-dollars.

**The clients.** `Browser` and `ProfileEditor` are the settings editor against the check that the runner makes
in another process, with the command table of both in `InstallTable`. `Approval` is the driver that takes a
user story to an execution approval against a server that may answer anything. `Voice` is the voice-session
protocol with callbacks arriving between any two steps, `VoicePanel` the component that runs it, `LineStream`
the reader of its live transcript. `Csv` is the audit export with an independent reader, `FitText` the
search for a font size.

`Wrappers`, `Text` and `Sequences` hold what the others share.

## What turned out false, and when it holds

* `safe_relative_path` is not idempotent. "././a" gives "./a" (`Paths.TwoDotsNeedTwoPasses`); "./C:/x" gives
  "C:/x", a drive the second pass refuses (`Paths.DriveInput`); "x /" gives "x ", which gives "x"
  (`Paths.SpaceInput`). It is idempotent exactly on inputs whose kept segments (those of the stripped,
  slash-converted text that are not empty, without a leading ".") are none, or "." alone, or do not begin with
  another ".", a drive or white space and do not end in white space (`Paths.IdempotentIffSettled`).
* A ticket can leave its monorepo root when a wildcard follows the root's own characters ("src*" is judged
  narrower than "src/" + "**"), when the root's own name holds a wildcard, or when the ticket pattern is not in normal form: the narrowness check looks at
  the trimmed pattern, `permitted` at the one stored in the job (`Scope.OverflowLeavesTheRoot`,
  `Scope.WildcardRootIsLeft`, `Scope.UnnormalizedTicketCanLeaveTheRoot`; exact condition on patterns in `Scope.PermittedStayUnderIffRooted`).
* A registration can be refused for lack of room at any capacity. The handler cancels the reservation before it
  marks the record Failed, so a job between those two blocks still has a live record and no longer counts as
  queued. With k such jobs a refusal for room can be reached exactly when capacity plus k exceeds the 256 records
  (`JobMachineRoom.RefusableIffCrowded`); where a start failure is marked before anything else happens it can be
  reached exactly when capacity alone exceeds them (`JobMachineRoom.AtOnceRefusableIffCapacity`).
* Resubmitting a request id under another hash while a job for it is unfinished can make a Complete record
  hold the wrong result (`JobMachineIntegrity.ResubmissionCanBreakIntegrity`; the exact states from which the
  jobs already registered can still do so are those of `JobMachineIntegrity.BreakableIffFragile`).
* With a package manager named "constructor" or "__proto__" and no image, the editor's table lookup finds a
  property of the JavaScript object and the editor writes a list the runner refuses
  (`Browser.EnabledConfigIsAccepted` has the exact condition, `Browser.ConstructorSlipsThrough` the input).
* The editor's handlers keep every network rule of the runner but one: a preview together with a secret of the
  running application (`ProfileEditor.AcceptedIffNotExposing`, `ProfileEditor.MovingASecretExposesIt`).
* A CSV row without fields does not read back (`Csv.ReadBackIffNoEmptyRow`); the export has none.

## Model

| member | source | states |
|---|---|---|
| Registry.EvaluationRegistry.Prune | services/pdd-runner/server.py:1020-1040 | The two pruning passes, run in place over the dictionary and the sorted terminal records, leave exactly the registry that drops expired terminal records and then the oldest terminal ones until it is below 256 or has none left. |
| Registry.EvaluationRegistry.SortedTerminal | services/pdd-runner/server.py:1030-1036 | The terminal records by update time and then request id: a permutation of them in that order. |
| Registry.EvaluationRegistry.Register | services/pdd-runner/server.py:1043-1057 | After pruning, a known request is accepted exactly for its own prompt hash and keeps its record, a new one exactly when there is room and then is Queued. |
| Registry.EvaluationRegistry.Status | services/pdd-runner/server.py:1060-1065 | A record is served exactly when the request id is known under that prompt hash. |
| Registry.EvaluationRegistry.Update | services/pdd-runner/server.py:1068-1074 | A known record takes the status, the result or error and the time of its patch and keeps everything else, hash included; no other record and no key changes; an unknown id changes nothing. |
| Registry.UpdateWrites | services/pdd-runner/server.py:1068-1074 | The same of the function that the job machine steps through, field by field. |
| Registry.PruningKeepsLiveWork | services/pdd-runner/server.py:1020-1040 | What stays is unchanged and no settled record of an hour or more; what goes had settled and was an hour old, or older than every settled record that stays while 255 or more stay; the end is below 256 or live records only. |
| Registry.EvictionIsMinimal | services/pdd-runner/server.py:1028-1040 | The second pass evicts only the oldest terminal records and only as many as are needed. |
| Registry.MinimalEvictionIsUnique | services/pdd-runner/server.py:1028-1040 | There is only one such eviction, so the description determines what pruning keeps. |
| Registry.RegistrationRespectsCap | services/pdd-runner/server.py:1043-1057 | A registry of at most 256 records never grows past 256. |
| Admission.JobCounters.ReserveJob | services/pdd-runner/server.py:210-216 | Admits exactly while active plus queued is below capacity, and counts the job as queued only then. |
| Admission.JobCounters.CancelReservedJob | services/pdd-runner/server.py:219-222 | One queued job less, never below zero. |
| Admission.JobCounters.BeginReservedJob | services/pdd-runner/server.py:225-229 | One job moves from queued to active. |
| Admission.JobCounters.FinishJob | services/pdd-runner/server.py:232-235 | One active job less, never below zero. |
| JobMachine.CountersStep | services/pdd-runner/server.py:210-235 | Every step of any thread keeps the counters and the free slots equal to the true numbers of jobs, and no max(0, ...) clamp acts. |
| JobMachineRuns.CountersAreExact | services/pdd-runner/server.py:210-235 | In every interleaving QUEUED_JOBS and ACTIVE_JOBS are the numbers of waiting and begun jobs, active stays within the concurrency, the sum within capacity, and no enabled step is clamped. |
| JobMachineRuns.OwnershipStep | services/pdd-runner/server.py:1816-1830 | One step of any thread keeps each live record with an unfinished job of its request as its last writer, at the stage the record shows. |
| JobMachineRuns.LiveRecordsHaveDistinctWriters | services/pdd-runner/server.py:1043-1074 | In every reachable state each Queued or Running record has its own admitted, unfinished job as last writer, and different records have different ones. |
| JobMachineRuns.RefusedOnlyForItsHash | services/pdd-runner/server.py:1912-1933 | When capacity plus the jobs just failing to start fits the registry, a registration is accepted exactly when the id is unknown after pruning or known under the same prompt hash, duplicates included: never refused for room. |
| JobMachineRoom.RefusableIffCrowded | services/pdd-runner/server.py:1912-1933 | With k handlers between giving back a reservation and marking the record Failed, some run leads to a fresh id refused for lack of room exactly when capacity plus k exceeds 256, at any capacity of at least 1. |
| JobMachineRoom.RefusalNeedsCrowding | services/pdd-runner/server.py:1043-1057 | Any such refusal, in any run, has capacity and those handlers exceed 256. |
| JobMachineRoom.CrowdingRefuses | services/pdd-runner/server.py:1043-1057 | The run that leads there is given: k submissions whose threads do not start, then submissions that wait, then one more id. |
| JobMachineRoom.AtOnceRefusableIffCapacity | services/pdd-runner/server.py:1923-1933 | Where every start failure is at once followed by its mark, a registration can be refused for lack of room exactly when capacity exceeds 256. |
| JobMachineRuns.InvKept | services/pdd-runner/server.py:1807-1830 | Counters, ownership, results and the cap are kept together by any run from any state that has them. |
| JobMachineDrain.SchedulesAreFinite | services/pdd-runner/server.py:1807-1830 | Without arrivals a schedule is no longer than the steps its jobs have left. |
| JobMachineDrain.NobodyWaitsForever | services/pdd-runner/server.py:1807-1830 | While some job is not gone, some step other than an arrival is enabled: no deadlock on the slots. |
| JobMachineDrain.StuckIffDrained | services/pdd-runner/server.py:1912-1951 | A state without enabled steps is exactly one with all jobs gone, both counters 0, all slots free and every record Complete or Failed. |
| JobMachineDrain.Drains | services/pdd-runner/server.py:1807-1830 | After any run, any schedule without arrivals is finite and can stop only in such a drained state. |
| JobMachineIntegrity.ServedResultsMatch | services/pdd-runner/server.py:1886-1893 | If no request id is resubmitted under another hash while a job for it is unfinished, every Complete record holds the result computed for its own id and hash, across pruning and re-registration. |
| JobMachineIntegrity.ResultsComeFromBodies | services/pdd-runner/server.py:1816-1828 | In every run the result of each record is, verdict included, what the body of a job for that request id returned, under that job's hash. |
| JobMachineIntegrity.BodyEndRecords | services/pdd-runner/server.py:1820-1828 | Where the record is still there, a body that succeeds leaves it Complete with exactly its result and one that fails leaves it Failed with the first 1000 characters of its message, both stamped. |
| JobMachineIntegrity.BreakableIffFragile | services/pdd-runner/server.py:1068-1074 | From a reachable state with sound results, some continuation without arrivals and registrations spoils one exactly when a pending job's record now carries another hash. |
| JobMachineIntegrity.AgreeingJobsKeepIntegrity | services/pdd-runner/server.py:1043-1074 | Continuations that register the jobs already admitted spoil none either, if the pending jobs of each id agree on its hash. |
| JobMachineIntegrity.MismatchBreaks | services/pdd-runner/server.py:1816-1828 | From such a state a schedule that spoils a result can be run. |
| JobMachineIntegrity.ResubmissionCanBreakIntegrity | services/pdd-runner/server.py:1043-1074 | Without the condition on resubmissions some run serves a wrong result. |
| Service.Runner.SubmitPromptEvaluation | services/pdd-runner/server.py:1912-1946 | The submission handler runs as steps of the job machine; it answers 429 exactly when active plus queued is at capacity, 409 exactly when it had capacity and the id is kept under another hash or there is no room, and 202 only if the thread started; then the id has a record under its hash and counts as queued, while a failed start leaves it Failed with the message for that and the counters as they were. |
| Service.Runner.ExecutePromptEvaluationReserved | services/pdd-runner/server.py:1816-1830 | A worker that runs undisturbed is a run of the job machine; it gives its slot and counts back, changes no record but its own, and leaves that, if it is there, Complete with the very result of the body or Failed with the message cut to 1000 characters. |
| Service.WorkerRuns | services/pdd-runner/server.py:1816-1830 | The same of the machine's state after the worker's six steps, whatever else the state holds. |
| Paths.NormalisationPreservesMeaning | services/pdd-runner/server.py:238-250 | Whatever is returned has no leading slash, no empty or ".." segment, is no longer than the input, and resolves to the same place as the stripped, slash-converted input. |
| Text.TrimMeaning | services/pdd-runner/server.py:241 | Stripping takes away all white space at both ends and nothing else. |
| Paths.RefusedIff | services/pdd-runner/server.py:239-248 | Exactly which inputs are refused and with which error: empty or over 500 characters, nothing left after stripping, a first slash of either kind, a NUL or a drive; and of the others those with a ".." segment. |
| Paths.ResolveMeaning | services/pdd-runner/server.py:246-249 | What resolving means: it goes through the text on both sides of a slash, one directory a segment, and empty and "." segments stay where they are. |
| Paths.AcceptedAsNormalizedIffNormalForm | services/pdd-runner/server.py:467-469 | The strings a validator accepts as normalized are exactly "." and the slash-joined non-empty segments with no "..", no leading ".", no edge white space, backslash, NUL or drive prefix. |
| Paths.IdempotentIffSettled | services/pdd-runner/server.py:241-250 | Normalising twice is normalising once exactly when the segments kept from the input do not begin with another ".", a drive or white space and do not end in white space. |
| Paths.DriveBehindDot | services/pdd-runner/server.py:244-249 | A drive behind "./" passes the first pass and is refused by the second. |
| Paths.DriveInput | services/pdd-runner/server.py:244-249 | "./C:/x" is such an input. |
| Paths.SpaceBeforeSlash | services/pdd-runner/server.py:241-246 | White space before a final slash survives the first pass and not the second. |
| Paths.SpaceInput | services/pdd-runner/server.py:241-246 | "x /" is such an input. |
| Paths.TwoDotsNeedTwoPasses | services/pdd-runner/server.py:249 | Two "./" in front of a path take two passes. |
| Scope.LiteralMeaning | services/pdd-runner/server.py:779-780 | A pattern without a wildcard matches itself alone. |
| Scope.WildcardMeaning | services/pdd-runner/server.py:779-780 | A wildcard between two patterns stands for any stretch of the path, however long and with slashes in it, both directions. |
| Scope.MatchConcat | services/pdd-runner/server.py:779-780 | A path matches a pattern put together of two exactly when it can be cut so that its parts match theirs. |
| Scope.PermittedBelow | services/pdd-runner/server.py:779-780 | The pattern root + "/**" matches exactly what begins with root + "/". |
| Scope.NarrowerMeaning | services/pdd-runner/server.py:267-276 | A ticket pattern is judged narrower exactly when it equals the allowed one, everything is allowed, it is a plain path that the allowed one matches, or the allowed one ends in "/**" and the ticket's text before its first wildcard is, closing slashes aside, that prefix or below it. |
| Scope.AllUnderIffRootedHead | services/pdd-runner/server.py:267-276 | Everything a pattern matches is the root or below it exactly when the text before its first wildcard is. |
| Scope.PermittedStayUnderIffRooted | services/pdd-runner/server.py:779-780 | Every path the ticket patterns permit stays under the root exactly when each pattern's head does. |
| Scope.NarrowerStaysRooted | services/pdd-runner/server.py:267-276 | A pattern judged narrower than a rooted one is rooted, unless its wildcard overflows the root's own name. |
| Scope.ValidateProfilePaths | services/pdd-runner/server.py:523-528 | The loop over profile paths accepts exactly normalized, strictly sorted paths inside the root. |
| Scope.ValidateTicketPaths | services/pdd-runner/server.py:550-553 | The loops over ticket paths accept exactly those each narrower than some profile path. |
| Scope.ValidateScope | services/pdd-runner/server.py:467-553 | Root, profile and ticket checks together. |
| Scope.NormalizeAll | services/pdd-runner/server.py:523-525 | A list equals its normalised copy exactly when each path is normalized. |
| Scope.ScopeChain | services/pdd-runner/server.py:1728-1736 | When the validator accepts ticket patterns in normal form without overflowing wildcards under a wildcard-free root other than ".", every permitted path is the root or begins with root + "/". |
| Scope.WildcardRootIsLeft | services/pdd-runner/server.py:526-528 | A root ending in "*" is accepted with the pattern below it, which permits paths beside it. |
| Scope.SegmentWildcardsDoNotOverflow | services/pdd-runner/server.py:272-275 | A first wildcard that starts a path segment never overflows. |
| Scope.OverflowLeavesTheRoot | services/pdd-runner/server.py:272-275 | root + "*" is accepted and permits root + "x". |
| Scope.UnnormalizedTicketCanLeaveTheRoot | services/pdd-runner/server.py:550-553 | A ticket pattern with a leading space is accepted and permits a path outside the root. |
| CanonicalLists.ValidatePublicEnvironment | services/pdd-runner/server.py:297-324 | The loop and the sort comparison accept exactly at most 100 acceptable items strictly increasing by name. |
| CanonicalLists.ValidateSecretBindings | services/pdd-runner/server.py:327-360 | Exactly at most 100 acceptable bindings with known exposure and no public name, strictly increasing by name and phase. |
| CanonicalLists.ValidateEnvironment | services/pdd-runner/server.py:372-373 | Both together: also, no name is public and secret. |
| CanonicalLists.AcceptedEnvironmentsAreUnique | services/pdd-runner/server.py:322-324 | Two accepted environments with the same items are equal element by element. |
| CanonicalLists.AcceptedBindingsAreUnique | services/pdd-runner/server.py:354-360 | Likewise two accepted binding lists. |
| CanonicalLists.AcceptedPathsAreUnique | services/pdd-runner/server.py:523-525 | Likewise two accepted path lists. |
| CanonicalLists.CanonicalPathsIffIncreasing | services/pdd-runner/server.py:523-525 | A list equals the sorted list of its distinct members exactly when it is strictly increasing. |
| CanonicalLists.PhaseNamesAreFaithful | services/pdd-runner/server.py:349-352 | "exposure:name" is the same for two bindings exactly when exposure and name are. |
| Order.LexMeaning | services/pdd-runner/server.py:322-324 | One text is less than another exactly when it is a proper prefix, or has the smaller character at the first place where they differ. |
| Order.SortedCopyIffNondecreasing | services/pdd-runner/server.py:322-324 | Comparing a list with its stable sort by key tells exactly whether it was sorted. |
| Order.IncreasingListsAgree | services/pdd-runner/server.py:322-324 | Strictly increasing lists with the same members are equal. |
| Instructions.SplittingIsLossless | services/pdd-runner/server.py:1459-1470 | The markers and pieces of a numbered instruction interleave back to the compacted text; any other text is one piece. |
| Instructions.MarkerMeaning | services/pdd-runner/server.py:1463 | What counts as a marker: a position at the start or a space, then digits, a full stop and a space, and behind them a capital letter or a quote. |
| Instructions.SplittingIsStable | services/pdd-runner/server.py:1459-1470 | Every piece is non-empty and splits into itself alone. |
| Instructions.NumberedSplit | services/pdd-runner/server.py:1466-1470 | Each marker yields exactly one piece, trimmed, compact and opened by a capital or a quote; the filter for empty pieces never acts. |
| Instructions.PrintedListsSplitBack | services/pdd-runner/server.py:1459-1470 | Compact, marker-free bodies printed as "1. b1 2. b2 ..." split back into the bodies. |
| Instructions.BothProgramsCompactAlike | src/components/engineering-ticket-panel.tsx:288 | Trimming and collapsing white space gives the words joined by single spaces. |
| Instructions.TwinsAgree | src/components/engineering-ticket-panel.tsx:287-306 | The browser's splitter lists the runner's pieces, and nothing exactly where the runner does not split. |
| Contract.AddChange | services/pdd-runner/server.py:1537-1546 | One change adds its new pieces in order, or fails on an oversized one. |
| Contract.AddResult | services/pdd-runner/server.py:1534-1546 | One detector result adds all its changes' pieces. |
| Contract.AddResults | services/pdd-runner/server.py:1534-1546 | The nested loops collect the pieces of all the results they are given. |
| Contract.ParseStoryDetection | services/pdd-runner/server.py:1518-1549 | Exactly the two known outcomes without oversized pieces parse, into the verdict and the first 8 changes, or the default change. |
| Contract.ParsedChangesExactly | services/pdd-runner/server.py:1533-1549 | The changes are the first 8 of the pieces of the first 20 results, each kept at its first occurrence and in that order. |
| Contract.PiecesMeaning | services/pdd-runner/server.py:1534-1543 | Those pieces are, result by result and change by change, the splits of the text that a change carries; results and changes of other shapes add nothing. |
| Contract.ParsedChangesAreADetectorList | services/pdd-runner/server.py:1533-1549 | The changes are at most 8, duplicate-free, non-empty, each at most 16000 characters; a failing story always has one. |
| Contract.RevisionsHaveChanges | services/pdd-runner/server.py:1601-1609 | The change list of "Needs revision" is never empty: it is the detector's list when all of it looks complete, and the contract's sections otherwise. |
| Contract.CompleteMeaning | services/pdd-runner/server.py:1473-1478 | An instruction looks complete exactly when, white space at its end aside, it is not empty, does not end in "..." or an ellipsis, and ends in one of the ten closing characters. |
| Contract.CollectedMeaning | services/pdd-runner/server.py:1483-1494 | Under each case-folded name stands the body of the last section of that name whose stripped body is not empty. |
| Headings.HeadingIsTheFirstMatch | services/pdd-runner/server.py:1483 | A heading is read where, and as far as, a backtracking matcher would take its pattern: the first of all ways to fit it, in the order in which greedy and reluctant repetitions try them; none is read where none fits. |
| Headings.RecommendationsReadBack | services/pdd-runner/server.py:1497-1502 | A recommendation for a well-formed section, within the size limit, is itself a contract from which just that recommendation is recovered. |
| Contract.PrintedContractsParseBack | services/pdd-runner/server.py:1481-1508 | A contract printed section by section comes back as exactly the named sections present, in the order of the names, bodies verbatim, for any list of names and so for the six of the runner. |
| Budget.SharesConserveTheBudget | services/pdd-runner/server.py:1452-1456 | The three shares are non-negative, sum to the budget, stay under their ceilings, and a positive budget leaves the detector something. |
| Budget.SharesArePercentages | services/pdd-runner/server.py:1452-1456 | Generation is a quarter of the budget and repair fifteen hundredths, to the nearest micro-dollar with ties to even, until each reaches its ceiling of a quarter dollar. |
| Budget.SumMeaning | services/pdd-runner/server.py:791-797 | A row adds its amount when it can be read and nothing otherwise, wherever it stands. |
| Budget.Attempt.CostReport | services/pdd-runner/server.py:783-806 | The reported cost is the sum of the readable rows and the repair receipt, absent only when both files are. |
| Budget.Attempt.RepairContract | services/pdd-runner/server.py:1211-1257 | A repair adds at most its cap to what was spent; the receipt is put on file exactly when the command succeeded with a cost between zero and the cap, and each error names what failed first. |
| Budget.Attempt.Prepare | services/pdd-runner/server.py:1373-1415 | Preparation spends at most the generation and repair shares, nothing on a retest; for every way the outside can answer, which result it has and what is on file. |
| Budget.Attempt.RunPipeline | services/pdd-runner/server.py:1360-1449 | The "exhausted" error is unreachable, total spend stays within the budget, the detector's cap is positive, at least its share and the whole budget on a retest; the result is preparation's or authentication's error, and otherwise the detector's own. |
| Browser.ValidateRuntimeConfig | services/pdd-runner/server.py:363-438 | The runner's field-by-field check accepts exactly the configurations that meet its rules. |
| Browser.ValidateApplication | services/pdd-runner/server.py:376-404 | The running application's part of it: start command, port, health check and times. |
| Browser.ValidateBrowserTool | services/pdd-runner/server.py:422-438 | The browser tool's part: automatic setup, the exact preflight, and either an image or the exact install command with outbound access. |
| Browser.ManagerNameMeaning | services/pdd-runner/server.py:424 | The package manager's name is the text before its first "@", stripped and in lower case. |
| Browser.EnabledConfigIsAccepted | src/components/execution-profile-settings.tsx:170-229 | From an accepted configuration that starts an application, enabling without an error gives one the runner accepts in full, unless the package manager's name is an inherited property and there is no image. |
| Browser.EditorIsComplete | src/components/execution-profile-settings.tsx:195-228 | The editor produces an accepted configuration exactly when there is any with the browser on, the other commands kept in order and no network access taken away. |
| Browser.EditIsAVersion | src/components/execution-profile-settings.tsx:218-228 | Enabling keeps the other commands, in order, takes no network access away, and changes nothing but what the browser tool needs. |
| Browser.DisabledConfigIsAccepted | src/components/execution-profile-settings.tsx:180-193 | Disabling never spoils an accepted configuration. |
| Browser.EnablingIsIdempotent | src/components/execution-profile-settings.tsx:210-228 | Enabling twice is enabling once. |
| Browser.EnableThenDisable | src/components/execution-profile-settings.tsx:170-229 | On and then off leaves the commands that are not browser commands, in order, the automatic install on when there are any, and outbound access on when the browser needed it. |
| Browser.RestoredIff | src/components/execution-profile-settings.tsx:180-228 | That is the configuration it started from exactly when there was no browser command and no browser, automatic install matched the commands, and the network needed was there. |
| Browser.InheritedNameSlipsThrough | src/lib/execution-profile.ts:37-47 | With an inherited name the editor reports no error and the runner refuses the result. |
| Browser.ConstructorSlipsThrough | src/lib/execution-profile.ts:37-42 | "constructor" is such a name. |
| InstallTable.SharedIsWellFormed | services/pdd-runner/server.py:145-156 | The four install commands and the launch preflight are commands the runner accepts and differ from each other where it matters. |
| InstallTable.EnabledWithSharedTable | services/pdd-runner/server.py:422-438 | With that very table, what the editor writes without an error passes the runner's whole check, with the one exception named above. |
| InstallTable.CompleteWithSharedTable | src/components/execution-profile-settings.tsx:195-228 | With that very table, the editor produces an accepted configuration exactly when there is one. |
| ProfileEditor.Editor.ChangeOutboundNetworking | src/components/execution-profile-settings.tsx:770-781 | Outbound access is refused exactly beside a runtime or test secret and otherwise set. |
| ProfileEditor.Editor.ChangeInboundNetworking | src/components/execution-profile-settings.tsx:762-768 | Inbound access is set, and taking it away takes the preview away. |
| ProfileEditor.Editor.ChangeBrowserInteraction | src/components/execution-profile-settings.tsx:783-795 | The browser tool is switched through the shared function, and an error leaves the configuration as it was. |
| ProfileEditor.Editor.ChangePreview | src/components/execution-profile-settings.tsx:1011 | The preview is switched, with inbound access only, and nothing else changes. |
| ProfileEditor.Editor.ReplaceSecretBinding | src/components/execution-profile-settings.tsx:815-827 | A row takes the selected secret's name, id and version and keeps its phase; every other row and field stays. |
| ProfileEditor.Editor.RemoveSecretBinding | src/components/execution-profile-settings.tsx:846-849 | Exactly the row of that index goes, the others keep their order. |
| ProfileEditor.Editor.ReplaceSecretExposure | src/components/execution-profile-settings.tsx:829-845 | A binding changes phase only where the phase is free and, with outbound access, only to setup. |
| ProfileEditor.Editor.AddSecretBinding | src/components/execution-profile-settings.tsx:851-872 | Appends the first option that has a free phase, setup only with outbound access. |
| ProfileEditor.NextBindingIsFirst | src/components/execution-profile-settings.tsx:851-872 | The option taken is the first with a free eligible phase, the phase its first free one in the order of the list; none is taken exactly when no option has one. |
| ProfileEditor.SessionsKeepNetworkRules | src/components/execution-profile-settings.tsx:762-872 | After any sequence of edits no name is bound twice in a phase, and the runner's network rules fail only by a preview beside a runtime secret. |
| ProfileEditor.AcceptedIffNotExposing | src/components/execution-profile-settings.tsx:829-872 | An edit leads out of the accepted network configurations exactly when it puts a runtime secret beside a preview. |
| ProfileEditor.MovingASecretExposesIt | src/components/execution-profile-settings.tsx:829-845 | Moving the setup secret of a previewed application to its runtime phase does so. |
| Approval.Driver.PrepareAgentApproval | src/components/background-prompt-tests.tsx:109-194 | Every request of a run is called for by the answers before it; a normal return is a manual "Needs revision" or has reached the autonomy boundary with the latest accepted receipt and prompt; each error names what the history shows. |
| Approval.Driver.PrepareAlignedPromptApproval | src/components/background-prompt-tests.tsx:196-276 | One acceptance request, then only polls, each after a workflow that neither failed nor reached the boundary, at most the timeout over the wait; a timeout is reported only after the deadline. |
| Approval.BoundaryIsDemanded | src/components/background-prompt-tests.tsx:224-238 | What counts as the boundary, level by level: a verification ready for approval at Recommend; a run, or an approval that is approved or pending, where execution is authorised automatically; a pending approval at any other level and where none is named. |
| Approval.StoryTestIsLatest | src/components/background-prompt-tests.tsx:252-264 | The story test returned is the one of the latest polled workflow that had a verification, and the first answer's otherwise. |
| Approval.EachRequestOnce | src/components/background-prompt-tests.tsx:109-276 | Such a run tests once, revises at most once and never for a manual check, generates at most once, and polls only after that. |
| Approval.RunEnds | src/components/background-prompt-tests.tsx:176-193 | The acceptance phase closes a run: the request carries the evaluation id of the first answer and the receipt of the latest accepted prompt. |
| Voice.SessionProtocol | src/components/issue-voice.tsx:52-203 | In every interleaving at most one session is live and it is the last one started, each ticket handed out is held, overwritten or sent for deletion, so deleted at most as often as handed out, and no session opens two transcript streams. |
| Voice.StepKeeps | src/components/issue-voice.tsx:78-90 | One step of any event keeps all of this. |
| Voice.EndedSessionsStaySettled | src/components/issue-voice.tsx:54-90 | A session that ended, by leaving the page or otherwise, is never live again and holds no ticket, unless the answer to its call creation comes later. |
| Voice.SettledRunsReturnEveryTicket | src/components/issue-voice.tsx:70-81 | When all sessions of a run are over and no ticket was overwritten, each ticket was sent for deletion exactly as often as it was handed out. |
| Voice.StaleCallbacksAreInvisible | src/components/issue-voice.tsx:142-203 | A callback of a session that is superseded or unmounted changes nothing the user sees. |
| Voice.SupersededSessionsDoNotInterfere | src/components/issue-voice.tsx:142-203 | Taking every callback of a superseded session out of a run changes neither the display at its end nor any other session. |
| VoicePanel.IssueVoice.Deliver | src/components/issue-voice.tsx:52-203 | Whatever events arrive in whatever order, the handlers take the panel through the protocol's run and keep its invariant. |
| VoicePanel.IssueVoice.ReleaseSession | src/components/issue-voice.tsx:70-80 | The ticket is taken before its deletion is sent. |
| VoicePanel.IssueVoice.End | src/components/issue-voice.tsx:83-90 | Ending aborts, releases, and shows the end only of the displayed session. |
| VoicePanel.IssueVoice.OpenCaptions | src/components/issue-voice.tsx:109-113 | A transcript opens once, and only with a ticket. |
| VoicePanel.IssueVoice.Begin | src/components/issue-voice.tsx:142-146 | A session starts only when the last one is aborted, and clears the display. |
| VoicePanel.IssueVoice.Unmount | src/components/issue-voice.tsx:52-68 | The cleanup unmounts the page, aborts the last session, stops its transcript and sends the ticket it held for deletion, just once; nothing else changes. |
| VoicePanel.IssueVoice.ReachTimeLimit | src/components/issue-voice.tsx:95-107 | The time limit aborts the last session and leaves its ticket and every other session to the end of the call. |
| VoicePanel.IssueVoice.OnCallEvent | src/components/issue-voice.tsx:180-194 | Each call hook takes the panel one step of the protocol. |
| VoicePanel.IssueVoice.OnTranscript | src/components/issue-voice.tsx:129-133 | So does a transcript line. |
| VoicePanel.IssueVoice.OnCreated | src/components/issue-voice.tsx:160-174 | So does the answer to the call creation. |
| VoicePanel.IssueVoice.OnStartFailure | src/components/issue-voice.tsx:197-202 | A failing start reports and ends only the active session. |
| VoicePanel.IssueVoice.OnDeletionFailure | src/components/issue-voice.tsx:79-80 | A failed deletion is reported only by the displayed session. |
| VoicePanel.IssueVoice.OnCaptionsFailure | src/components/issue-voice.tsx:137-139 | A failed transcript is reported only by the displayed session while it streams. |
| LineStream.TakeLines | src/components/issue-voice.tsx:126-134 | The inner loop handles the complete lines of the buffer in order up to the first that stops the reader, and leaves the tail. |
| LineStream.ReadAll | src/components/issue-voice.tsx:119-136 | The messages handled are the lines of the whole text received, the buffer its tail; the 300000-character guard stops it exactly at the first chunk that makes tail and chunk longer. |
| LineStream.ReadTwice | src/components/issue-voice.tsx:119-136 | However one text is cut into chunks under the guard, the same messages are handled and the reader ends alike. |
| LineStream.LinesAppend | src/components/issue-voice.tsx:124-128 | The lines of a text and an addition are its lines and those of its tail with the addition. |
| LineStream.LinesAreLossless | src/components/issue-voice.tsx:126-128 | Lines and tail are the text again. |
| LineStream.LinesAreLines | src/components/issue-voice.tsx:127-128 | No line and no tail holds a line feed. |
| Csv.WrittenRowsReadBack | src/components/problem-workspace.tsx:73-74 | Read by the quoting rules in section 2 of RFC 4180 with LF as the record break, the written text is the rows, whatever the fields contain. |
| Csv.ReadBackIffNoEmptyRow | src/components/problem-workspace.tsx:74 | It reads back exactly when no row is without fields. |
| Csv.ReaderRefuses | src/components/problem-workspace.tsx:73-74 | The reader is strict: it refuses a quote or a carriage return inside a bare field, anything but a separator behind a closing quote, and a quote that is never closed. |
| Csv.ExportReadsBack | src/components/problem-workspace.tsx:72-75 | The exported audit reads back as the header and one record per item. |
| Csv.DistinctAuditsGiveDistinctFiles | src/components/problem-workspace.tsx:72-75 | Distinct audit lists give distinct files. |
| FitText.FittingSize | src/components/fit-text.tsx:91-113 | If a size that fits makes every smaller one fit, the loop finds the largest size in range that fits, or the minimum; for any other measurement it still ends at a size that fits while the next does not, or at an end of the range. |
| FitText.FitFontSize | src/components/fit-text.tsx:74-132 | The single-line correction stays between the minimum and the size found. |
| FitText.OneCorrectionIsEnough | src/components/fit-text.tsx:121-131 | Where rendered width is proportional to size, one correction fits unless it stops at the minimum, and gives up less than one size. |

## Left out

- Subprocesses, file system, tar extraction, HTTP, signatures and hashing: a job body is a step that ends with a
  result or an error and is assumed to end; servers, measurements and clocks are parameters.
- The clock of `Ticks` in `Approval` assumes that a wait lasts its 2000 ms and that time does not run backwards.
- Cost accounting across the cloud-to-local fallback: the cost file is deleted there and the repair receipt is
  not, so budgets are stated per attempt in a fresh directory. Float rounding is replaced by integer
  micro-dollars, rounded half to even.
- `?` and `[...]` in patterns, Unicode digits, white space and case folding, JavaScript locale ordering: strings
  are ASCII where the source consults character classes, and `*` is the only wildcard. Four ASCII characters are
  outside the model too: U+001C to U+001F, which Python's `strip`, `split` and `\s` take as white space and
  JavaScript's do not, so that results on texts holding one of them (`TwinsAgree`, the path normal form) are not
  claimed.
- The character and count checks of `string_list` other than on command lists, its rewriting of carriage returns, and the checks on one environment
  item alone, which are parameters of `CanonicalLists`.
- `validate_execution_profile_executor`, `validate_prompt_evaluation` and the other field-by-field validators.
- Verification jobs' callbacks and archives: `execute` is a job body like the others.
- The voice panel's SDK is taken to deliver its hooks between steps, never from inside `call.end()`. Audio,
  the elapsed-time display and focus are not modelled. The byte decoder of the transcript is: chunks are text.
- Approval.Driver.PrepareAgentApproval: does not model the phase notifications and the summary texts.
- FitText.FittingSize: models a whole-number minimum size, as every use of the component has.
- `structurePddChange`, `engineeringPreparationSteps`, `estimatedProgress`, the task list and the time-left label:
  easy members only.
- React rendering, settings forms other than the handlers named above, marketing pages and route files.
- The Pipedream connect poll, which does not recheck its run counter after its fetch.
