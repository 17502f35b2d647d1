# Heimdallm: verified models

Heimdallm reviews pull requests with AI agents: a Go daemon, a Go command line and a Python
coverage gate. This project models the parts of it whose correctness is not evident from
reading one function, and proves what they promise. `dafny verify dfyconfig.toml` checks it.

| files | what they model |
|---|---|
| `FlowGraph`, `CycleFinder`, `Flows`, `FlowOrder`, `FlowWalk`, `WalkMeaning`, `FlowChoice`, `FlowDescribe` | review flows: a graph of conditions and agents, its validation, the order of its agents, the walk that picks reviewers, and the CLI's listing of it |
| `Pollers`, `PollerRestarts` | the pollers' boot, background restarts and shutdown, interleaved at every lock, wait and context check, and what a reload comes to |
| `Projection`, `Conservation`, `Acceptance`, `Projector` | the canonical view of a raw configuration: aliases folded, unknown keys dropped, custom-agent options gathered, and which configurations have one |
| `AgentSchema`, `DaemonValidator`, `CliValidator`, `Argv` | agent schemas, their two validators, and the command line built from them |
| `Lines`, `DiffParser`, `DiffMeaning`, `DiffRender`, `DiffText`, `DiffStray`, `DiffDisguise`, `Reports`, `CountedUnits`, `GoProfile`, `GoReport`, `Lcov`, `LcovMeaning`, `LcovReport`, `Ratchet`, `RatchetHistory` | the coverage gate: how it cuts text into lines, its diff parser, its two profile parsers, its counts, and its verdict over a history of commits |
| `InstanceNotes`, `Cluster` | a hub's decision to dispatch, defer or take over a repository's work, and its memory of failures and notices |
| `WatchStore`, `WatchBackoff`, `WatchSpacing` | the table of watched items, its backoff, and how far apart checks of one item are |
| `SemVer`, `SemVerOrder`, `SemVerText` | version comparison and the choice of the newest release |
| `Wrappers`, `Text`, `Numbers`, `KeyOrder`, `Ordered` | options and results, string order and sorting, 64-bit numbers, the order of flow keys, sorted keys |

Code that computes is modelled as functions, and code that updates state as methods and
classes whose contracts tie them to those functions; what the program promises is then
proved of the functions. The pollers and the scan loop, which share state with other
goroutines, are state machines whose steps may come in any order.

## What turned out otherwise

Where a promise does not hold of the code, the code is modelled as it is, and the lemma says
exactly when the promise does hold.

- The daemon orders flow keys by subtracting them. It agrees with the CLI's order exactly
  where the difference fits 64 bits (`KeyOrder.ComparisonsAgreeUnlessOverflow`).
- The CLI and the daemon walk the same steps unless a flow has an empty start and a step
  with an empty id (`FlowDescribe.WalksAgree`).
- The CLI's validator refuses some schemas the daemon accepts: those with a number default of
  a Go type the CLI does not read, which JSON cannot produce (`CliValidator.BothVerdicts`).
- Clearing a unit of work by the suffix of its notices reaches other units exactly if their
  name ends in `#` and the unit's (`InstanceNotes.ClearReaches`).
- An increase of the backoff reads the row and then writes it. A reset in between is lost
  (`WatchBackoff.RestartIsLost`); the backoff is as documented exactly where each increase
  still finds the row as it was read (`WatchBackoff.BackoffIsPromisedExactly`).
- Checks of one item are a minute apart, less the time a writer may take between reading the
  clock and writing the row, and no longer wait is kept in every run
  (`WatchSpacing.SpacingExactly`). The items this does not hold for are exactly those the
  store refused to put off and whose row nothing has written since
  (`WatchSpacing.OnlyMissedAreUnsettled`); such an item can be sent twice at once
  (`WatchSpacing.MissedIsSentAgain`).
- Version identifiers are compared as section 11 of Semantic Versioning 2.0.0 says exactly
  where the code reads numbers as numbers: not for numbers beyond 64 bits, nor for a hyphen
  followed by digits, both of which section 9 allows (`SemVerOrder.AgreesExactlyIfReadRightly`).
  There the comparison is not even one-sided: "-0" and "0", both allowed by section 9, each
  exceed the other (`SemVerOrder.SameNumbersExceedEachOther`), as do exactly the different
  identifiers that are read as one number (`SemVerOrder.ComparesOneWayExactly`).
- The diff parser cuts its text with Python's `splitlines`, which also ends a line at a form
  feed, a lone "\r", U+2028 and others that git prints as part of a line. A changed line of a
  hunk, or the section in a hunk's header, is read back right in every script exactly if it
  comes apart, if at all, only into pieces that say a newline is missing
  (`DiffStray.HarmlessExactly`); of a file's header lines it is proved only that
  some cuts do no harm (`DiffText.PrintedDiffIsReadBack`). Otherwise a diff can be refused,
  and it can be accepted with lines booked under another file
  (`DiffDisguise.AcceptedAndWrong`). The gate asks git for no lines of context, and the
  scripts these two speak of have none.
- The validator of flows lets a percentage through that is no number
  (`Flows.PercentsLetThrough`); TOML can write one.
- The coverage gate's hard floor never fails on its own (`RatchetHistory.FloorIsRedundant`).

## Model

| member | source | states |
|---|---|---|
| CycleFinder.FindCycleNode | daemon/internal/config/flows.go:354-390 | the three-colour search answers "" exactly on an acyclic graph, whatever order the ids come in; any other answer is a step on a cycle |
| CycleFinder.Finder.Visit | daemon/internal/config/flows.go:360-382 | one visit keeps the finished steps in an order where all edges lead back, or finds a step on a cycle; white steps only decrease |
| Flows.SortedNodeIDs | daemon/internal/config/flows.go:58-68 | the ids of the flow, each once, in string order |
| Flows.Reachable | daemon/internal/config/flows.go:392-407 | the stack loop ends and yields exactly the steps some path from the start leads to |
| Flows.CheckFlow | daemon/internal/config/flows.go:250-344 | no error is reported exactly for a valid flow, one of whose conditions is that its graph is acyclic; the errors name each step that is not valid, and no other but one on a cycle; warnings are exactly the unreachable steps, in order |
| Flows.PercentsLetThrough | daemon/internal/config/flows.go:419-421 | a percentage passes exactly if it lies between 0 and 100 or is no number |
| Flows.ClockTimesExactly | daemon/internal/config/flows.go:122-122 | a time is accepted exactly if it is an hour below 24 and a minute below 60, in two digits each |
| FlowOrder.OrderIsTopological | daemon/internal/config/flows_order.go:8-47 | the popped steps are distinct and reachable, each after all its reachable predecessors, and they are all the reachable ones exactly if none lies on a cycle |
| FlowOrder.AgentsOfIsDistinctCover | daemon/internal/config/flows_order.go:38-46 | the agents read off an order are distinct, and exactly those of its agent steps |
| FlowOrder.TopoAgentOrder | daemon/internal/config/flows_order.go:8-47 | Kahn's loop, with edges counted as often as they are named and ready steps in string order, yields the agents of that one order, in whatever order maps are read |
| FlowOrder.InDegrees | daemon/internal/config/flows_order.go:10-18 | the in-degree of a reachable step is the number of times reachable steps name it |
| FlowWalk.Evaluate | daemon/internal/flows/flows.go:52-97 | the walk yields the specified path, and as candidates exactly the agents that path adds, in order |
| WalkMeaning.WalkExactly | daemon/internal/flows/flows.go:52-97 | a path is the walk exactly if it begins at the start, each step is what the flow has under its id, a condition that holds leads to its yes and another to its no, an agent leads to its next, and it ends where nothing follows |
| WalkMeaning.CandidatesExactly | daemon/internal/flows/flows.go:52-97 | the candidates are the agents of exactly the steps that add one, in the order of the steps |
| FlowWalk.ValidFlowsAreWalkable | daemon/internal/config/flows.go:250-344 | validation guarantees all the walk relies on |
| FlowWalk.EveryWalkEnds | daemon/internal/flows/flows.go:52-97 | whatever the conditions answer, the walk of an accepted flow stays in it, visits no step twice, is never stopped early and ends within its number of steps |
| FlowWalk.EveryPickIsListed | daemon/internal/config/flows_order.go:8-47 | every agent the walk picks is available, picked once, and among those Kahn's order lists |
| FlowWalk.EveryListedAgentCanBePicked | daemon/internal/config/flows_order.go:8-47 | conversely some answers to the conditions make the walk pick any listed agent |
| FlowChoice.ResolvedFlowIsWalkable | daemon/internal/config/flows.go:162-208 | the flow a repository resolves to, by repository, organisation or default, or built from primary and fallback, can be walked |
| FlowChoice.MostSpecificFlowWins | daemon/internal/config/flows.go:162-174 | a repository's own choice wins over that of its organisation, which is what comes before the first slash, and that over the general one |
| FlowChoice.WithoutOrganisation | daemon/internal/config/flows.go:162-174 | a name without a slash has no organisation to choose for it |
| FlowChoice.ResolvedFlowDecides | daemon/internal/config/flows.go:176-207 | a chosen flow that exists and has a start is used; otherwise every walk picks the primary agent if it is available, and then the fallback if it is another and available |
| FlowChoice.AgentExecOptions | daemon/cmd/heimdallm/main.go:855-860 | the options prepared for a review have an entry for every agent any walk of the resolved flow can pick, and for no other where it has a start |
| FlowDescribe.Walker.Walk | cli/internal/api/flows.go:223-245 | the recursive walk appends the unseen steps in preorder |
| FlowDescribe.PreorderIsWalkedSet | cli/internal/api/flows.go:223-245 | the CLI's walk lists each step at most once, and exactly those reachable from a non-empty start |
| FlowDescribe.WalksAgree | cli/internal/api/flows.go:223-257 | it is the daemon's reachable set exactly unless the start is empty and a step has an empty id |
| FlowDescribe.Describe | cli/internal/api/flows.go:223-257 | each step is listed exactly once, as walked, in the order walked, or as unreachable, in key order; between the two comes a note exactly if the start names no step |
| KeyOrder.KeyLessIsStrictTotalOrder | cli/internal/api/flows.go:206-219 | the CLI's key order is a strict total order |
| KeyOrder.NumbersComeByValue | cli/internal/api/flows.go:206-219 | printed numbers are ordered by value and come before all that is no number |
| KeyOrder.OthersComeAsText | cli/internal/api/flows.go:206-219 | of two keys that are no numbers the one that is shorter or lesser where they first differ comes first |
| KeyOrder.ComparisonsAgreeUnlessOverflow | daemon/internal/config/flows.go:148-159 | the daemon puts two keys in the CLI's order exactly if the difference of their numbers does not overflow |
| KeyOrder.OverflowSwapsKeys | daemon/internal/config/flows.go:148-159 | two keys whose difference overflows come out the wrong way round |
| Pollers.StepKeepsInv | daemon/cmd/heimdallm/main.go:2316-2351 | every step of boot, a restart or shutdown keeps the account of who holds which lock, what each goroutine has read, and that every live set is published or in the hands of the lock's holder |
| Pollers.AtMostOneSetIsLive | daemon/cmd/heimdallm/main.go:2305-2354 | in every reachable state at most one poller set has goroutines running |
| Pollers.NothingLivesAfterShutdown | daemon/cmd/heimdallm/main.go:1957-1973 | once the shutdown defer has finished no set is live, and none is ever again, whatever restarts follow |
| Pollers.InternalStepsDescend | daemon/cmd/heimdallm/main.go:2316-2351 | every step but a reload or a cancel from outside brings the system nearer to rest |
| Pollers.ShutdownIsNeverStuck | daemon/cmd/heimdallm/main.go:1957-1973 | while shutdown is under way some step can always be taken, so it cannot deadlock with a restart |
| Pollers.ShutdownCompletes | daemon/cmd/heimdallm/main.go:1957-1973 | a run without further reloads is bounded, and where it can go no further shutdown has finished |
| PollerRestarts.BootPublishes | daemon/cmd/heimdallm/main.go:1947-1951 | a boot whose start succeeds leaves the daemon running with its first set published and live |
| PollerRestarts.RestartPublishesNewSet | daemon/cmd/heimdallm/main.go:2316-2351 | while the daemon runs on, a restart that is done and whose start did not fail has the published pair name a set started since, which is live unless a later restart has cancelled it |
| PollerRestarts.RestartPublishesUnlessStopped | daemon/cmd/heimdallm/main.go:2316-2351 | in any run, a restart that ends without publishing had a failed start or a cancelled runtime |
| PollerRestarts.RestartsFinish | daemon/cmd/heimdallm/main.go:2316-2351 | while main runs, restarts take a bounded number of steps, and where they can go no further all of them are done |
| PollerRestarts.ReloadIsServed | daemon/cmd/heimdallm/main.go:2305-2351 | from a reload to where all restarts rest: both halves of the published pair name one set started since, live unless a restart has cancelled it |
| PollerRestarts.StopReadsPublished | daemon/cmd/heimdallm/main.go:2636-2642 | the stop of the producers reads a pair that is whole, and so the published set |
| PollerRestarts.StopReachesPublished | daemon/cmd/heimdallm/main.go:2636-2642 | and cancels that set, whatever restarts do meanwhile |
| Projection.ProjectionIsIdempotent | daemon/internal/config/canonical_map.go:47-168 | projecting a projected configuration returns it unchanged, for every accepted schema |
| Projection.ProjectionConforms | daemon/internal/config/canonical_map.go:115-168 | at any depth, every key of a table projected as a struct is the canonical name of a field |
| Conservation.ProjectionConserves | daemon/internal/config/canonical_map.go:47-168 | at any depth a plain value comes out as it went in, a table of user keys with the same keys, and a struct's table with exactly the fields some key stands for, each with the conserved value of its canonical key or else its only alias, the permission switch and a custom agent's options as stated below |
| Acceptance.AcceptedExactly | daemon/internal/config/canonical_map.go:47-229 | a value is projected exactly if its arrays are of one type, every field has one key that speaks for it, a field that holds a table has no second one, the permission switch is boolean under each key, and a custom agent's options are plain, in a table, and not given twice |
| Projection.KeyOrigin | daemon/internal/config/canonical_map.go:193-212 | each output value is that of the canonical key if present, else of the only alias |
| Projection.CustomAgentConserves | daemon/internal/config/custom_agents.go:129-164 | a custom agent's options are exactly its scalar non-shared keys and its options table, which do not overlap; nothing is lost, altered or made up |
| Projection.SkipPermsFailsClosed | daemon/internal/config/canonical_map.go:214-229 | the permission switch is set if any alias is present, and true only if all are |
| Projection.DeclaredSkipPerms | daemon/internal/config/config.go:204-204 | the declared agent struct has the switch that law is about |
| Projection.AcceptsWithFewer | daemon/internal/config/canonical_map.go:334-408 | a schema accepted while some types are being visited is accepted while fewer are |
| Projection.DeclaredAgentFields | daemon/internal/config/custom_agents.go:27-56 | the declared fields and shared keys of an agent have the shape these laws ask for |
| Acceptance.DeclaredAgentIsAccepted | daemon/internal/config/config.go:193-223 | the declared agent settings are an accepted type, if the declared names are no case variants of each other |
| Projector.WalkValue | daemon/internal/config/canonical_map.go:47-103 | the walker yields the projection, or an error where there is none |
| Projector.WalkStructFields | daemon/internal/config/canonical_map.go:115-168 | the loop over fields agrees with the projection of fields |
| Projector.WalkCustomAgent | daemon/internal/config/custom_agents.go:129-164 | the loops that split a custom agent's table agree with its projection |
| Projector.SelectCanonicalMapKey | daemon/internal/config/canonical_map.go:193-212 | the canonical key if present, else the only alias, else an error |
| Projector.ResolveFailClosedBool | daemon/internal/config/canonical_map.go:214-229 | an error exactly if some alias is no boolean, else whether all are true |
| Projector.ValidateHomogeneousArrays | daemon/internal/config/canonical_map.go:243-292 | accepted exactly if every array at any depth has elements of one type |
| Projector.SchemaCheck.ValidateSchema | daemon/internal/config/canonical_map.go:334-408 | the traversal, which enters each type in its map and takes it out again, accepts exactly the acceptable schemas and leaves the map as it was |
| AgentSchema.NormalizeIsIdempotent | daemon/internal/agentschema/values.go:14-65 | a value in canonical form is its own canonical form |
| AgentSchema.CanonicalFormIsSame | daemon/internal/agentschema/values.go:14-65 | the canonical form of a switch or a text is that value, but for all the white space around the text |
| AgentSchema.NumbersFitExactly | daemon/internal/agentschema/values.go:23-44 | a number is taken, as it is, exactly if it is finite, not negative and within the bounds there are |
| DaemonValidator.ValidateCustom | daemon/internal/agentschema/schema.go:201-262 | the fail-fast validator succeeds exactly on the valid custom schemas |
| DaemonValidator.ValidateField | daemon/internal/agentschema/schema.go:264-358 | one field is accepted exactly if it is valid |
| CliValidator.ValidateCustom | cli/internal/api/agent_schemas.go:250-306 | the collecting validator finds no problem exactly in a valid schema whose number defaults it can read |
| CliValidator.BothVerdicts | cli/internal/api/agent_schemas.go:250-428 | both validators give the same verdict exactly unless a valid schema has a number default of a type the CLI does not read, so always for the types JSON gives; what the CLI passes the daemon always does |
| Argv.ValidateValues | daemon/internal/agentschema/values.go:130-141 | succeeds exactly if every value fits its field, and returns each in canonical form |
| Argv.BuildArgs | daemon/internal/agentschema/values.go:161-192 | the loop over fields yields the arguments the following rows are about |
| Argv.ArgsAreDecodable | daemon/internal/agentschema/values.go:144-192 | for a valid schema and values that fit, building never fails, and scanning the arguments recovers every value that is set |
| Argv.OperatorsValueWins | daemon/internal/agentschema/values.go:144-192 | reading the arguments back gives each field the canonical form of the operator's value if there is one and else of its default, or nothing where that is "", 0 or off without a flag for it, and no other key |
| Argv.NotSetExactly | daemon/internal/agentschema/values.go:144-192 | a value counts as not set exactly if there is none, or it is "", 0, or off without a flag to turn it off |
| Argv.DecimalPrints | daemon/internal/agentschema/values.go:161-192 | decimal printing is one of the number printings these laws allow |
| Argv.ArgsDetermineValues | daemon/internal/agentschema/values.go:144-192 | two sets of values give the same arguments exactly if they set the same |
| Argv.DashesAreFlags | daemon/internal/agentschema/schema.go:468-480 | an argument begins with a dash exactly if it is one of the schema's flags, so no value passes for an option |
| Lines.CutLosesOnlyBreaks | scripts/coverage_gate.py:505-505 | no line the text is cut into has a line end in it, and together they are the text without its line ends |
| DiffParser.ParseUnifiedDiff | scripts/coverage_gate.py:491-558 | the text is cut where Python ends lines, and the line loop folds the specified step and reports the first error |
| DiffMeaning.AcceptedDiffIsExact | scripts/coverage_gate.py:491-558 | the changed lines are exactly the new-file numbers of the added lines, told from the cut text alone, each within its hunk's declared range and under a file; the files are exactly those named |
| DiffMeaning.NoAddedLineIsLost | scripts/coverage_gate.py:542-548 | every added line of an accepted diff counts for some file |
| DiffRender.PrintedLinesAreReadBack | scripts/coverage_gate.py:491-558 | the lines of an edit script read back as its own added lines, and are refused exactly if an added line begins "++ " |
| DiffText.PrintedDiffIsReadBack | scripts/coverage_gate.py:491-558 | the same of the script printed as text, so long as what Python cuts apart in it comes apart harmlessly |
| DiffStray.HarmlessExactly | scripts/coverage_gate.py:491-558 | a changed line, or a hunk's section, is read back right in every script without context lines in which all else stays whole exactly if it comes apart, if at all, only into pieces that say a newline is missing |
| DiffStray.UnsafeTextIsRefused | scripts/coverage_gate.py:505-558 | any other line or section makes a script without context lines be refused, whatever the file's header lines and wherever the hunk lies |
| DiffDisguise.AcceptedAndWrong | scripts/coverage_gate.py:505-558 | for any two file names, header lines and places of the two hunks, a form feed in an added line makes a script be accepted with its next added line booked under the other file |
| Reports.ParseLineRanges | scripts/coverage_gate.py:164-188 | accepted exactly if the items are lines and ranges counted from one, no two of which share a line; the result is in order and has the same lines |
| Reports.FilteredCounts | scripts/coverage_gate.py:729-741 | the loops yield the counts the next row is about, or an error if there is nothing to count |
| CountedUnits.FilteredExactly | scripts/coverage_gate.py:729-741 | the total is the weight of exactly the units whose first line no rule exempts, each once, and the covered count that of those of them that ran: all is covered exactly if each with any weight ran, and nothing exactly if none did |
| Reports.DiffCounts | scripts/coverage_gate.py:744-764 | the loops yield the counts the next row is about |
| CountedUnits.DiffExactly | scripts/coverage_gate.py:744-764 | the same of the units among them in which some changed line lies that no rule exempts |
| Reports.DiffIsPartOfTotal | scripts/coverage_gate.py:744-764 | a diff never counts more than the report |
| GoProfile.ParseGoProfile | scripts/coverage_gate.py:310-368 | the loop, the sort and the report loop yield the specified result |
| GoProfile.AcceptedProfiles | scripts/coverage_gate.py:310-368 | accepted exactly if each line is sound, the header leads, repeats agree on their statements and some block is of a source of the module |
| GoProfile.AcceptedReport | scripts/coverage_gate.py:348-368 | the report has each block once, with its weight, covered exactly if some line says it ran |
| GoReport.ReportedExactly | scripts/coverage_gate.py:348-368 | told from the lines: the report has the sources some line gives a block of, and of each exactly its blocks in order of position, with their lines, the statements every line gives, and covered exactly if some line says it ran |
| GoProfile.SameLinesSameReport | scripts/coverage_gate.py:310-368 | the same lines in another order, or repeated, give the same verdict and report |
| Lcov.ParseLcov | scripts/coverage_gate.py:389-471 | the loops yield the specified result |
| Lcov.JoinRecord | scripts/coverage_gate.py:399-412 | a finished record is merged by a line-wise or |
| LcovMeaning.AcceptedReportMeans | scripts/coverage_gate.py:389-471 | an accepted report counts exactly the lines some record of a source tells of, once each, covered exactly if some record says so |
| LcovReport.AcceptedReports | scripts/coverage_gate.py:389-471 | accepted exactly if every line may stand where it does and is in order, no record is left open, there is one, and some line tells of a source of the module |
| LcovReport.ReportedExactly | scripts/coverage_gate.py:389-471 | told from the lines: the report has the sources that have a record, and of each exactly the lines told, ascending, each of weight one and covered exactly if some record says it ran |
| LcovMeaning.SameRecordsSameReport | scripts/coverage_gate.py:389-471 | the same records in another order, or repeated, give the same verdict and report |
| LcovMeaning.CutIsClosed | scripts/coverage_gate.py:389-471 | every accepted report is a list of such records |
| Ratchet.EvaluateGate | scripts/coverage_gate.py:767-873 | an error exactly if a module has nothing to count, else exactly the failures whose conditions hold |
| Ratchet.RequiredExactly | scripts/coverage_gate.py:816-836 | a source has to be named exactly if no coverage rule exempts it whole and it is changed or, for Flutter, no universe rule is for it |
| Ratchet.ExtraExactly | scripts/coverage_gate.py:811-814 | and is named too much exactly if it is no source of the module |
| Ratchet.UnsafeExactly | scripts/coverage_gate.py:780-797 | a rule is safe exactly if the base has it as it stands, or it is a universe rule for a source that exists whose place is free in the base |
| RatchetHistory.HistoryOnlyRises | scripts/coverage_gate.py:767-873 | over any chain of passing commits the targets and the share of each module that is covered never fall, no diff falls short of an earlier target, and no coverage rule is added or altered |
| RatchetHistory.NewRulesAreApproved | scripts/coverage_gate.py:780-801 | a rule a later baseline has and an earlier lacks is an approved universe rule whose source existed when it came in |
| RatchetHistory.ExemptionsOnlyShrink | scripts/coverage_gate.py:729-741 | whatever counts under an earlier baseline counts under a later one, on any report |
| RatchetHistory.FloorIsRedundant | scripts/coverage_gate.py:864-868 | the hard floor fails only where the counts already differ from the declared ones |
| InstanceNotes.Notes.ClaimNotice | daemon/cmd/heimdallm/cluster.go:133-149 | true exactly for the first claim since the notice was last released |
| InstanceNotes.Notes.RecordFailure | daemon/cmd/heimdallm/cluster.go:153-166 | returns one more than the failures recorded since the unit's last success, or its instance's recovery or removal |
| InstanceNotes.Notes.ClearUnit | daemon/cmd/heimdallm/cluster.go:182-204 | the notes go on saying exactly what the history says, now that the unit succeeded |
| InstanceNotes.Notes.ForgetInstance | daemon/cmd/heimdallm/cluster.go:208-213 | the same after a recovery |
| InstanceNotes.Notes.RetainRegistered | daemon/cmd/heimdallm/cluster.go:218-231 | the same after a reload |
| InstanceNotes.FailuresOneMore | daemon/cmd/heimdallm/cluster.go:151-231 | how one call changes the number of failures that stand |
| InstanceNotes.OneNoticeBetweenReleases | daemon/cmd/heimdallm/cluster.go:133-149 | of two first claims of one notice the second follows a release |
| InstanceNotes.ReleasedNoticeIsNew | daemon/cmd/heimdallm/cluster.go:133-149 | after a release the next claim of the notice is a first one again |
| InstanceNotes.ClearReaches | daemon/cmd/heimdallm/cluster.go:182-204 | clearing a unit releases another's notices exactly if that one's name ends in "#" and the unit's |
| InstanceNotes.ClearIsExact | daemon/cmd/heimdallm/cluster.go:274-280 | among units without a "#" it releases the unit's own notices alone |
| InstanceNotes.ClearCanReachAnother | daemon/cmd/heimdallm/cluster.go:182-204 | with one in a repository's name it can release another's |
| Cluster.Control.OwnerVerdictFor | daemon/cmd/heimdallm/cluster.go:463-516 | the verdict is the one whose meaning fits the route, the registry and the prober |
| Cluster.VerdictIsUnique | daemon/cmd/heimdallm/cluster.go:463-516 | in every case exactly one meaning fits |
| Cluster.Control.VerdictAfterFailedDispatch | daemon/cmd/heimdallm/cluster.go:586-597 | without a prober, or with an owner given up on, the work is taken over; else a failure is counted, and the threshold-th in a row takes over |
| Cluster.Control.Dispatch | daemon/cmd/heimdallm/cluster.go:535-597 | whether the work is left to another instance, which calls go to the notes, and that exactly the new notices are given |
| Cluster.Control.Update | daemon/cmd/heimdallm/cluster.go:389-427 | a reload swaps registry and threshold, keeps a prober there is, and forgets instances that are gone |
| Cluster.FirstRejectionsDefer | daemon/cmd/heimdallm/cluster.go:586-597 | of the rejections counted since the last release, whatever happens in between, exactly the first threshold - 1 are deferred and every later one is taken over |
| Cluster.UnitsDiffer | daemon/cmd/heimdallm/cluster.go:270-274 | units of work are the same only for the same operation and repository |
| Cluster.SubjectsDiffer | daemon/cmd/heimdallm/cluster.go:258-280 | no two notices are taken for one: a subject names the notice, for a take-over its reason, and the unit |
| WatchStore.Store.Enroll | daemon/internal/bus/watch.go:75-95 | the row starts over at the initial backoff, or is added |
| WatchStore.Store.EnrollIfAbsent | daemon/internal/bus/watch.go:99-114 | a row that is there is left alone |
| WatchStore.Store.ResetBackoff | daemon/internal/bus/watch.go:137-155 | the row's backoff and next check start over, and its last change is noted |
| WatchStore.Store.IncreaseBackoff | daemon/internal/bus/watch.go:158-176 | the backoff doubles up to its cap, or nothing changes |
| WatchStore.Store.Defer | daemon/internal/bus/watch.go:181-187 | only the next check moves |
| WatchStore.Store.Delete | daemon/internal/bus/watch.go:196-199 | the one row goes, if there is one |
| WatchStore.Store.ScanReady | daemon/internal/bus/watch.go:224-247 | exactly the rows that are due, each once |
| WatchStore.Store.EvictStale | daemon/internal/bus/watch.go:254-270 | exactly the stale rows are dropped and counted |
| WatchStore.EvictedExactly | daemon/internal/bus/watch.go:254-270 | without a table of pull requests exactly the rows that changed in the last hour stay; with one those of no pull request, and those not recorded closed that changed in the last hour or are recorded open; what stays is unaltered |
| WatchStore.OpenIsNotDroppedForAge | daemon/internal/bus/watch.go:18-21 | a row whose pull request is recorded open, and never otherwise, is not dropped |
| WatchStore.KeysAreDistinct | daemon/internal/bus/watch.go:55-56 | items of another kind or number have another key |
| WatchBackoff.CallsAreEvents | daemon/internal/bus/watch.go:137-187 | what resetting, reading, writing back and putting off do to a row's backoff are the events of the backoff's runs |
| WatchBackoff.EnrollingIsARestart | daemon/internal/bus/watch.go:75-114 | enrolling starts the backoff over, and enrolling if absent leaves it |
| WatchBackoff.BackoffAfterRun | daemon/internal/bus/watch.go:158-176 | k undisturbed increases after a restart make the backoff min(15, 2^k) minutes |
| WatchBackoff.BackoffIsPromisedExactly | daemon/internal/bus/watch.go:158-176 | it is so all along exactly if each increase doubles what the row holds when it is written, or both are beyond the cap |
| WatchBackoff.BackoffIsBounded | daemon/internal/bus/watch.go:137-176 | disturbed or not, it stays between one minute and fifteen |
| WatchBackoff.RestartIsLost | daemon/internal/bus/watch.go:158-176 | a reset between the read and the write of an increase is lost |
| WatchSpacing.CallsWrite | daemon/internal/bus/watch.go:75-176 | each call of the store that writes a row leaves it due its backoff, and so at least the initial one, after it read the clock, and touches no other |
| WatchSpacing.OtherCallsChangeNothing | daemon/internal/bus/watch.go:99-176 | made where there is nothing for it to write, such a call changes nothing |
| WatchSpacing.StepKeeps | daemon/cmd/heimdallm/main.go:1823-1850 | every step of the loop, and every call of the store by a worker or the eviction, keeps the account of who waits until when |
| WatchSpacing.SpacedApart | daemon/cmd/heimdallm/main.go:1823-1850 | over every run, an item that was put off or written since it was sent is sent again no sooner than the initial backoff, less a writer's lag |
| WatchSpacing.BoundIsReached | daemon/internal/bus/watch.go:158-187 | a run in which a write that lags brings the next sending forward by as much |
| WatchSpacing.SpacingExactly | daemon/cmd/heimdallm/main.go:1823-1850 | every run keeps such items d apart exactly if d is at most the initial backoff less the lag, or at most zero if the lag is longer |
| WatchSpacing.OnlyMissedAreUnsettled | daemon/cmd/heimdallm/main.go:1838-1849 | of the items sent before, the others are exactly those the store refused to put off and nothing has written since |
| WatchSpacing.MissedIsSentAgain | daemon/cmd/heimdallm/main.go:1838-1849 | a run in which one refusal sends an item out twice at once |
| SemVer.ComparePreLoop | cli/internal/update/semver.go:62-100 | the loop decides by the first identifiers that differ, then by length |
| SemVer.Compare | cli/internal/update/semver.go:42-60 | fails exactly if a version does not parse; else says which is older, told from the first number that differs, then by a pre-release against none, then by where the identifiers first part, as the code orders those |
| SemVerOrder.AgreesExactlyIfReadRightly | cli/internal/update/semver.go:71-92 | an identifier obeying section 9 takes its place of section 11 among those read rightly exactly if it is read rightly itself |
| SemVerOrder.ReadRightlyMeans | cli/internal/update/semver.go:75-76 | it is exactly unless it is a number beyond 64 bits or a hyphen and a number |
| SemVerOrder.CompareIsPrecedence | cli/internal/update/semver.go:42-100 | on such versions the comparison is section 11's precedence, written out on its own |
| SemVerOrder.PrecedenceIsTotal | cli/internal/update/semver.go:42-100 | precedence is antisymmetric and total, and ties mean equal numbers and identifiers |
| SemVerOrder.PrecedenceIsTransitive | cli/internal/update/semver.go:42-100 | precedence is transitive |
| SemVerOrder.ComparesOneWayExactly | cli/internal/update/semver.go:71-92 | of two different identifiers exactly one exceeds the other unless both are read as the same number; then each does |
| SemVerOrder.SameNumbersExceedEachOther | cli/internal/update/semver.go:78-82 | "-0" and "0", which section 9 allows, each exceed the other, as "01" and "1" do outside it |
| SemVerOrder.Latest | cli/internal/update/update.go:178-198 | none exactly if no release is eligible; else an eligible one and, where versions are read rightly, the first that every eligible one is older than or the same as |
| SemVerText.PrintedReadsBack | cli/internal/update/semver.go:14-38 | a version written with or without "v" and build reads back, the build ignored |
| SemVerText.ParsedExactly | cli/internal/update/semver.go:14-38 | a text is read as a version exactly if it says it: three numbers that fit and are not negative, perhaps dotted identifiers, perhaps a build, perhaps a "v" before it all |

## Left out

- Flows: canvas positions; day names, time zones and the agent registry are parameters.
- Flows.CheckFlow: the texts and the field names of issues, and the order of those about one step, carry no promise.
- Walks: how a schedule or quota condition is decided; a condition's answer is a parameter of the moment.
- Pollers: what the goroutines of a set do; a set is live while any of them is. The many places, startPollers among them, that take cfgMu only to copy a setting and release it at once: they hold nothing else and change nothing the model has.
- Projection: reflection is a datatype of types; case folding is a function under which aliases agree; warnings and error texts; an error is an error whichever comes first.
- Agent schemas: the interpreter denylist, reserved names, lower-casing and number formatting are parameters; regular expressions are written out on characters; floats are multiples of the least one, infinite, or no number.
- Coverage: JSON, git and files; stripping, the block pattern, number reading and path normalisation are parameters of the profile parsers, and path decoding of the diff parser; a text without a line but blank ones is recognised line by line; untracked files; digits other than ASCII; the line number and wording of an error.
- Baselines: reading one is assumed to have enforced the ranges, counts, distinct keys and approved paths it checks; only its line ranges are modelled as code.
- Ratios are exact, as the original's fractions are; the printed percentages are not modelled.
- Cluster: routing, probing and discovery; what the router and the prober answer, and whether a call succeeds, are parameters of each dispatch. A daemon without a router does everything itself and is not modelled.
- Cluster.Control.Dispatch: one dispatch is modelled as uninterrupted; the laws about the notes are over calls in any order, so they also hold when dispatches interleave.
- Watch: SQL is a map of rows and a flag that tells whether the store answers; instants are whole numbers, and are assumed to compare as the stored texts do; github ids are not negative.
- Versions: trimming is a parameter; the stable channel, downloads and installation.
- Sorting is insertion sort; the original calls its library's.
- The workers, the review pipeline, discovery, the user interfaces, and everything that is storage, network or subprocess.
