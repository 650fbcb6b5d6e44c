# Outhaul: a verified model of the deploy engine

Outhaul is a self-hosted deployment server: a SQLite table of deployments is its job queue, a worker turns queued
rows into running containers, webhooks enqueue release tags, and managers look after databases, images, logs and
pull-request previews. This project models the parts of it where the difficulty lies and proves what they promise,
in Dafny 4.11. `dafny verify dfyconfig.toml` checks all of it.

Where the Go code updates a row, a field or a container step by step, the model is a class whose methods do the
same and state the new state; the functions those contracts use are what the lemmas are about. Code that computes on
values is functions and lemmas. Lemmas called `...Exactly` say what a function means without using it: in characters,
in rows of a table, or in conditions on its input. A Go string is a sequence of bytes (`Bytes.Str`). Outcomes of I/O
are chosen freely: by an event of the transition system, or by a plan, an input that says of each call how it ends.

## The parts

- **Deployment queue** (`Status`, `Deployments`, `Queue`, `QueueInvariant`, `QueueTheorems`, `QueueTags`,
  `QueueOvertake`, `QueueClick`, `QueueImage`). The statements of the deployments table, and a transition system of one
  dispatcher (slot, pick, claim, launch as separate steps), up to four pipelines, operators who cancel at any moment,
  webhooks that enqueue, and a process that may crash between any two steps. One inductive invariant carries the
  safety argument: a cancelled row frees its app while its pipeline is still building, so only the guarded write from
  building to deploying protects the containers. What goes live, tag and image, is traced back over whole runs.
- **Tag policy** (`SemVer`, `Glob`, `TagPolicy`). Version parsing against its grammar, SemVer precedence on digit
  strings of any length, the backtracking glob matcher against a declarative meaning, and the deploy decision.
  `QueueTags` and `QueueClick` compose the decision with the queue over whole runs.
- **Container replacement** (`Docker`, `Provision`, `Cutover`). The database replace-with-rollback protocol and both
  app cutovers, with every Docker call free to fail, to take effect and report failure, or to be the last one the
  process makes.
- **State derived from the rows** (`Prune`, `LogStream`). Image retention, log history and live delivery.
- **Previews** (`PreviewTables`, `PreviewPlans`, `PreviewBuild`, `Preview`). The tables a preview lives in; what a
  teardown, a rollback and a sweep leave for every plan of failing calls; when a build works and what it makes; and
  the manager's methods, proved against both.
- **Two small languages** (`SigV4`, `Cron`). Canonical query strings and cron bit masks.
- `Bytes` and `Seqs` hold byte strings and sequence facts shared by the rest.

## Assumptions

- A row's id stands for its creation time. The code orders by `created_at`, an RFC3339Nano text whose trailing zeros
  are trimmed (`internal/store/store.go:54`), so its text order is chronological only under this reading.
- Store writes of the queue succeed; reads, clones, builds, Docker calls and health checks may fail. App settings do
  not change during a run.
- The running write and SupersedeOthers (`internal/deploy/pipeline.go:158-166`) are two steps, and a crash may fall
  between them. A run is timely if every supersede write finds its own row live, and prompt if no other pipeline of
  the app goes live between the two writes; prompt runs are timely (`PromptIsTimely`). What needs timeliness is proved
  to need exactly that (`LiveIsLastExactly`, `UpgradeExactly`).
- Container names are unique and a failed start has not started the container, as in `internal/docker/fake.go`. One
  provision of a database runs at a time; no other database is called `<name>-new` (its canonical container name
  would be this one's temporary name, see `Provision.NamesExactly`, and `internal/dbaas/manager.go:128` does not
  check); an app's volumes are fixed during a deploy, and the temporary name of a deploy is free when it starts.
- PruneApp is one step relative to CreateRollback, and its database writes succeed.
- In the preview model a call that fails changes nothing; what a failed ProvisionSync leaves of container and data is
  an input of its own. Containers and data directories of databases are identified by the row, as names are unique.
- Preview events and sweeps share one goroutine (`internal/previewmgr/sweeper.go:17-34`), preview configurations are
  fixed, and apps are never renamed.

## What the proofs brought out

- The package comment (`internal/deploy/worker.go:2-3`) says that deploys of one app serialize. The rows do; the
  pipelines do not, since a cancelled build and its successor overlap until the gate: `PipelinesOverlap` is such a run.
  `OverlapHasOneActive` and `ReachableIsSafe` state what holds, and `ClaimableExactly` when a second pipeline can start:
  exactly when the rows of the app's pipelines are settled.
- LiveDeployment is not always the last deployment that went live: `LateRetireLosesLive` is a run of two deployments
  after which the app has no running row. It is so in every state of a run if and only if every supersede write finds
  its own row live (`LiveIsLastExactly`).
- A release tag can go live over a higher one: in `LowerTagGoesLive` a late supersede write brings the higher tag back
  after the lower one was checked. A checked tag stays above the live one if and only if no such write by a row that
  overtakes it is the last to oust a live row (`UpgradeExactly`), so never in a timely run (`GoingLiveIsUpgrade`).
- A pattern that is literal segments followed only by `**` matches a tag without the prefix `Policy.Version` strips
  (`api/**` matches `api`): `MatchImpliesPrefix` gives the exact class of such patterns.
- ValidGlob rejects only patterns that match nothing, but not all of them: `[]` passes (`EmptyClassMatchesNothing`). A
  pattern matches some path if and only if it passes and every class in it holds a byte other than a slash
  (`MatchesSomething`).
- A cron step close to the largest int wraps around in the loop of parseField, and the mask then has extra values:
  `HugeStepMarksMore` is such an expression, and `StepsExactly` says for exactly which steps an item is right.
- 7 becomes 0 before a range of week days is read: a range up to 7 is accepted only from 0 or 7 and is Sunday alone, so
  `0-7` is not the whole week and `5-7` is refused (`SevenCollapsesRange`); a range from 7 starts at Sunday
  (`SevenStartsAtSunday`).
- destroyChild does not notice a failed listing of the attachments: the preview goes, and its databases stay behind,
  attached to nothing (`LeakingTeardown`, and `FailedListingLeaks` for all inputs). `TeardownExactly` says when a
  completed teardown removes exactly the preview's databases.
- An app with one database attached under two variables never gets a preview, because both copies would bear one name
  (`SharedDatabaseNeverSpawns`); `NoFaultSpawn` says when a spawn without a fault succeeds.
- A failed lookup in spawn falls through to a second creation; only the unique app name then keeps a pull request at
  one preview (`FailedLookupSpawnsNone`).

## Model

| member | source | states |
|---|---|---|
| Status.ClassesAgreeWithMatrix | internal/core/statemachine.go:22-66 | terminal, active and cancellable statuses are what the transition matrix makes them |
| Status.EdgesExactly | internal/core/statemachine.go:22-35 | the legal transitions are these eight and no other |
| Status.EdgesMoveForward | internal/core/statemachine.go:22-35 | every edge of the matrix raises a rank below five, so no status sequence cycles |
| Deployments.LiveUnique | internal/store/deployments.go:118-130 | the newest running row of an app is unique, so any answer to the query is the answer |
| Deployments.Live | internal/store/deployments.go:118-130 | the computed live row is the newest running one, or none if no row runs |
| Deployments.WritesFollowEdges | internal/store/deployments.go:236-289 | claim, supersede and recovery, written as raw SQL, and the guarded write all move rows along matrix edges only |
| Deployments.RowsExactly | internal/store/deployments.go:14-115 | what the three enqueueing statements insert, field by field; a rollback inherits the tag, only a tag event marks its row |
| Deployments.InPlayExactly | internal/store/deployments.go:62-90 | the tags in play are those of the app's queued, building and deploying rows and of its newest running one |
| Deployments.NextClaimableExactly | internal/store/deployments.go:331-351 | the next row is the oldest queued one of an app with no row building or deploying, or none if and only if there is none |
| Deployments.StatementsExactly | internal/store/deployments.go:236-368 | which rows claim, guarded update, supersede, recovery and the pruned flag write, and what they write there |
| Deployments.RecoverClears | internal/store/deployments.go:357-368 | after recovery no row is active, and queued and terminal rows are untouched |
| Deployments.SupersedeKeepsLive | internal/store/deployments.go:280-289 | retiring the others keeps the app's live row if and only if the kept row was the live one, or none was |
| Deployments.Store.CreateRollback | internal/store/deployments.go:32-54 | appends a queued row with the image, and the tag of the row rolled back to, or none |
| Deployments.Store.LiveDeployment | internal/store/deployments.go:118-130 | the loop over the table finds the newest running row of the app |
| Deployments.Store.ReadInPlay | internal/store/deployments.go:69-90 | reads exactly the non-empty tags of the live row and of every waiting or active row |
| Deployments.Store.EnqueueTagDeployment | internal/store/deployments.go:62-115 | chooses on the tags in play and appends at most one tag-event row, in one step |
| Deployments.Store.NextClaimable | internal/store/deployments.go:331-351 | finds the oldest queued row whose app has no active row, or reports that there is none |
| Deployments.Store.ClaimDeployment | internal/store/deployments.go:236-246 | reports success exactly when the row was still queued, and only then makes it building |
| Deployments.Store.SetStatus | internal/store/deployments.go:252-273 | writes exactly when the edge exists and the row still has the expected status, and says so |
| Deployments.Store.SupersedeOthers | internal/store/deployments.go:280-289 | every other running row of the app, and no other row, becomes superseded; counts the rows changed |
| Deployments.Store.RecoverActive | internal/store/deployments.go:357-368 | every active row, and no other, becomes failed with the reason; counts the rows changed |
| Deployments.Store.MarkImagePruned | internal/store/deployments.go:300-304 | flags every row that bears the image, and no other |
| QueueInvariant.InvKept | internal/deploy/worker.go:155-211 | every step of dispatcher, pipelines, operators, webhooks, crash and restart keeps the inductive invariant |
| QueueTheorems.ReachableIsSafe | internal/deploy/worker.go:155-270 | in every reachable state: one active row per app, each held by exactly one party while the process is up; at most four pipelines; at most one per app past the gate; none of a cancelled row there |
| QueueTheorems.CancelledStopsAtGate | internal/deploy/pipeline.go:126-137 | a pipeline whose row was cancelled during the build returns at the gate without touching row or containers |
| QueueTheorems.ReturnedIsTerminal | internal/deploy/pipeline.go:40-177 | when a pipeline returns, its row is terminal, whatever failed and whenever it was cancelled |
| QueueTheorems.PipelinesFinish | internal/deploy/pipeline.go:40-177 | a pipeline is never stuck, and each of its steps but the return brings it closer to returning |
| QueueTheorems.StepFollowsEdges | internal/core/statemachine.go:22-35 | every step of every participant changes statuses along matrix edges only |
| QueueTheorems.AtMostFourChanges | internal/core/statemachine.go:22-35 | over any run, crashes included, a row changes status at most four times |
| QueueTheorems.RestartRecovers | internal/store/deployments.go:353-368 | after a crash at any point the restart leaves no active row, leaves the others and every live row alone, and re-establishes the invariant |
| QueueTheorems.ClaimedAndLiveInOrder | internal/store/deployments.go:331-351 | rows of an app are claimed, and go live, in strictly increasing creation order, and every started row was claimed |
| QueueTheorems.LiveIsLastDeployed | internal/store/deployments.go:118-130 | on prompt runs LiveDeployment is the last deployment that went live, even after a crash left two running rows |
| QueueTheorems.LiveIsLastExactly | internal/deploy/pipeline.go:157-166 | in any run, LiveDeployment is the last deployment that went live in every state and for every app if and only if every supersede write finds its own row live |
| QueueTheorems.RetireKeepsLastExactly | internal/deploy/pipeline.go:157-166 | a supersede write keeps that property exactly when it finds its own row live |
| QueueTheorems.PromptIsTimely | internal/deploy/pipeline.go:157-166 | when no other pipeline of the app goes live between the two writes, every supersede write finds its own row live |
| QueueTheorems.LateRetireExactly | internal/deploy/pipeline.go:157-166 | a late supersede write changes the app's live row exactly when another row has become live since |
| QueueTheorems.LateRetireLosesLive | internal/deploy/pipeline.go:157-166 | a reachable state in which two deployments went live and a late write left the app without a running row |
| QueueTheorems.PipelinesOverlap | internal/deploy/worker.go:155-211 | a reachable state with two pipelines of one app, the older row cancelled during its build |
| QueueTheorems.OverlapHasOneActive | internal/deploy/worker.go:155-211 | two pipelines of one app never both have an active row |
| QueueTheorems.ClaimableExactly | internal/store/deployments.go:331-351 | a queued row can be claimed if and only if the rows of its app's pipelines, and of one about to be launched, are settled |
| QueueTags.EnqueuedClimbs | internal/store/deployments.go:62-115 | a version tag enqueued by a tag event is above every version in play for its app |
| QueueTags.WaitingTagsClimb | internal/store/deployments.go:62-115 | in every reachable state the version tags of an app's waiting tag-event rows strictly increase in enqueue order |
| QueueTags.LiveStandsStill | internal/deploy/pipeline.go:397-420 | in every reachable state, while a row of an app stays active a step changes the app's live row if and only if it is a supersede write of a row that is not live while another one is |
| QueueTags.GoingLiveIsUpgrade | internal/deploy/pipeline.go:397-420 | in timely runs a tag-event deployment with a version tag that goes live is strictly above the version live at that moment, though the check ran at claim time |
| QueueTags.UpgradeExactly | internal/deploy/pipeline.go:397-420 | in any run, from its check until it goes live a tag-event row is above the live version if and only if the last supersede write that ousted a live row since, if any, was not by a row that overtakes it |
| QueueOvertake.LowerTagGoesLive | internal/deploy/pipeline.go:157-166 | for any two eligible tags, a reachable state in which the second is about to go live while the first is live, though the second was checked |
| QueueClick.ClickSettlesExactly | internal/deploy/pipeline.go:418-452 | a click on Deploy in a tag-mode app builds the first of the highest listed versions that follow the policy; with none, the live tag if it is still listed and follows the policy; else it fails |
| QueueClick.EventSettlesExactly | internal/deploy/pipeline.go:397-417 | a tag-event deployment builds its tag if and only if it still follows the policy and is above the live tag, where that one matches and both are versions; else it is skipped |
| QueueClick.OthersSettle | internal/deploy/pipeline.go:397-400 | a rollback, a branch deployment and a row that has its tag pass at once |
| QueueClick.ClickBuildsNewest | internal/deploy/pipeline.go:418-452 | in any run, a clicked row of a tag-mode app that goes live carries the tag its run settled so on the list it read |
| QueueClick.PipelineHasRowsTag | internal/deploy/pipeline.go:446-456 | in every reachable state the tag a pipeline would clone is the one its row records |
| QueueClick.StatusExactly | internal/deploy/pipeline.go:126-177 | which events change the status of a row, and to what: cancel, claim, gate, running, retire, failure, skip and recovery, and no other |
| QueueClick.AppendedExactly | internal/store/deployments.go:14-115 | which events append a row: a deployment, a rollback, and a push exactly when the decision on the tags in play names a tag |
| QueueImage.GoesLiveOnItsImage | internal/deploy/pipeline.go:100-124 | in any run, a row that goes live bears the image it was enqueued with, or, if it had none, the image its own pipeline built |
| SemVer.ParseVersion | internal/tagdeploy/version.go:20-57 | the parsing loops compute the parse function |
| SemVer.ScanDigits | internal/tagdeploy/version.go:118-128 | the loop accepts exactly non-empty runs of digits |
| SemVer.ScanIdent | internal/tagdeploy/version.go:131-142 | the loop accepts exactly non-empty identifiers |
| SemVer.ReadNumbers | internal/tagdeploy/version.go:44-54 | fills the three numbers, zero where absent, or refuses |
| SemVer.ParseIffSpelled | internal/tagdeploy/version.go:20-57 | a tag parses to a version if and only if the grammar spells it so: lead, one to three numbers, identifiers, build |
| SemVer.SpelledExactly | internal/tagdeploy/version.go:20-57 | that grammar character by character: the letter v, decimal numbers below 2 to the 64th, dots, a hyphen and identifiers, a plus sign and a build |
| SemVer.NumeralExactly | internal/tagdeploy/version.go:44-54 | a run of digits denotes n if and only if it is the decimal form of n, perhaps after zeros |
| SemVer.NumericIdentOrder | internal/tagdeploy/version.go:93-109 | trimming zeros, then length, then byte order is numeric order on digit strings of any length |
| Bytes.CompareBytesExactly | internal/tagdeploy/version.go:93-109 | byte order decides at the first difference, a proper start being smaller |
| SemVer.CompareIsPrecedence | internal/tagdeploy/version.go:63-109 | Compare decides exactly the precedence of section 11 of Semantic Versioning 2.0.0 |
| SemVer.CompareTotalPreorder | internal/tagdeploy/version.go:63-109 | Compare is antisymmetric in sign, reflexive and transitive |
| Glob.InClass | internal/webhook/match.go:114-128 | the class loop finds a byte exactly when an item or a range of the class body holds it |
| Glob.MatchSegmentMeaning | internal/webhook/match.go:76-111 | the segment matcher accepts exactly the texts that split into pieces covered by the pattern's tokens |
| Glob.MatchSegmentsMeaning | internal/webhook/match.go:56-73 | the path matcher accepts exactly the paths that group into runs of segments, any run for a double star |
| Glob.MatchGlobMeaning | internal/webhook/match.go:31-36 | MatchGlob on whole paths means joined segments grouped in that way |
| Glob.GlobExactly | internal/webhook/match.go:31-36 | pattern and path are cut at their slashes, one leading slash of the pattern left off |
| Glob.SegmentsExactly | internal/webhook/match.go:56-73 | two stars alone take any number of segments, any other segment takes one |
| Glob.TokenExactly | internal/webhook/match.go:76-111 | a star is any text, a question mark one byte, any byte but an opening bracket itself |
| Glob.ClassExactly | internal/webhook/match.go:88-108 | a class runs to the first closing bracket, and a leading caret or exclamation mark negates it |
| Glob.UnclosedExactly | internal/webhook/match.go:88-92 | a bracket that is never closed is no pattern |
| Glob.ItemsExactly | internal/webhook/match.go:114-128 | a hyphen between two bytes of a class makes a range, any other byte is a member |
| Glob.WildcardsStayInSegment | internal/webhook/match.go:56-111 | without a double star, pattern and path have equally many slashes: no wildcard crosses one |
| Glob.DeepDeep | internal/webhook/match.go:56-73 | two adjacent double stars mean the same as one, anywhere in a pattern |
| Glob.ValidSegment | internal/webhook/match.go:40-53 | the inner index loop accepts exactly the segments whose classes are all closed |
| Glob.ValidGlob | internal/webhook/match.go:40-53 | accepts exactly the patterns whose segments are all well formed |
| Glob.IllFormedMatchesNothing | internal/webhook/match.go:38-53 | a pattern ValidGlob rejects matches no path at all |
| Glob.EmptyClassMatchesNothing | internal/webhook/match.go:40-53 | an accepted pattern that matches nothing: the empty class |
| Glob.MatchesSomething | internal/webhook/match.go:31-128 | some path matches a pattern if and only if ValidGlob accepts it and every class in it holds a byte other than a slash |
| TagPolicy.Decide | internal/tagdeploy/policy.go:65-111 | the two loops compute the decision function, reason included |
| TagPolicy.ScanHighest | internal/tagdeploy/policy.go:86-92 | the loop over best, bestV and found leaves the highest version-like tag, the first among equals |
| TagPolicy.Newest | internal/tagdeploy/policy.go:123-135 | the loop finds the first of the highest versions among the tags that follow the policy, or none if none counts |
| TagPolicy.TagPrefixExactly | internal/tagdeploy/policy.go:34-44 | the prefix Version strips ends at the pattern's first star, question mark or opening bracket, one leading slash left off |
| TagPolicy.ReadsExactly | internal/tagdeploy/policy.go:34-44 | a tag reads as a version if and only if the version grammar spells it after that prefix |
| TagPolicy.EligibleExactly | internal/tagdeploy/policy.go:46-57 | a tag is eligible if and only if it matches the pattern and, unless pre-releases are on, does not read as one |
| TagPolicy.HigherExactly | internal/tagdeploy/policy.go:86-106 | one tag is above another if and only if both read and the precedence of their versions says so |
| TagPolicy.ScanFindsFirst | internal/tagdeploy/policy.go:86-135 | both scans find the first of the highest versions that count, and nothing if and only if none counts |
| TagPolicy.HighestIsMaximal | internal/tagdeploy/policy.go:65-135 | the scanned mark is a member and maximal among the version-like tags, and missing only if there are none |
| TagPolicy.NewestMeaning | internal/tagdeploy/policy.go:123-135 | Newest is an eligible version-like tag maximal over all of them |
| TagPolicy.DecidedTag | internal/tagdeploy/policy.go:65-111 | a deployed tag is pushed and eligible: the maximal version and above every version in play, or the last eligible tag when none is a version |
| TagPolicy.DecidedNothing | internal/tagdeploy/policy.go:65-111 | for non-empty names nothing is deployed if and only if nothing is eligible or a version in play is at least every eligible one |
| TagPolicy.DecidedExactly | internal/tagdeploy/policy.go:65-119 | what Decide returns, tag and reason, in terms of what tags read as, of MatchGlob and of version precedence |
| TagPolicy.DecisionIgnoresPushOrder | internal/tagdeploy/policy.go:65-111 | whether and which version is deployed does not depend on the order of the pushed tags |
| TagPolicy.MatchImpliesPrefix | internal/tagdeploy/policy.go:34-44 | all matching tags start with the stripped prefix if and only if the pattern is not literal segments followed by double stars alone |
| TagPolicy.VersionFailsOnlyOnRest | internal/tagdeploy/policy.go:34-44 | without a double star, Version fails on a matching tag only because the rest is not a version |
| Docker.Host.Create | internal/docker/fake.go:142-165 | a taken name is refused; otherwise a new container that is not running, and nothing else changes |
| Docker.Host.Find | internal/docker/fake.go:113-121 | finds the container of that name, if there is one and the call works |
| Docker.Host.Remove | internal/docker/fake.go:197-210 | removes one container and nothing else; a failed call may still have removed it |
| Docker.Host.Start | internal/docker/fake.go:167-181 | a failed start has not started the container |
| Docker.Host.Stop | internal/docker/fake.go:183-195 | a failed stop may still have stopped it |
| Docker.Host.Rename | internal/docker/fake.go:212-224 | a taken name is refused, and names stay unique |
| Provision.NamesExactly | internal/dbaas/manager.go:20-26 | a temporary name is the canonical name of exactly the database called so with -new after it |
| Provision.Manager.ClearStale | internal/dbaas/manager.go:126-135 | removes a leftover replacement and leaves the canonical container as it was |
| Provision.Manager.Fresh | internal/dbaas/manager.go:141-150 | without an old container, success means a running container under the canonical name |
| Provision.Manager.RollBack | internal/dbaas/manager.go:166-175 | drops the replacement and restarts the old container, never with both running |
| Provision.Manager.Replace | internal/dbaas/manager.go:152-184 | the whole replacement: settled on success, the old container kept or back on a failure with a working rollback |
| Provision.Manager.Swap | internal/dbaas/manager.go:163-175 | stops the old, starts the new, rolls back on failure; never both running on the data directory |
| Provision.Manager.TakeOver | internal/dbaas/manager.go:176-184 | removes the old container and renames the new one, at every moment with at most one running |
| Provision.Manager.Run | internal/dbaas/manager.go:92-184 | success means one container, running the image under the canonical name; a failed create leaves the old one as it was; a failed stop or start leaves it running again if the rollback works |
| Provision.Manager.Provisions | internal/dbaas/manager.go:69-193 | over any sequence of provisions with arbitrary failures and kills, at most one container on the data directory runs, no foreign container changes, and a failure-free last one ends settled |
| Cutover.TemporaryIsNobodys | internal/deploy/pipeline.go:183-189 | the temporary name of a deploy is no app's container name, and no other deploy's |
| Cutover.NeverTwo | internal/deploy/pipeline.go:183-309 | two containers that take the app's traffic or mount its volumes are the same container |
| Cutover.Worker.CreateContainer | internal/deploy/pipeline.go:517-574 | returns an id exactly when create and start worked, of a running container with the app's name, this image, the app's volumes and the routing asked for; what a failed create or start leaves behind |
| Cutover.Worker.RemoveByName | internal/deploy/pipeline.go:577-589 | success means the name is free; a failed find leaves everything |
| Cutover.Worker.TryTemp | internal/deploy/pipeline.go:183-235 | the temporary container is returned exactly when it is healthy; the canonical one is untouched |
| Cutover.Worker.CutOver | internal/deploy/pipeline.go:236-266 | from a healthy temporary container to the canonical one, whatever fails |
| Cutover.Worker.DropTemp | internal/deploy/pipeline.go:197-201 | removes the temporary container at best, and touches no other |
| Cutover.Worker.BlueGreen | internal/deploy/pipeline.go:183-267 | the canonical container is untouched until the temporary one is healthy; true means it is up and routed, runs the deploy's image with the app's volumes and passed its own probe; a temporary one remains exactly in the named cases |
| Cutover.Worker.StopFirst | internal/deploy/pipeline.go:277-309 | two containers never carry the app's volumes; true means the canonical one is up and routed, runs the deploy's image with the app's volumes and passed its probe |
| Prune.DistinctMeaning | internal/prune/pruner.go:114-146 | the distinct list has every unpruned image once, ordered by its newest row |
| Prune.CandidatesMeaning | internal/prune/pruner.go:114-146 | the candidates, without duplicates, are exactly the unpruned images outside the newest keep and not borne by a row in flight or the newest running one |
| Prune.CandidatesExactly | internal/prune/pruner.go:114-146 | on the table: an image is a candidate if and only if at least keep other images of the app have younger unpruned bearers than its youngest, and neither a row in flight nor the youngest running one bears it |
| Prune.PruneCandidates | internal/prune/pruner.go:114-146 | the scan with its protected and seen sets computes the candidates |
| Prune.Pruner.ListDeployments | internal/store/deployments.go:145-162 | the rows of the app by falling id, each once |
| Prune.NextPass | internal/prune/pruner.go:86-110 | after a pass that removed some candidates, the next pass has exactly the others, in order |
| Prune.PassIsSound | internal/prune/pruner.go:86-110 | with any removal failures every unpruned row's image stays on the host, needed images are spared, and after a fully successful pass a second one removes nothing |
| Prune.Pruner.PruneApp | internal/prune/pruner.go:86-110 | removes from the host, and flags on every row, exactly the images of the app outside the window and not needed, said of the table's rows, whose removal was not refused |
| LogStream.Topic.Publish | internal/logstream/broker.go:89-108 | appends one line unless closed; every open channel gets it once unless its buffer is full, and no closed one is sent to |
| LogStream.Topic.Append | internal/logstream/broker.go:96-101 | the retained lines stay the tail of everything published, and at most twice maxLines |
| LogStream.ShownExactly | internal/logstream/broker.go:42-62 | the history shown is exactly the lines kept, after a note if and only if lines were dropped |
| LogStream.Topic.Subscribe | internal/logstream/broker.go:133-156 | the history and the registration are one snapshot; a closed topic hands out a closed channel |
| LogStream.Topic.Cancel | internal/logstream/broker.go:147-155 | closes the channel once, and does nothing the second time or after the topic closed |
| LogStream.Topic.Receive | internal/logstream/broker.go:133-156 | a viewer takes the lines in the order in which they were sent |
| LogStream.Topic.Finish | internal/logstream/broker.go:161-176 | every open channel is closed once, whatever was closed before |
| LogStream.Broker.Publish | internal/logstream/broker.go:89-108 | appends to the log of one deployment and leaves every other alone; every viewer of this broker takes at most one line more and misses one only if its buffer was full; none is added or cancelled |
| LogStream.Broker.Close | internal/logstream/broker.go:161-185 | only finished topics beyond the newest keepClosed are forgotten; open ones and their logs stay |
| LogStream.LastOfExactly | internal/logstream/broker.go:176-185 | eviction takes the oldest finished topics, as many as are too many |
| LogStream.Broker.Subscribe | internal/logstream/broker.go:114-116 | subscribes to a topic, made if need be, without touching any log or other viewer; the new viewer has missed nothing |
| LogStream.Broker.SubscribeExisting | internal/logstream/broker.go:122-131 | subscribes only where a topic exists, creates none, and touches no log |
| LogStream.TrimEnded | internal/deploy/worker.go:326-334 | trimNewline strips one line feed and then one carriage return |
| LogStream.TrimExactly | internal/deploy/worker.go:326-334 | a line feed goes, a carriage return just before it goes too, and no other byte |
| LogStream.LinesExactly | internal/deploy/worker.go:303-324 | the first line ends at the first line feed; a text without one has no line |
| LogStream.LinesAreSplit | internal/deploy/worker.go:303-334 | the lines are the pieces between line feeds, one carriage return stripped, and the rest is the last piece |
| LogStream.CutAnywhere | internal/deploy/worker.go:310-324 | cutting a text after any byte and carrying the rest over yields the same lines |
| LogStream.ChunkingIrrelevant | internal/deploy/worker.go:310-324 | however output is chunked into Write calls, the lines are those of the whole byte stream |
| LogStream.Writer.Write | internal/deploy/worker.go:310-324 | publishes exactly the complete lines, in order, and keeps the rest; other logs stay, and a viewer misses a line only if its buffer had no room for that many |
| LogStream.ViewerSeesStream | internal/logstream/broker.go:42-55 | the history is the tail of the stream's lines, dropped plus retained is all of them, and a viewer whose buffer never filled saw a contiguous suffix with nothing missed or repeated |
| SigV4.UriEncode | internal/blobstore/sigv4.go:116-131 | the loop computes the encoding, byte by byte |
| SigV4.Unescape | internal/blobstore/sigv4.go:134-148 | the loop with its moving index computes the decoding |
| SigV4.DecodedUndoes | internal/blobstore/sigv4.go:116-148 | unescape undoes uriEncode on every byte string, with or without slashes kept |
| SigV4.EncodedIsPlain | internal/blobstore/sigv4.go:116-131 | an encoded text has only unreserved bytes, percent signs, and slashes if kept |
| SigV4.EncodedByteExactly | internal/blobstore/sigv4.go:116-131 | letters, digits and the four marks stay, a slash if kept; any other byte is a percent sign and two upper-case hexadecimal digits |
| SigV4.DecodedExactly | internal/blobstore/sigv4.go:134-148 | a plus sign reads as a space, a percent sign with two hexadecimal digits of either case as their byte, anything else as itself |
| SigV4.SortedUnique | internal/blobstore/sigv4.go:100-105 | parameters have one sorted order, so the sorting algorithm makes no difference |
| SigV4.CanonicalQuery | internal/blobstore/sigv4.go:84-112 | the method computes the canonical form |
| SigV4.DecodeParams | internal/blobstore/sigv4.go:90-99 | the loop skips empty pieces and decodes both sides of the first equals sign |
| SigV4.QueryPieces | internal/blobstore/sigv4.go:84-99 | a query is its pieces between ampersands |
| SigV4.PieceExactly | internal/blobstore/sigv4.go:90-99 | a piece is a name and, after the first equals sign, a value, both decoded |
| SigV4.CanonicalKeepsParams | internal/blobstore/sigv4.go:84-112 | the canonical query carries exactly the parameters of the original, sorted |
| SigV4.CanonicalExactly | internal/blobstore/sigv4.go:100-111 | the canonical form spells the sorted parameters with equals signs and ampersands, slashes encoded too |
| SigV4.CanonicalIffSameParams | internal/blobstore/sigv4.go:84-112 | two queries have the same canonical form if and only if they carry the same parameters |
| SigV4.CanonicalIdempotent | internal/blobstore/sigv4.go:84-112 | canonicalising twice is canonicalising once |
| SigV4.CanonicalIgnoresOrder | internal/blobstore/sigv4.go:84-112 | the order in which a query spells its parameters makes no difference |
| PreviewTables.CreationIsSound | internal/store/apps.go:26-95 | a preview of an app that is none itself, under a free name, is the first for its pull request, and all table invariants stay |
| PreviewTables.DeletionIsSound | internal/store/apps.go:310-343 | deleting an app with its rows leaves no dangling reference |
| PreviewTables.WithoutAppExactly | internal/store/apps.go:310-343 | what stays is exactly the rows of other apps, and every database |
| PreviewTables.TakenExactly | internal/store/domains.go:67-86 | a route is taken if and only if another app has its host, the case of ASCII letters aside, and its path |
| PreviewTables.RouteOrderExactly | internal/store/domains.go:126-141 | the listing is ordered by the bytes of the host and then of the path |
| PreviewTables.Store.CreateApp | internal/store/apps.go:19-95 | inserts the preview if and only if the call works and no app has its name |
| PreviewTables.Store.DeleteApp | internal/store/apps.go:310-343 | deletes the app and all its rows in one transaction, or nothing |
| PreviewTables.Store.GetPreviewByPR | internal/store/previews.go:43-48 | finds a preview of the pull request if and only if there is one and the read works |
| PreviewTables.Store.DeleteDatabase | internal/store/databases.go:126-143 | deletes the row if and only if the call works and no attachment references it |
| PreviewTables.Store.AttachDatabase | internal/store/attachments.go:14-40 | inserts one attachment if and only if the call works, app and database exist in one project, and the variable is free |
| PreviewTables.Store.AddDomain | internal/store/domains.go:25-80 | refused exactly when another app routes the host and path, this app already does, or the call fails |
| PreviewTables.Store.FirstDomain | internal/store/domains.go:126-141 | the first row of the listing, by host and then path, if the app has any |
| PreviewPlans.TeardownExactly | internal/previewmgr/manager.go:411-451 | a teardown that gets through its gate and deletes the app removes exactly the preview's databases if and only if there were none, or the listing worked, no other app uses them and every call of each removal worked |
| PreviewPlans.FailedListingLeaks | internal/previewmgr/manager.go:414-427 | with a failed listing a teardown still completes, and removes the app alone |
| PreviewPlans.LeakingTeardown | internal/previewmgr/manager.go:414-427 | a preview with a database whose completed teardown leaves row, container and data, attached to nothing |
| PreviewPlans.CleanupExactly | internal/previewmgr/manager.go:227-243 | a cleanup gives the tables without the child and its databases if and only if the deletion worked and each database was found and removed |
| PreviewPlans.DestroyedNext | internal/previewmgr/manager.go:443-449 | removing databases one after the other, some failing, does not depend on the order |
| PreviewPlans.SweepIsExact | internal/previewmgr/sweeper.go:42-92 | a sweep leaves exactly the tables without the previews that were orphaned or due and whose teardown got through, judged as each would be alone; databases go only with those and only when no app uses them |
| PreviewPlans.DueExactly | internal/previewmgr/sweeper.go:48-92 | a preview is due if its request closed, it builds a refs/pull branch where forks are not allowed, or its newest deployment is older than a positive number of days, seven where nothing is configured |
| PreviewBuild.NameFreeExactly | internal/previewmgr/manager.go:310-338 | once some attachments are copied, the name for the next database is free if and only if it was free before and none of them shares the source database |
| PreviewBuild.TakenByOthers | internal/store/domains.go:67-86 | a route of the child is taken if and only if it was routed before the child existed |
| PreviewBuild.CopiedEnvSees | internal/previewmgr/manager.go:250-279 | a fork's preview has a preview-only variable if and only if the parent does, and no other of the parent's; any other preview has also the shared ones that no preview-only one replaces; none has a production-only one; the markers are set where their calls worked |
| PreviewBuild.ForkIsKnown | internal/previewmgr/manager.go:281-288 | the row of a preview, field by field: a fork's builds refs/pull/n/head and any other the head branch; the sweep takes it for a fork's if and only if it is one, or the head branch is called so |
| PreviewBuild.UndoExactly | preview_adapters.go:23-43 | removing a database just made gives the world of before if every call works, and otherwise leaves at most what was made |
| PreviewBuild.RollbackRestores | internal/previewmgr/manager.go:181-243 | the rollback of a spawn restores every table, container and data directory if and only if no database leaked before, the child was deleted, and each of its databases was found and removed; otherwise only the child's own rows and new databases remain |
| PreviewBuild.NoFaultSpawn | internal/previewmgr/manager.go:126-198 | without a fault a spawn with room succeeds if and only if the child's name, the names of its databases and its routes are free and no two database names are the same |
| PreviewBuild.SharedDatabaseNeverSpawns | internal/previewmgr/manager.go:310-338 | an app with one database under two variables never gets a preview, whatever works |
| PreviewBuild.FailedLookupSpawnsNone | internal/previewmgr/manager.go:145-176 | when the lookup of an existing preview fails, no second one is begun |
| Preview.Manager.Remove | internal/dbaas/manager.go:226-245 | refused by its check it leaves row, container and data; otherwise container, data and row go in this order, up to the first call that fails, and none goes while the one before it is there |
| Preview.Manager.Provision | preview_adapters.go:23-34 | succeeds exactly when the name is free and both calls work; a row whose container does not start stays behind exactly when its removal fails |
| Preview.Manager.ProvisionOne | internal/previewmgr/manager.go:315-336 | one attachment gets its database exactly when the name is free and every call works; the database stays behind exactly when it could not be undone |
| Preview.Manager.CopyEnv | internal/previewmgr/manager.go:250-279 | succeeds exactly when the listing and every copy work, and then the preview sees exactly what it should; at no moment does it have a variable it may not see |
| Preview.Manager.ProvisionDatabases | internal/previewmgr/manager.go:310-338 | succeeds exactly when every call works and the names are free and distinct; then each attachment of the parent has a copy of its own under the same variable, with a database of its own; a failure leaves only attached databases unless an undo failed |
| Preview.Manager.MintDomains | internal/previewmgr/manager.go:350-371 | succeeds exactly when every derived route is free and added; then the child has exactly the derived routes, each made from a parent's and none twice |
| Preview.Manager.InjectPreviewURL | internal/previewmgr/manager.go:290-306 | sets the address of the app's first route, and nothing if it has none |
| Preview.Manager.BuildPreview | internal/previewmgr/manager.go:203-220 | succeeds exactly under the condition on tables and plan, with its databases, routes, variables and one deployment; on failure only rows of its own were added, and no database is loose unless an undo failed |
| Preview.Manager.CleanupChild | internal/previewmgr/manager.go:227-243 | has the effect that the theorems on rollbacks are about |
| Preview.Manager.Spawn | internal/previewmgr/manager.go:126-198 | ends as tables, configuration and plan decide, keeping one preview per pull request and the limit; when a build step fails and every call of the rollback works, all tables, containers and data are as before; whatever fails, only rows of the new child and new databases may remain |
| Preview.Manager.Redeploy | internal/previewmgr/manager.go:373-385 | adds one deployment of the existing preview, or changes nothing |
| Preview.Manager.DestroyChild | internal/previewmgr/manager.go:411-451 | a failed RemoveApp or lookup of a database means failure with at most the status changed; past the gate the app and its rows go, and each database found whose removal works |
| Preview.Manager.Teardown | internal/previewmgr/manager.go:389-399 | destroys the preview of the pull request with the effect of destroyChild; no effect exactly when there is none or the lookup failed |
| Preview.Manager.HandleApp | internal/previewmgr/manager.go:114-124 | opened, reopened and synchronize spawn, closed tears down, each with its whole effect |
| Preview.Manager.Handle | internal/previewmgr/manager.go:91-112 | an event goes to each enabled app in turn with the effect proved for one app, a failure for one not stopping the others, and stops exactly at the first configuration it cannot read; apps that are no previews stay as they were |
| Preview.Manager.SweepTick | internal/previewmgr/sweeper.go:42-92 | computes the sweep that SweepIsExact is about, and keeps all invariants |
| Cron.SetBit | internal/cron/cron.go:111-113 | setting a bit of a mask sets that bit and no other |
| Cron.ReadItem | internal/cron/cron.go:80-110 | an accepted item lies within the bounds of its field, with a step of at least one |
| Cron.ItemIffSpelled | internal/cron/cron.go:80-110 | an item is accepted with given bounds and step if and only if the grammar spells it: star, number or range, perhaps a step |
| Cron.ItemTextExactly | internal/cron/cron.go:80-110 | the characters of that grammar: star, hyphen and slash |
| Cron.AtoiExactly | internal/cron/cron.go:118-131 | a number is an optional sign and decimal digits, and fits int |
| Cron.ValueExactly | internal/cron/cron.go:118-131 | a value is a number within the bounds of its field, or 7 for Sunday |
| Cron.Mark | internal/cron/cron.go:111-113 | the inner loop, with the overflow of int, terminates and marks exactly the visited values |
| Cron.StepsExactly | internal/cron/cron.go:111-113 | the loop marks exactly what the item denotes if and only if its start plus twice its step stays below the width of int |
| Cron.HugeStepMarksMore | internal/cron/cron.go:111-113 | an accepted expression whose mask has values it does not denote |
| Cron.ParseField | internal/cron/cron.go:76-116 | accepts exactly when every entry of the list reads, and the mask is the union of what the loops mark |
| Cron.FieldExactly | internal/cron/cron.go:16-22 | a field is its entries between commas, read within 0-59, 0-23, 1-31, 1-12 or 0-6 by its place |
| Cron.StarExactly | internal/cron/cron.go:16-22 | a star in a field denotes exactly those values |
| Cron.Parse | internal/cron/cron.go:35-55 | accepts an expression exactly when its fields at white space are five readable ones, with a mask for each |
| Cron.SplitFields | internal/cron/cron.go:36 | the loop over the bytes computes the fields of the expression, as strings.Fields does, UTF-8 white space included |
| Cron.SpaceFound | internal/cron/cron.go:36 | the UTF-8 form of every white space character of Unicode separates fields, as wide as it is |
| Cron.SpaceIs | internal/cron/cron.go:36 | and nothing else does |
| Cron.FieldsAreWords | internal/cron/cron.go:36 | every field is non-empty and has no white space in it |
| Cron.FieldsOfWords | internal/cron/cron.go:36 | words joined by spaces are the fields of the text |
| Cron.MaskExact | internal/cron/cron.go:76-116 | with steps that fit, a mask has exactly the values of its field, and none outside its bounds |
| Cron.MatchesIffRule | internal/cron/cron.go:58-72 | Matches is the rule on sets of values: a day field that is a star asks nothing, and of two restricted ones either suffices |
| Cron.SevenCollapsesRange | internal/cron/cron.go:118-131 | a week-day range whose end reads as 7 is accepted if and only if its start reads as 0 or 7, and is then Sunday alone |
| Cron.SevenStartsAtSunday | internal/cron/cron.go:118-131 | a week-day range whose start reads as 7 is the range from Sunday to its end |

## Left out

- HTTP handlers, templates, sessions, password hashing, settings pages: user interface and plumbing.
- SQL, migrations and the sqlite driver: tables are sequences or maps, statements and transactions are atomic steps.
- Git, builders, Docker SDK, Traefik, cloudflared, GitHub and S3 calls: outcomes only.
- HMAC, SHA-256, secretbox, x509 and SSH: library cryptography. Of `sign`, only the canonical query is modelled.
- Wall-clock time, tickers and timeouts: cancellation is a free choice; `started_at` and `finished_at` are not modelled.
- App deletion, manual start and stop of containers and databases, settings edits during a deploy, DestroyByID: they break the single-actor assumptions above.
- The pruner's Sweep, reconcile and work-dir cleanup; env files, label maps, path helpers, host metrics.
- MatchAny, PolicyFor and the reason texts of decisions and failures: a reason is a value of a datatype or a byte string.
- runComposePipeline shares the pipeline of the transition system: its builds and `up` are the same choices of outcome, and its container effects are not modelled.
- Docker.Host.Start: a failed start may leave a port or network reserved in a real daemon; the fake does not model that and neither does this.
- SemVer.ParseVersion: numbers beyond the range of uint64 are refused, as strconv.ParseUint does; the error text is not modelled.
- LogStream.Topic.Publish: runs as one step under the topic's mutex, and the broker's methods are atomic; a topic evicted between lookup and publish is closed, so a publish on it has no effect.
- LogStream.Writer.Write: the ghost log equals the lines of the stream only while this writer is the topic's only publisher and the topic is open, as in a pipeline.
- Preview.Manager.MintDomains: the derived host is a function of parent name, pull request and service; its label capping and hash are not modelled, nor are port and internal path of a route. Which of two parent routes that collapse to one gives service and TLS is left open.
- PreviewTables.Store.CreateApp: the copied build settings of a child, its volumes and backups, and the mirror column apps.domain are not modelled.
- Preview.Manager.ProvisionDatabases: goes through the attachments in any order, not by variable name; success does not depend on it.
- Preview.Manager.Spawn: pull request comments and waking the worker are not modelled. A failed spawn is stated to restore the world when every call of the rollback works; the exact condition, on the state the rollback starts from, is RollbackRestores.
- Preview.Manager.SweepTick: the age of a deployment is an unbounded integer; a time-to-live whose nanoseconds overflow int64 is not modelled.
- Cron.HasBit: a uint64 mask is its number, and a bit one of its binary digits.
- SigV4.Sorted: sort.Slice is a library; any sorted permutation is this one.
