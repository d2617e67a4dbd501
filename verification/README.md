# Remotr: verified models

Dafny models of four groups of Remotr code whose promises are about every run, every interleaving
or every input, and proofs of those promises. `dafny verify dfyconfig.toml` checks all of it.

**The repeatable-document protocol of the agent.** `DocumentHash`, `SyncRun`, `SyncRequest`,
`SyncHistory`, `SyncConvergence`. A Sync request names its documents by hash and leaves out bodies
the server has acknowledged. `SyncRun` holds the agent as a class with the source's fields and its
state file, and says of each method what it computes. `SyncRequest` tells from memory and inputs
what is sent and what a reply leaves behind. `SyncHistory` follows whole runs: exchanges against an
arbitrary server, failures at every I/O call, and restarts. `SyncConvergence` pairs the agent with
an honest server. Canonical JSON and SHA-256 are a parameter, of which only the syntax of a digest
is assumed.

**Requirement evidence and variant selection.** `Ordering`, `Pattern`, `RequirementPatterns`,
`RequirementSet`, `RequirementJson`, `RequirementCanonical`, `Json`, `RequirementMembers`,
`VariantSelection`, `SelectionMeaning`. Validation and canonical printing are proved against what a
valid set is; the printer is undone by a strict parser of its own JSON shape (RFC 8259, sections 4
to 7), and a reader of any JSON finds every field under its own name. The one-pass filter, stable
sort and scan that pick a variant are proved to compute a declarative argmax, which
`SelectionMeaning` tells from the facts and lists alone.

**Fenced services of the desktop.** `Contexts`, `SessionFence`, `EndpointDetail`, `TaskRunner`,
`ChangeControl`, `TokenSlot`. Each section under a lock is one method of a class, and one step of a
state machine whose interleavings the theorems quantify over.

**Two text algorithms.** `Text`, `ShellQuote`, `ReplayCommand`, `ReplayReading`, `Utf8Text`.
Quoting is undone by a tokenizer written from sections 2.2.1, 2.2.2 and 2.3 of the POSIX.1-2017
Shell Command Language; `ReplayReading` reads the arguments as a command does. Truncation is
measured against sections 3 and 4 of RFC 3629.

## What the proofs say about the code

- The promise that nothing is withheld which was asked for again can fail. A response asks in
  vain when it asks for a document that the state file records and changes nothing in memory:
  the early return then leaves the file as it is, and a restart revives the entry. For every
  document and every run, its entry stays justified in memory and in the file if and only if no
  response ever asks for it in vain (`SyncHistory.JustifiedExactlyWhenNeverInVain`); after one
  that does, the revived entry withholds the body (`SyncHistory.VainRequestIsWithheld`). It takes
  a restart that could not read a file with entries to get there: `SyncHistory.CleanRestartsSuffice`
  says so, and `SyncHistory.FailedLoadBreaksJustification` is such a run.
  `SyncHistory.WithheldWasDelivered` is what holds in every run.
- The triple of applied artifact, digest and release reference becomes the response's own exactly
  when the response gives both, or leaves out one that was empty before
  (`SyncHistory.AppliedTripleIsTheResponses`).
- `sync.Unchanged` answers true when the digests agree and the server names no release
  reference, so it is weaker than equality of both. The model follows the code.
- The comparator of requirements orders by ID and then revision and is total, so the unstable
  sort is deterministic even without the distinct IDs that validation guarantees. Target lists
  are sorted too, so equal bodies forget their order as well.
- A baseline adoption plan is adopted at most once, but it stays pending when its request fails.
  A request whose reply was lost can therefore be followed by another
  (`ChangeControl.SentAgainOnlyAfterFailure`, `ChangeControl.SentExactlyWhenPending`). A plan
  chosen between the two locked sections of a request replaces the one it was made for.
- A pending report whose hash is already on record is left out of the request and stays pending
  (`SyncRequest.ReportSettles`).
- A replay line has no `--` before its positionals, so one that begins with a hyphen is read as a
  flag; the line is read as meant exactly when there is none (`ReplayReading.ReplayIsReadAsMeant`).
- A deployment token created before the slot is cleared can be stored after it; the slot then
  holds the reply stored last (`TokenSlot.SlotIsOneReply`).

## Model

| member | source | states |
|---|---|---|
| DocumentHash.Validate | internal/documenthash/documenthash.go:74-90 | accepts a summary exactly when its version is current, it has one to eight entries, and every entry is a known name with a well-formed hash, in any order of the map |
| SyncRun.WithheldExactlyWhenAcknowledged | cmd/remotr-agent/sync_run.go:147-210 | a prepared request leaves out a body it names exactly when the agent has recorded that hash as acknowledged; the delivery document is never left out |
| SyncRun.AcceptIsAtomic | cmd/remotr-agent/sync_run.go:212-261 | success gives (old map overridden by acknowledgements) minus requested documents; any error leaves memory and file as they were |
| SyncRun.SyncRunState.constructor | cmd/remotr-agent/sync_run.go:60-112 | a start takes its accepted map from the state file when that can be read and validates |
| SyncRun.SyncRunState.AttachRepeatableDocuments | cmd/remotr-agent/sync_run.go:147-210 | the request computed is the one whose withheld bodies are characterised above, or none when a document cannot be prepared |
| SyncRun.SyncRunState.Override | cmd/remotr-agent/sync_run.go:217-231 | for every order of the map: accepts exactly when every acknowledgement was submitted, and then overrides the map and tells truly whether it changed |
| SyncRun.SyncRunState.DropRequested | cmd/remotr-agent/sync_run.go:235-245 | accepts exactly known names without repetition, removes them all, and tells whether any was there |
| SyncRun.SyncRunState.NextMap | cmd/remotr-agent/sync_run.go:212-248 | the error a response is refused with, or the next map and whether it differs or lost an entry |
| SyncRun.SyncRunState.AcceptDocumentHashes | cmd/remotr-agent/sync_run.go:212-261 | error and new memory and file are those of the atomic specification |
| SyncRun.SyncRunState.Store | cmd/remotr-agent/sync_run.go:246-260 | memory moves to the next map only after the file took it; a failed load or save changes neither |
| SyncRun.SyncRunState.PersistSystemInfoSent | cmd/remotr-agent/sync_run.go:471-495 | the change digest is recorded in memory, and on disk when that can be read and written |
| SyncRun.SyncRunState.Settle | cmd/remotr-agent/sync_run.go:592-609 | a report leaves the queue only with its hash acknowledged |
| SyncRun.SyncRunState.ApplyConfig | cmd/remotr-agent/sync_run.go:375-416 | a failed pipeline moves nothing; a successful one moves the artifact and the parts that are given |
| SyncRun.SyncRunState.ApplyOrRetry | cmd/remotr-agent/sync_run.go:611-616 | an artifact is applied; without one a lease retry runs only when the response is unchanged from what was applied |
| SyncRun.SyncRunState.RunOnce | cmd/remotr-agent/sync_run.go:547-634 | one whole exchange is the step that the run theorems are about |
| SyncRun.StateFile.SaveState | internal/agent/credentials/store.go:104-120 | refuses metadata without an endpoint ID, and otherwise replaces all or nothing |
| SyncRequest.SentExactlyWhenPreparable | cmd/remotr-agent/sync_run.go:567-575 | a request is sent if and only if the capability document is there and every document that the request names can be prepared |
| SyncRequest.SentRequestIsExact | cmd/remotr-agent/sync_run.go:147-210 | told from memory and inputs alone: each document is named by its own hash and no other is, and each body is the document itself unless its hash is on record |
| SyncRequest.InventoryIsNamed | cmd/remotr-agent/sync_run.go:188-203 | a request names system information if and only if a report is pending or a hash is on record, by the hash of the report or else by the recorded one |
| SyncRequest.ReportSettles | cmd/remotr-agent/sync_run.go:592-609 | a report that was sent and acknowledged leaves the queue and is recorded under the digest of its change, in memory and where possible in the file; any other changes nothing |
| SyncRequest.RestartKeepsDigest | cmd/remotr-agent/sync_run.go:64-69 | a restart takes the recorded digest over |
| SyncHistory.ExchangeAccepts | cmd/remotr-agent/sync_run.go:547-594 | what a whole exchange does to the map in memory and the one on disk |
| SyncHistory.ExchangeKeepsAgreement | cmd/remotr-agent/sync_run.go:212-261 | where memory and file agree, they agree after every exchange, failed or not, so a restart resumes with the same map |
| SyncHistory.MapIsAlwaysValid | cmd/remotr-agent/sync_run.go:64-73 | from a valid map, through any run, the map holds only well-formed hashes of known documents |
| SyncHistory.AgreementAfterSuccess | cmd/remotr-agent/sync_run.go:246-260 | after a success they agree if and only if something was written or they agreed before |
| SyncHistory.AckedIsSentOrKnown | cmd/remotr-agent/sync_run.go:222-231 | a processed acknowledgement is for a body in that request or for a hash already held |
| SyncHistory.StepStaysJustified | cmd/remotr-agent/sync_run.go:212-261 | an exchange or restart keeps the entry for a document justified, in memory and in the file, if and only if it does not ask for the document in vain |
| SyncHistory.JustifiedExactlyWhenNeverInVain | cmd/remotr-agent/sync_run.go:147-268 | in every run, restarts and failed loads included, an entry has at every moment a body sent, acknowledged and not asked for since, if and only if no response of the run asks for that document in vain |
| SyncHistory.CleanRestartsSuffice | cmd/remotr-agent/sync_run.go:64-75 | nothing is asked in vain while every restart reads the file or finds nothing in it |
| SyncHistory.VainRequestIsWithheld | cmd/remotr-agent/sync_run.go:239-260 | once a response has asked in vain and a restart has read the file, every request that names the recorded hash leaves the body out without justification |
| SyncHistory.NothingWithheldUnsent | cmd/remotr-agent/sync_run.go:147-268 | unless a response asked for it in vain, a body is left out only after a request carried one with that hash, a response acknowledged it, and no processed response has asked for it since |
| SyncHistory.WithheldWasDelivered | cmd/remotr-agent/sync_run.go:147-268 | with no condition on restarts, what is left out was at least sent and acknowledged |
| SyncHistory.RequestedIsForgotten | cmd/remotr-agent/sync_run.go:239-260 | a restart after a request for a document forgets it if and only if the file did not hold it or the exchange wrote |
| SyncHistory.FailedLoadBreaksJustification | cmd/remotr-agent/sync_run.go:64-75 | a run with a failed load at start in which a document asked for is withheld again |
| SyncHistory.AppliedTripleIsTheResponses | cmd/remotr-agent/sync_run.go:409-415 | the triple becomes the response's if and only if each part is given or was empty before |
| SyncHistory.RetryKeepsTriple | cmd/remotr-agent/sync_run.go:611-616 | a response without an artifact, lease retries included, leaves the triple alone |
| SyncHistory.AppliedTripleIsCoherent | cmd/remotr-agent/sync_run.go:375-416 | over whole runs the triple is that of the response applied last |
| SyncHistory.RequestNamesAppliedArtifact | cmd/remotr-agent/sync_run.go:156-163 | every request and its delivery hash name the artifact applied last |
| SyncHistory.PipelineRunsOnAppliedArtifact | cmd/remotr-agent/sync_run.go:611-616 | the pipeline runs on the artifact of a response, or again on the one applied last: exactly when there are leases and the response says unchanged and names that digest and no other reference |
| SyncHistory.PipelineInputIsSettledEarly | cmd/remotr-agent/sync_run.go:580-611 | nothing before the pipeline in an exchange changes what it runs on |
| SyncHistory.PendingReportIsNotLost | cmd/remotr-agent/sync_run.go:592-609 | a pending report goes only in an exchange that sent it and saw it acknowledged |
| SyncConvergence.HonestReplyExists | cmd/remotr-agent/sync_run.go:212-245 | whatever valid hashes a request names, an honest server has a reply to it |
| SyncConvergence.HonestReplyIsProcessed | cmd/remotr-agent/sync_run.go:212-261 | the agent never rejects an honest reply |
| SyncConvergence.ExchangeSettles | cmd/remotr-agent/sync_run.go:147-261 | one exchange settles a document or leaves the agent without an entry, from which the next settles it |
| SyncConvergence.BodiesOmittedAfterTwo | cmd/remotr-agent/sync_run.go:147-261 | from any map the agent can hold and any store, the request sent in every exchange after the second leaves out both bodies while the server holds exactly the current ones |
| SyncConvergence.LostBodyIsSentAgain | cmd/remotr-agent/sync_run.go:184-207 | two exchanges can be needed: the first request sent withholds a body the server lost and the second carries it |
| SyncConvergence.QuietExchangeChecksInventory | cmd/remotr-agent/sync_run.go:188-245 | with no report pending, the entry for system information stays if and only if the honest server still holds that report |
| SyncConvergence.LostInventoryIsSentAgain | cmd/remotr-agent/sync_run.go:188-245 | after the server lost the inventory, a quiet exchange drops the entry and the next report is sent in full |
| RequirementSet.ValidateRequirements | internal/artifactrequirements/set.go:162-179 | reports the first faulty requirement with its fault, and otherwise records every ID |
| RequirementSet.NoFaults | internal/artifactrequirements/set.go:162-179 | nothing is faulty if and only if every contract is well formed and no ID repeats within or across the lists |
| RequirementSet.FaultMeans | internal/artifactrequirements/set.go:162-179 | which fault a requirement has, by those before it: malformed ID, malformed revision, the same ID with another revision, or with the same |
| RequirementPatterns.IdentifierIsMatched | internal/artifactrequirements/set.go:24 | identifiers are exactly what the pattern matches |
| RequirementPatterns.RevisionIsMatched | internal/artifactrequirements/set.go:25 | revisions are exactly what the pattern matches |
| RequirementSet.ValidateTargetValues | internal/artifactrequirements/set.go:206-218 | accepts exactly allowed values without repetition, and otherwise reports the first bad one |
| RequirementSet.ValidateTarget | internal/artifactrequirements/set.go:190-204 | accepts exactly an absent target or a bounded non-empty one of valid values, and otherwise reports the first fault |
| RequirementSet.Validate | internal/artifactrequirements/set.go:55-76 | accepts exactly the valid sets, and otherwise reports the first fault in the order of the checks |
| RequirementSet.RequirementOrder | internal/artifactrequirements/set.go:181-188 | the comparator is a strict total order, so an unstable sort is deterministic |
| RequirementSet.CanonicalForgetsOrder | internal/artifactrequirements/set.go:84-96 | two sets have the same canonical form if and only if they differ in the order of their lists only |
| RequirementSet.ValidityIgnoresOrder | internal/artifactrequirements/set.go:55-76 | validity depends on the evidence, not on its order |
| Ordering.StringLessMeans | internal/artifactrequirements/set.go:182-187 | a string is less exactly where the first difference decides, or it is a proper beginning |
| RequirementJson.PrintThenParse | internal/artifactrequirements/set.go:97 | a strict parser reads the compact JSON of every valid set back, empty lists being null |
| RequirementMembers.CanonicalBodyReads | internal/artifactrequirements/set.go:30-97 | a reader of any JSON finds in a canonical body exactly the members version, artifactSchemaVersion, target if present, resourceCapabilities and providerCapabilities, in this order, each with its own field of the sorted set |
| RequirementCanonical.EqualBodies | internal/artifactrequirements/set.go:78-98 | valid sets have equal bodies if and only if they agree up to the order of their lists |
| RequirementCanonical.CanonicalIsValid | internal/artifactrequirements/set.go:80-98 | the canonical form of a valid set is valid and canonical |
| RequirementCanonical.CanonicalIsIncreasing | internal/artifactrequirements/set.go:84-96 | the canonical form holds the same evidence, requirements by increasing ID and target values in order |
| RequirementCanonical.StrictParserIsFaithful | internal/artifactrequirements/set.go:124-133 | the strict parser is one of the parsers the decoder theorems allow |
| RequirementCanonical.CanonicalDecoderAccepts | internal/artifactrequirements/set.go:112-149 | bytes are accepted with a set if and only if they are the printed form of that valid, sorted set and the digest is theirs |
| RequirementCanonical.EncodeThenDecode | internal/artifactrequirements/set.go:101-149 | decoding the canonical body under its digest gives the sorted form of the set |
| RequirementCanonical.PersistedDecoderAccepts | internal/artifactrequirements/set.go:116-149 | the lenient decoder accepts a rewritten text if and only if it holds the same evidence, short of a digest collision |
| RequirementCanonical.CanonicalBodyOf | internal/artifactrequirements/set.go:78-98 | sorting copies in place with an unstable sort prints the canonical body, whose members are stated above, and leaves the caller's slices alone |
| VariantSelection.ContractsAnswer | internal/artifactvariant/compatibility.go:50-53 | the contract map answers exactly as the document does |
| VariantSelection.MissingIsExact | internal/artifactvariant/compatibility.go:71-99 | a report lists exactly the schema and contracts that the document lacks, sorted, no ID twice |
| VariantSelection.MissingRequirements | internal/artifactvariant/compatibility.go:71-99 | computes that report, or none for a variant whose evidence is inconsistent |
| VariantSelection.TopCandidates | internal/artifactvariant/compatibility.go:25-39 | one pass keeps, in order, exactly the eligible variants of the greatest specificity |
| VariantSelection.BestSpecificityIsMax | internal/artifactvariant/compatibility.go:26-42 | the specificity kept is the maximum, and negative exactly when nothing is eligible |
| VariantSelection.SortStable | internal/artifactvariant/compatibility.go:43-45 | the sort is descending by schema version and stable |
| VariantSelection.SelectHighestCompatible | internal/artifactvariant/compatibility.go:21-69 | the result is the declarative outcome: the first of greatest schema among those of top specificity lacking nothing, or the best blocked report |
| VariantSelection.OutcomeIsUnique | internal/artifactvariant/compatibility.go:21-69 | that outcome is determined by the inputs |
| VariantSelection.SelectedExactlyWhenSatisfied | internal/artifactvariant/compatibility.go:55-68 | something is selected if and only if a well-formed variant of the greatest specificity lacks nothing |
| VariantSelection.BlockedReportIsUnique | internal/artifactvariant/compatibility.go:55-68 | the blocked report is that of one candidate with the fewest missing entries |
| VariantSelection.SelectionIsMonotone | internal/artifactvariant/compatibility.go:46-99 | more schemas or capabilities never turn a selection into a block, lower its schema version, or lengthen a report |
| SelectionMeaning.EligibleExactlyWhenFits | internal/artifactvariant/compatibility.go:128-149 | a variant takes part if and only if its requirements are valid and each dimension of its target names a value that the document reports as its distro or its architecture |
| SelectionMeaning.SaysIsListed | internal/artifactvariant/compatibility.go:132-135 | where each key has one fact, the document reports exactly the facts it lists |
| SelectionMeaning.SpecificityCountsLimits | internal/artifactvariant/compatibility.go:114-126 | specificity is the number of dimensions that a target limits |
| SelectionMeaning.MissingIsLacked | internal/artifactvariant/compatibility.go:79-98 | the report lists, by increasing ID, exactly the schema and contracts that the lists of the document do not hold |
| SelectionMeaning.OutcomeMeans | internal/artifactvariant/compatibility.go:21-69 | the selection told from variants, facts and lists: what is selected, what is reported, and target:artifact exactly when nothing fits |
| SelectionMeaning.SelectedWhenNothingLacks | internal/artifactvariant/compatibility.go:55-68 | something is selected if and only if a consistent variant that fits, and that no fitting one is more specific than, lacks nothing |
| TaskRunner.BoundedConcurrency | desktop/workspace_service.go:190-214 | in every schedule at most max(1, limit) tasks run at once and none starts twice |
| TaskRunner.ReturnsWhenAllDone | desktop/workspace_service.go:190-214 | on return no task runs and all slots are free; uncancelled, every task has run exactly once |
| TaskRunner.SchedulesTerminate | desktop/workspace_service.go:190-214 | a schedule has at most five steps a task and two more |
| TaskRunner.NoDeadlock | desktop/workspace_service.go:190-214 | until the call returns some step other than a cancellation is possible |
| Contexts.Context.Cancel | desktop/session_manager.go:88-92 | the first cause given to a context stays |
| SessionFence.SessionManager.BeginSwitch | desktop/session_manager.go:88-102 | supersedes the previous context and resets everything but the new profile and generation |
| SessionFence.SessionManager.CompleteSwitch | desktop/session_manager.go:106-134 | the locked section after the connector, in each of its four branches; that it connects when it should is stated below |
| SessionFence.SessionManager.UpdateLocalState | desktop/session_manager.go:181-189 | writes the local state exactly when connected |
| SessionFence.SessionManager.CaptureSession | desktop/session_manager.go:145-153 | gives client, context and generation exactly when connected with both |
| SessionFence.SessionManager.FinishAction | desktop/session_manager.go:163-178 | the error an action returns, by its causes, the final check and its own failure |
| SessionFence.CompletionIsToldTruly | desktop/session_manager.go:106-134 | a switch connects and returns no error if and only if it is the newest, its connector gave a session and its caller had not given up; it fails with the connector's message or else the caller's reason; it is obsolete if and only if it is not the newest, and then changes nothing |
| SessionFence.LatestProfileWins | desktop/session_manager.go:79-135 | in every interleaving the whole state is what the newest call makes of it: connecting, connected with its session, or failed with its message; every older context is cancelled |
| SessionFence.GenerationCountsSwitches | desktop/session_manager.go:92-93 | generations agree at two moments if and only if no switch began between them |
| SessionFence.ConnectedSessionStays | desktop/session_manager.go:79-135 | without a new switch, a connected session changes in its local state only |
| SessionFence.CapturedIsTheSession | desktop/session_manager.go:145-153 | an action starts if and only if the newest call is connected and has a client, and takes that client |
| SessionFence.StaleResultsAreNeverDelivered | desktop/session_manager.go:137-179 | an action gives its own result if and only if it was not cancelled and no switch began from capture to check; then its session is the one shown; otherwise it gives the cause or is obsolete |
| EndpointDetail.EndpointDetailService.BeginSelection | desktop/endpoint_detail_service.go:95-109 | takes the next generation and supersedes the context before |
| EndpointDetail.EndpointDetailService.CompleteSection | desktop/endpoint_detail_service.go:118-123 | current exactly with the newest generation, which gives up its cancel function |
| EndpointDetail.EndpointDetailService.FinishSelection | desktop/endpoint_detail_service.go:124-133 | obsolete, cancelled, or what was loaded |
| EndpointDetail.NewestUntilOvertaken | desktop/endpoint_detail_service.go:95-109 | a selection is the newest for exactly as long as no other begins |
| EndpointDetail.ObsoleteExactlyWhenOvertaken | desktop/endpoint_detail_service.go:70-219 | a load fails as obsolete if and only if another began before it completed; otherwise with its caller's first reason if there is one, and otherwise it gives exactly what its ID, refusal and replies call for, each reply in its own section |
| EndpointDetail.LoadsAreShownInOrder | desktop/endpoint_detail_service.go:70-133 | a load that returns a view completed before any later one began |
| EndpointDetail.ViewIsOfTheEndpoint | desktop/endpoint_detail_service.go:168-192 | whatever happens, a view that is given is of the endpoint asked for |
| EndpointDetail.OvertakenIsCancelled | desktop/endpoint_detail_service.go:100-107 | a load that has not completed when another begins is cancelled |
| ChangeControl.KeyIsInjective | desktop/change_control_service.go:332 | keys are equal if and only if action and target are |
| ChangeControl.ChangeControlService.BeginAction | desktop/change_control_service.go:331-342 | refuses exactly a key in flight, and otherwise adds it |
| ChangeControl.ChangeControlService.Release | desktop/change_control_service.go:343-347 | removes that key and nothing else |
| ChangeControl.ChangeControlService.ChooseBaselineAdoptionPlan | desktop/change_control_service.go:271-287 | the plan shown is the one pending, in place of any other |
| ChangeControl.ChangeControlService.PlanMatches | desktop/change_control_service.go:308-314 | true exactly when this plan for this fleet is pending |
| ChangeControl.ChangeControlService.SpendPlan | desktop/change_control_service.go:323-327 | clears this plan and leaves any other |
| ChangeControl.ChangeControlService.Clear | desktop/change_control_service.go:128-135 | drops the plan and keeps what is in flight |
| ChangeControl.NextKeepsExclusive | desktop/change_control_service.go:331-348 | every step keeps: requests in flight have different keys, and the set holds exactly those |
| ChangeControl.NextKeepsSingleUse | desktop/change_control_service.go:289-329 | every step keeps: no plan has two holders, and none adopted is pending |
| ChangeControl.EveryInterleaving | desktop/change_control_service.go:271-348 | both hold at every moment of every interleaving |
| ChangeControl.RefusedExactlyWhenInFlight | desktop/change_control_service.go:331-342 | a request is refused if and only if one with the same action and target is in flight |
| ChangeControl.InFlightCanStep | desktop/change_control_service.go:302-306 | a request in flight can always move on towards its release |
| ChangeControl.PlanIsSingleUse | desktop/change_control_service.go:289-329 | an adopted plan was pending for its own fleet at the check, no other request adopts it, and it is not pending again |
| ChangeControl.AnswerDecides | desktop/change_control_service.go:316-322 | a reply makes the adoption if and only if it names one with an ID and of the request's fleet |
| ChangeControl.AdoptedWasAnswered | desktop/change_control_service.go:316-328 | an adoption succeeds only by such a reply |
| ChangeControl.AnsweredIsAdopted | desktop/change_control_service.go:316-328 | and after such a reply its only end is success |
| ChangeControl.SentAgainOnlyAfterFailure | desktop/change_control_service.go:316-327 | a plan goes to the server again only after the request that sent it failed |
| ChangeControl.SentExactlyWhenPending | desktop/change_control_service.go:302-316 | whatever comes between its beginning and its check, a request is sent if and only if its plan was pending at the beginning, or was chosen after it, and nobody cleared or replaced it since |
| TokenSlot.ZeroBytes | desktop/enrollment_token_service.go:99-103 | every byte of the buffer is zero |
| TokenSlot.DeploymentTokenService.BeginCreate | desktop/deployment_token_service.go:112-133 | refuses exactly a malformed label, fleet or lifetime, and while creating or while a token is held |
| TokenSlot.DeploymentTokenService.Store | desktop/deployment_token_service.go:158-162 | the slot holds token and label of the reply; the buffer it replaced is wiped, like all before it |
| TokenSlot.DeploymentTokenService.EndCreate | desktop/deployment_token_service.go:134-138 | only the flag goes |
| TokenSlot.DeploymentTokenService.Clear | desktop/deployment_token_service.go:246-255 | token and label go and the buffer is wiped, like all before it |
| TokenSlot.DeploymentTokenService.Copy | desktop/deployment_token_service.go:197-210 | hands out exactly the bytes held, or says why not |
| TokenSlot.DeploymentTokenService.Save | desktop/deployment_token_service.go:212-244 | writes exactly the bytes held and a line feed, under the label shown only, and changes nothing |
| TokenSlot.EnrollmentTokenService.Replace | desktop/enrollment_token_service.go:92-97 | the slot holds the new bytes and every buffer that left it is zero |
| TokenSlot.EnrollmentTokenService.Clear | desktop/enrollment_token_service.go:85-90 | the slot is empty and every buffer that left it is zero |
| TokenSlot.EveryInterleaving | desktop/deployment_token_service.go:108-172 | at most one creation is active, the flag says whether one is, and until it stores the slot is empty |
| TokenSlot.StoreFindsEmptySlot | desktop/deployment_token_service.go:158-162 | no token is ever overwritten |
| TokenSlot.StoresExactlyComplete | desktop/deployment_token_service.go:147-162 | a reply is stored if and only if it has a token and an expiry and names the label and fleet its creation began with |
| TokenSlot.HeldIsLastComplete | desktop/deployment_token_service.go:158-162 | the slot holds a reply if and only if it was complete and nobody has cleared the slot since |
| TokenSlot.SlotIsOneReply | desktop/deployment_token_service.go:108-255 | token and label are those of the reply stored last and not cleared since, or both empty |
| TokenSlot.SavedIsTheRepliedToken | desktop/deployment_token_service.go:212-244 | what saving gives in every case: the first obstacle, a cancelled dialog, or the token of the held reply and a line feed |
| TokenSlot.RefusedExactlyWhenBusy | desktop/deployment_token_service.go:112-133 | over whole runs a creation is refused at once if and only if its label, fleet or lifetime is malformed, a token is held, or another creation is active |
| ShellQuote.ScanQuote | cmd/remotr/cli_replay.go:166-174 | a shell reads a quoted word back as that word, whatever follows |
| ShellQuote.QuotingRoundTrips | cmd/remotr/cli_replay.go:111-118 | tokenising the joined quoted words gives back exactly the list if no word has a NUL, and fails otherwise |
| ShellQuote.BareWordReads | cmd/remotr/cli_replay.go:108 | a word printed bare reads as itself if and only if it is not empty and has literal characters only |
| ShellQuote.PartsRoundTrip | cmd/remotr/cli_replay.go:104-118 | a line of bare and quoted parts reads back as their texts if none has a NUL and fails otherwise, when the bare ones read as themselves |
| ShellQuote.QuotingIsInjective | cmd/remotr/cli_replay.go:166-191 | different lists of arguments give different lines |
| ShellQuote.QuotedUnlessSafe | cmd/remotr/cli_replay.go:166-191 | a word is printed bare if and only if it is not empty and of the safe ASCII characters |
| ShellQuote.EscapeReplacesQuotes | cmd/remotr/cli_replay.go:173 | every single quote and nothing else is replaced |
| ReplayCommand.FormatSetFlagArgs | cmd/remotr/cli_replay.go:134-164 | prints the parts of a flag, name bare and values quoted; how they are read is stated below |
| ReplayCommand.SortedStrings | cmd/remotr/cli_replay.go:193-197 | sorts a copy |
| ReplayCommand.MapKeys | cmd/remotr/cli_replay.go:199-208 | lists every key once, in whatever order the map is walked |
| ReplayCommand.AppendLevel | cmd/remotr/cli_replay.go:94-101 | the flags of one command, sorted, without the skipped and the unset |
| ReplayCommand.AppendInjected | cmd/remotr/cli_replay.go:104-109 | the injected flags that are not set, sorted, whatever the order of the map |
| ReplayCommand.FormatReplayCommand | cmd/remotr/cli_replay.go:66-119 | for all names and values, the line is the executable, the flags of the root, the path, the flags below it, the injected flags, positionals and arguments, names bare and values quoted |
| ReplayCommand.ReplayRoundTrips | cmd/remotr/cli_replay.go:66-119 | with names that read as themselves, a shell reads the line back as the arguments it stands for if none has a NUL, and fails otherwise |
| ReplayCommand.FlagOrderIsForgotten | cmd/remotr/cli_replay.go:79-86 | the line does not depend on the order in which a command lists its flags |
| Text.TrimSpaceCuts | cmd/remotr/cli_replay.go:150-158 | trimming cuts white space off both ends, and all of it |
| ReplayReading.FlagIsRead | cmd/remotr/cli_replay.go:134-164 | what is printed for a flag is read as its value: a switch if it is on, the items of a list in order, any other value once unless blank |
| ReplayReading.ReplayIsReadAsMeant | cmd/remotr/cli_replay.go:66-119 | reading the arguments gives every set flag exactly its value, no other flag anything, and path, positionals and arguments in order, if and only if no positional or argument looks like a flag |
| ReplayReading.ReplayRoundTripsThroughShell | cmd/remotr/cli_replay.go:66-119 | from end to end, a shell and then the command read the line as it was meant |
| Utf8Text.SanitizedIsValid | desktop/read_export_service.go:634 | the sanitised text is valid UTF-8 |
| Utf8Text.ValidIsEncoded | desktop/read_export_service.go:639 | the texts called valid are exactly the encodings of lists of scalar values |
| Utf8Text.ReplacementIsEncoded | desktop/read_export_service.go:634 | the replacement is the encoding of U+FFFD |
| Utf8Text.SanitizeKeepsExactlyValid | desktop/read_export_service.go:634 | sanitising leaves a text alone if and only if it is valid |
| Utf8Text.SanitizeKeepsPrefix | desktop/read_export_service.go:634 | valid text in front stays as it is |
| Utf8Text.RunBecomesOne | desktop/read_export_service.go:634 | a whole run of invalid bytes becomes one replacement character |
| Utf8Text.FitIsLongest | desktop/read_export_service.go:638-642 | taking whole characters that fit gives the longest valid prefix within the limit, at most three bytes short of it |
| Utf8Text.BoundedIsLongest | desktop/read_export_service.go:633-643 | the bounded text is valid, within the limit, the longest such prefix of the sanitised text, and the input itself if and only if that is valid and fits |
| Utf8Text.BoundedReadExportText | desktop/read_export_service.go:633-643 | trimming byte by byte ends with exactly the whole characters that fit |
| Utf8Text.BoundedStrings | desktop/read_export_service.go:529-535 | at most 500 texts, each bounded to 2048 bytes, in an array of their own; the input is not written |

## Left out

- The pipeline, reboot and network state, crons, upgrades, diagnostics, compliance and firewall reports of an exchange: they do not touch what the theorems are about. The outcome of the pipeline is an input.
- The throttler and the clock: when a system report is due is an input, and the time it was sent is not kept.
- SyncRun.StateFile.SaveState: takes a save to be all or nothing, because what a write that fails part-way leaves behind is up to the file system. The directory layout is left out.
- SHA-256 and canonical JSON of Sync documents: parameters. Only that a digest is well formed is assumed.
- RequirementCanonical.PersistedDecoderAccepts: white space, key order, escapes and number forms that Go's JSON decoder allows are behind an abstract parser that is only asked to read canonical texts back.
- RequirementJson.PrintThenParse: for valid sets only, whose strings need no escapes.
- `cloneVariant` and aliasing of the bytes of a variant: variants are values, so a copy is the original.
- Checks of a capability document that selection does not depend on (sizes, features, fact vocabularies, agent version, digest) are one flag. That a fact's value is consistent is not needed.
- `sort.Slice` and `sort.SliceStable` themselves: `Ordering.SortSlice` promises what the first promises and is written with an insertion sort.
- Wrap-around of the 64-bit generation counters of the session and endpoint detail services.
- Memory model and mutex fairness: each locked section is one atomic step.
- SessionFence.StaleResultsAreNeverDelivered: the action's own context is an input, of which it is assumed that it is cancelled with its session's context.
- `Snapshot` and the cloning of identity and workspace: they are values. Profile validation is left out.
- EndpointDetail: the mapping of report bodies into view rows, limits on their number, and system evidence, which is part of the endpoint record.
- ChangeControl: the server calls and checks of the other actions between their begin and their release, rollout specifications, and the refusals before a request begins. Plan identifiers are random and taken to be new.
- In-flight sets of the other services, whose clearing empties the set in mid-flight.
- TokenSlot: a missing client is refused before anything else and is not modelled. Strings cannot be wiped, so the copies that Go makes of a token as a string remain; only buffers are claimed to be zero. Clipboard, dialog and file are inputs.
- The recording of replay values (`replayActivate`, `replayAddPositional`, `replayAddFlag`) and what the command-line library does beyond reading long flags and operands: a flag of one hyphen or with an equals sign, which a replay line never has, is an error to the reader here, and commands on the path are operands.
- ReplayCommand.ReplayRoundTrips: the source prints names of commands and flags bare, so names that a shell would not read as themselves are not claimed to be read back. What is printed for them is stated.
- Double quotes, expansions, operators and comments in a shell line: the tokenizer refuses a line with any of them bare, and no quoted word has one.
- A negative limit for bounded text, on which the source would panic; its callers pass constants.
