# Herdforge: a Dafny model of its coordination core

Herdforge drives a fleet of coding agents from one command, `herd`. This project models the
parts of it that have to be right while processes compete, die and are restarted, and proves
what those parts promise. One module follows one component:

| module | component |
|---|---|
| `AdmissionLease`, `AdmissionProtocol` | the host admission lease (its text, its three locked operations) and the competing reviewer launchers that share it |
| `Capacity` | the reviewer cap, the admission decision, and the ceiling the provider router adds |
| `MailPaging`, `MailGrowth` | bounded, resumable reading of the control mailbox and the feedback store, and sessions while both grow |
| `IntegrationCleanup` | retiring the worktrees and branches of a landed integration |
| `RetainedEvidence` | the write-once evidence files of an integration |
| `IntentKey`, `FenceEvidence` | keys of provider transitions, and the evidence about fenced operations |
| `Utf8`, `ProcessDigest` | bounding text at character boundaries, and the bounded sweep over agent panes |
| `Callbacks` | what the mailbox says about one candidate |
| `ReviewProjection` | the review evidence shown for one task |
| `RecoveryReceipt` | the compensated publication of a recovery receipt |
| `Text`, `Sorting` | Go string and number primitives, and the contract of an unstable sort |

Code that updates state in place is modelled by methods and classes, each proved against a
specification function or predicate. Concurrent code is a transition system: one step per
locked operation, system call or outside event, with theorems over every execution. Time,
process probes, file-system failures, reads from other programs, letter case and number and
date formats that are foreign code are inputs or parameters of the model.

Five of the promises do not hold of the code in full. For each there is a concrete
counterexample and a theorem that says exactly when the promise does hold:

- The reviewer cap holds until a launch outlives its lease (`AdmissionProtocol.ReviewerCap`),
  and a step outlives a lease if and only if the run can go on from it, with no further
  launch doing so, to more reviewers than the limit (`OverrunExactly`). Both ways to outlive
  a lease happen on every host (`LateSpawnHappens`, `SlowListingHappens`), and neither is
  possible before the TTL is over (`OverrunNeedsExpiry`).
- An ADMIT offers at least one slot exactly when the router's number is unknown or not
  negative; a negative number in the cache file is applied as it stands.
- An undisturbed cleanup re-run completes, from any state of any run, exactly when the gate is
  open and each source is unclaimed elsewhere and either whole and clean at the candidate, or
  down to its branch at the candidate, or gone (`IntegrationCleanup.ReRunConverges`). Somebody
  else's commit spoils that; so does the driver itself, but only by dying between
  `git worktree remove` emptying a directory and unregistering it (`UntouchedReRun`).
- A retained-evidence success survives a power loss exactly when the directory entry had been
  written out, which finding an equal earlier file does not wait for.
- A recovery publication whose local write is not left half done is all or nothing for every
  way filing can end exactly when the session is new, or its entry refuses to be replaced. A
  local write that fails after its rename is all or nothing only when the receipt is the
  prior one or already on file.

Two comments in the source say more than the code does, and the model follows the code: the
error line is described as valid UTF-8, but a short malformed message is passed on unchanged
(`Utf8.ErrDetail`); and the publication is described as never half-issued, but the first
write's late failure is returned without compensation (`RecoveryReceipt.AllOrNothingExactly`).

## Model

| member | source | states |
|---|---|---|
| `AdmissionLease.ParseLease` | cmd/herd/capacity.go:970-994 | the parsing loop over `key=value` words computes `Parse`: later words win, a missing or unusable token, pid or time refuses, an unusable TTL reads as absent |
| `AdmissionLease.ParseExactly` | cmd/herd/capacity.go:970-994 | a text is a record exactly when its last token, pid and taken words give a token, a positive int64 and a time; the TTL is zero unless present and readable |
| `AdmissionLease.PrintedLine` | cmd/herd/capacity.go:892-906 | the line that is written, word by word |
| `AdmissionLease.ParsedIsPrintable` | cmd/herd/capacity.go:970-994 | every record that parses can be printed again as one line of five words |
| `AdmissionLease.PrintParse` | cmd/herd/capacity.go:892-906 | parsing the printed form of any printable record gives the record back |
| `AdmissionLease.PhaseRewriteKeepsIdentity` | cmd/herd/capacity.go:1028-1053 | rewriting the phase of whatever text was read keeps token, pid, taken and ttl through print and parse |
| `AdmissionLease.Store.WriteExclusive` | cmd/herd/capacity.go:892-906 | writes a fresh capacity-phase record exactly when the file does not exist |
| `AdmissionLease.HoldExactly` | cmd/herd/capacity.go:907-945 | who gets the lease, in terms of the stored record: free, older than its TTL or ten minutes, or of a dead owner in the capacity or candidate phase |
| `AdmissionLease.Store.HoldLease` | cmd/herd/capacity.go:867-945 | the same of the file, which then holds the caller's token, pid, time and ttl in the capacity phase, and is otherwise untouched; an unreadable file is held forever |
| `AdmissionLease.Store.UpdatePhase` | cmd/herd/capacity.go:1028-1053 | changes only the phase, and only under the stored token |
| `AdmissionLease.Store.ReleaseLease` | cmd/herd/capacity.go:1061-1076 | removes the lease only under the stored token; a stale release changes nothing |
| `AdmissionProtocol.RunIsSafe` | cmd/herd/capacity.go:867-945 | every reachable state keeps pids and tokens apart and every live process within its TTL in possession of the record it wrote |
| `AdmissionProtocol.MutualExclusion` | cmd/herd/capacity.go:867-945 | at most one live process has an unreleased token within its effective TTL, and the stored record carries that token |
| `AdmissionProtocol.OwnershipJustified` | cmd/herd/capacity.go:892-939 | the stored token changes only by its owner's release or by a just takeover, an unreadable file never changes, and otherwise only the owner's phase update touches the record |
| `AdmissionProtocol.DeadOwnerIsReplaced` | cmd/herd/capacity.go:926-940 | from any reachable state, an idle launcher gets the early-phase lease of a dead process at any clock value |
| `AdmissionProtocol.ReleaseFreesLease` | cmd/herd/capacity.go:1061-1076 | an owner's release leaves the lease free for whoever asks next |
| `AdmissionProtocol.RefusalFreesLease` | cmd/herd/capacity.go:778-803 | a launcher refused by the census, or finding its lease gone, leaves behind a free lease or one it does not own, untouched |
| `AdmissionProtocol.LaunchIsChecked` | cmd/herd/review_pool.go:532-566 | a launch is admitted only below the limit, cleared only under its own stored lease with the spawn phase recorded, and started only when cleared |
| `AdmissionProtocol.StepKeepsFlights` | cmd/herd/capacity.go:1028-1053 | while no launch outlives its lease, the lease of every reviewer in flight is stored with the spawn phase, out of reach of early reclaim |
| `AdmissionProtocol.StepKeepsCap` | cmd/herd/capacity.go:778-803 | every step keeps census plus in-flight reviewers within the limit, with a slot in hand for an admitted lease holder |
| `AdmissionProtocol.ReviewerCap` | cmd/herd/capacity.go:778-803 | with any number of launchers, crashes and reclaims at any speed, census plus in-flight reviewers never exceed the derived limit until a launch outlives its lease |
| `AdmissionProtocol.OverrunNeedsExpiry` | cmd/herd/capacity.go:913-939 | a launch can only outlive its lease after the TTL is over; early reclaim never reaches a recorded spawn phase |
| `AdmissionProtocol.TimelyReviewerCap` | cmd/herd/capacity.go:704-717 | the cap holds throughout when agents are started and listed within the TTL |
| `AdmissionProtocol.OverrunExactly` | cmd/herd/capacity.go:913-939 | from any state reached without one, a step outlives a lease if and only if some continuation in which no further launch does exceeds the limit, on every host |
| `AdmissionProtocol.LateSpawnHappens` | cmd/herd/review_pool.go:532-566 | counterexample on every host: an agent is started after its lease was taken over |
| `AdmissionProtocol.SlowListingHappens` | cmd/herd/capacity.go:913-939 | counterexample on every host: an expired lease is taken over while its reviewer is not yet listed |
| `Capacity.LimitIsLargest` | cmd/herd/capacity.go:591-604 | the limit is the largest n with n·per·100 ≤ total·pct, or 1: the two truncating divisions lose nothing |
| `Capacity.AdmitExactly` | cmd/herd/capacity.go:315-402 | ADMIT exactly when every gate is clear, the swap gate restated without division; unmeasured numbers clear theirs, an unread census or unasked policy never does |
| `Capacity.ReasonExactly` | cmd/herd/capacity.go:315-402 | the reason given is that of the first gate, in the source's order, that is not clear |
| `Capacity.ParseLiveCap` | cmd/herd/launchable.go:196-211 | each number is that of the last word of its prefix that parses; both are needed |
| `Capacity.RowExactly` | cmd/herd/launchable.go:152-211 | what one line of the report offers: nothing, none, one, or the difference of the last numbers it tells |
| `Capacity.ParseDoctorSurfaces` | cmd/herd/launchable.go:152-194 | known exactly when a row is recognised, and then the sum over surfaces of the best row of each |
| `Capacity.RouterSlotsIgnoreOrder` | cmd/herd/launchable.go:152-194 | reports with the same set of rows, in any order and with any repetition, give the same slots |
| `Capacity.Record.ApplyLaunchable` | cmd/herd/launchable.go:219-238 | the in-place update of the decision record by the router's ceiling |
| `Capacity.FinalDecisionExactly` | cmd/herd/launchable.go:219-238 | the whole final decision: the smaller ceiling is available, zero router slots turn an ADMIT into a refusal, and nothing else changes |
| `Capacity.FinalAdmitOffersASlot` | cmd/herd/launchable.go:219-238 | a final ADMIT stays within both ceilings, and offers at least one slot exactly when the router's number is unknown or not negative |
| `Capacity.NegativeCacheAdmits` | cmd/herd/launchable.go:88-105 | counterexample: a cached reading of -1 admits with -1 slots |
| `MailPaging.ReadFeedback` | cmd/herd/mail_bounds.go:168-307 | the scan loop returns the longest page that fits with its exact resume mark and digest; any undecodable or out-of-order line anywhere refuses, and every refusal names a fault that is there |
| `MailPaging.ReadControl` | pkg/mail/bounded.go:341-523 | the same for the control mailbox, which quarantines undecodable lines and fails only when that fails; the bytes used are the sum of what it returns |
| `MailPaging.Request.Validate` | cmd/herd/mail_bounds.go:65-94 | accepts exactly the three ranges and replaces only zeros by defaults |
| `MailPaging.ReadInbox` | cmd/herd/mail_bounds.go:105-155 | there is a response exactly when no feedback line is undecodable, undecodable control lines were quarantined, and both stores have a page to give; it is then the composed page |
| `MailPaging.PageUnique` | cmd/herd/mail_bounds.go:224-261 | store, cursor and room determine the page |
| `MailPaging.RefusalIsFinal` | cmd/herd/mail_bounds.go:178-189 | a justified refusal and a successful read exclude each other |
| `MailPaging.InboxWithinBudget` | cmd/herd/mail_bounds.go:105-155 | every response is within the shared record limit and byte budget, reports exactly the size it returns, and holds no feedback while control records remain |
| `MailPaging.InboxIsFull` | cmd/herd/mail_bounds.go:105-155 | a response that leaves something behind has reached the record limit, or the next record would not have fitted the byte budget |
| `MailPaging.PageAdvances` | cmd/herd/mail_bounds.go:262-304 | the mark a page hands on leaves exactly the records it did not return |
| `MailPaging.InboxSplitsRest` | cmd/herd/mail_bounds.go:105-155 | a response is a front part of what is left, its cursor is accepted again, and it is truncated exactly when something remains |
| `MailPaging.InboxProgress` | cmd/herd/mail_bounds.go:224-261 | while anything is left and each record fits the budget, a response returns at least one record |
| `MailPaging.InboxExists` | cmd/herd/mail_bounds.go:105-155 | consistent stores of small records are never refused |
| `MailPaging.SessionDrains` | cmd/herd/mail_bounds.go:105-155 | a client following its cursors has received a front part of everything, all of it exactly when told so, nothing lost or repeated, within as many pages as records plus one |
| `MailPaging.SessionCompletes` | cmd/herd/mail_bounds.go:105-155 | such a session can always be continued to its end |
| `MailPaging.FreshClientGetsEverything` | cmd/herd/mail_bounds.go:105-155 | a client that starts from nothing receives all control records addressed to it, then the whole feedback store |
| `MailGrowth.LiveDrains` | cmd/herd/mail_bounds.go:168-307 | one store that is appended to and acknowledged between pages: what was received is exactly the front of what is now due, none lost or repeated, and truncated says exactly whether anything is left |
| `MailGrowth.LiveGoesOn` | cmd/herd/mail_bounds.go:235-257 | after any such growth by small records the next read succeeds |
| `MailGrowth.LiveSessionDrains` | cmd/herd/mail_bounds.go:105-155 | the same for both stores of a session, which is told it has everything exactly when it has |
| `MailPaging.ResumeExactly` | pkg/mail/bounded.go:171-183 | a cursor is accepted against a well-formed store exactly when the store still starts with the digested content of the records it has passed |
| `MailPaging.FeedbackResumeExactly` | cmd/herd/mail_bounds.go:235-257 | a feedback cursor is accepted exactly when all records up to its own are unchanged apart from `read_at`: appends and acknowledgements keep it, truncation, renumbering, removal and edits refuse it |
| `MailPaging.ControlResumeExactly` | pkg/mail/bounded.go:185-198 | a control cursor is accepted exactly when every envelope up to its own is the same in every field but its acknowledgement |
| `MailPaging.ControlPending` | pkg/mail/bounded.go:462-475 | what is pending of a control store is, in order, the envelopes behind the cursor whose recipient is the reader or everybody |
| `MailPaging.FeedbackPending` | cmd/herd/mail_bounds.go:249-272 | what is pending of a feedback store is, in order, every record behind the cursor in the form the reader gets |
| `IntegrationCleanup.CheckSource` | cmd/herd/integration_native_cleanup.go:184-235 | the two loops over registrations, in any order git lists them, decide present, gone or refused as declared |
| `IntegrationCleanup.SourcePresentExactly` | cmd/herd/integration_native_cleanup.go:184-235 | present, gone or refused, in terms of the registrations, directories and branches alone |
| `IntegrationCleanup.CheckCleanup` | cmd/herd/integration_native_cleanup.go:77-154 | the gate opens exactly when the landing is proven, no standing worktree is named, no live lease or missing ownership fences a source, and every agent of a known census is outside both |
| `IntegrationCleanup.DeletedAtCandidate` | cmd/herd/integration_native_cleanup.go:236-251 | in every interleaving with crashes and outside commits a branch disappears only by the driver's deletion of its own branch at exactly the candidate |
| `IntegrationCleanup.StepIsGated` | cmd/herd/integration_native.go:259-269 | however the gate changes meanwhile, no step goes past one of the driver's checks, marks the board, touches the task's directory or enters the integration source unless that check holds at that step |
| `IntegrationCleanup.Authorised` | cmd/herd/integration_native.go:259-269 | nothing is touched unless, since the driver was last started, it found the gate open and put the task to done |
| `IntegrationCleanup.SecondAuthorised` | cmd/herd/integration_native_cleanup.go:292-313 | the integration source is worked on only after its proof and ownership were found |
| `IntegrationCleanup.FirstComesFirst` | cmd/herd/integration_native.go:259-269 | and only after the task's own source was found gone or its branch was deleted |
| `IntegrationCleanup.AdvancedBranchSurvives` | cmd/herd/integration_native_cleanup.go:236-251 | a branch somebody moved past the candidate survives everything that follows, until somebody puts it back to the candidate |
| `IntegrationCleanup.DirtyDirectorySurvives` | cmd/herd/integration_native_cleanup.go:292-313 | a directory with changes that is not already being removed is never removed |
| `IntegrationCleanup.CrashesLeaveResidue` | cmd/herd/integration_native_cleanup.go:163-251 | however often the driver dies, and whatever others do elsewhere, each source is found at one of five stages |
| `IntegrationCleanup.RunOutcome` | cmd/herd/integration_native.go:259-269 | from any world at all one undisturbed run finishes, with `CleanupDone`, exactly when the gate is open and both sources are ready, and stops otherwise |
| `IntegrationCleanup.ReRunConverges` | cmd/herd/integration_native.go:189-197 | the same from every state of every run, whatever was committed, edited or fenced meanwhile and wherever the driver died |
| `IntegrationCleanup.UntouchedReRun` | cmd/herd/integration_native_cleanup.go:236-313 | while nobody touches the two sources, a re-run completes exactly when the gate is open and no removal died between emptying a directory and unregistering it |
| `IntegrationCleanup.TornRemovalStops` | cmd/herd/integration_native_cleanup.go:184-235 | counterexample for every job: dying in that window leaves a state no re-run gets past |
| `IntegrationCleanup.OutsideCommitStops` | cmd/herd/integration_native_cleanup.go:184-235 | counterexample for every job: one commit on the task branch stops every re-run |
| `IntegrationCleanup.Repository.RemoveExactSource` | cmd/herd/integration_native_cleanup.go:236-251 | the method performs exactly the driver's steps for one source |
| `IntegrationCleanup.Repository.Cleanup` | cmd/herd/integration_native.go:259-269 | gate, observe, execute, read back: the method ends where the driver's steps end, and is done exactly when the world it started from could be completed |
| `RetainedEvidence.Evidence.Retain` | cmd/herd/integration_native.go:331-375 | one call is a sequence of the machine's steps; which of its operations fail and what was there decide its outcome, and a failed call has changed nothing visible unless it failed after linking |
| `RetainedEvidence.RunKeepsInv` | cmd/herd/integration_native.go:331-375 | with any writers, deaths and power losses, linked files are complete, unshared and on disk in full |
| `RetainedEvidence.WritersWereCalled` | cmd/herd/integration_native.go:331-375 | what the path shows is always some caller's whole value |
| `RetainedEvidence.WriteOnce` | cmd/herd/integration_native.go:331-375 | the first value to appear stays; once its entry is on disk, also across power losses |
| `RetainedEvidence.SuccessStays` | cmd/herd/integration_native.go:331-375 | every successful call leaves its own value visible from then on |
| `RetainedEvidence.PowerLossExactly` | cmd/herd/integration_native.go:339-345 | a success survives a power loss exactly when some earlier step of the run had synced the directory or the system had written the entry out |
| `RetainedEvidence.SamePriorCanVanish` | cmd/herd/integration_native.go:339-345 | counterexample: a success that found equal prior evidence is lost with it |
| `IntentKey.Parse` | cmd/herd/fence_ops.go:159-199 | the right-to-left loop returns the identity at the last acceptable delimiter, or none when none is acceptable |
| `IntentKey.ParseUnique` | cmd/herd/fence_ops.go:159-199 | a key has at most one reading |
| `IntentKey.ParseExactly` | cmd/herd/fence_ops.go:159-199 | exactly which keys are accepted and as what: those spelling a carried identity with any leading zeros and a kind that does not mislead |
| `IntentKey.PrintedText` | pkg/claim/provider_transition.go:135-140 | the text of a key |
| `IntentKey.PrintOfParse` | pkg/claim/provider_transition.go:135-140 | an accepted key re-prints to itself up to leading zeros of the generation |
| `IntentKey.ParseOfPrint` | cmd/herd/fence_ops.go:159-199 | any identity parses back from its print if and only if its fields are non-empty, only the repo has slashes, the generation is a non-negative int64, and the kind holds no delimiter with fitting digits, something behind it and no empty segment at the end of what is in front |
| `IntentKey.PlainKindSurvives` | cmd/herd/fence_ops.go:159-199 | so every identity whose kind holds no `:g<digits>:` survives, whatever slashes its repo and `:g` text its task ref hold |
| `IntentKey.DelimiterInKindIsMisread` | cmd/herd/fence_ops.go:159-199 | counterexample family: a kind that itself ends in a generation delimiter is read back as another identity |
| `FenceEvidence.CombineSymmetric` | cmd/herd/fence_ops.go:337-355 | the verdict and the number of contradictions do not depend on which source is which |
| `FenceEvidence.CombineExactly` | cmd/herd/fence_ops.go:277-355 | applied exactly when some source is applied beyond doubt and both agree on every task, operation, status and positive token that both state; likewise ambiguous |
| `FenceEvidence.MatchedExactly` | pkg/claim/provider_transition.go:348-356 | the matched operations are those of the pending transition records that were asked for |
| `FenceEvidence.Evaluate` | cmd/herd/fence_ops.go:639-699 | the flag-juggling of one record proves it exactly when the combiner says applied, and calls it ambiguous exactly when that does; it shows the broker's identity unless that contradicts the local receipt |
| `FenceEvidence.Reconcile` | cmd/herd/fence_ops.go:622-722 | one finding per matched record in order, proven exactly when the two sources' receipts prove it and the status command would say applied; would-settle plus still-pending equals the matched records; each failure is reported exactly when its source failed |
| `Utf8.TruncateTail` | cmd/herd/process_digest.go:192-203 | the loop keeps the first suffix within the cap, of at most four tried, that starts a character |
| `Utf8.EncodedIsRead` | cmd/herd/process_digest.go:192-203 | every encoded character is recognised with its width, whatever follows |
| `Utf8.ReadIsEncoded` | cmd/herd/process_digest.go:192-203 | whatever is recognised is the encoding of a character |
| `Utf8.ValidExactly` | cmd/herd/process_digest.go:192-203 | text is valid exactly when it is a sequence of encoded characters, the encoder being that of section 3 of RFC 3629 |
| `Utf8.TailIsLongest` | cmd/herd/process_digest.go:192-203 | on well-formed text and any positive cap that is the longest well-formed suffix within the cap, at most three bytes short of it |
| `Utf8.TailExactly` | cmd/herd/process_digest.go:192-203 | on any text it is well-formed, and the longest unless that starts more than three bytes in, when it is empty |
| `Utf8.ErrDetail` | cmd/herd/process_digest.go:154-167 | a long message keeps its longest well-formed head within 240 bytes, 237 or more of a well-formed one; the line is well-formed exactly when it was shortened or the message was |
| `ProcessDigest.OrderIsDeterministic` | cmd/herd/process_digest.go:244-257 | two sweeps of the same fleet, listed in any order, visit the same name and pane at every position |
| `ProcessDigest.OrderExactly` | cmd/herd/process_digest.go:208-257 | exactly the agents whose trimmed workspace is the one asked for, by name and then by pane |
| `ProcessDigest.Visit` | cmd/herd/process_digest.go:283-352 | one agent's item, something unknown exactly when its whole text was not read and vouched for, and each kind of unknown exactly for its cause |
| `ProcessDigest.Sweep` | cmd/herd/process_digest.go:259-354 | items plus skipped are the agents in scope, skipping starts exactly where a limit first bites, partial exactly when something is unknown, complete exactly when the roster and every text are whole |
| `ProcessDigest.Collect` | cmd/herd/process_digest.go:219-355 | an unavailable herdr and an unreadable roster are errors and nothing else is; otherwise exactly the agents in scope are swept, in order |
| `ProcessDigest.ReadsWithinCap` | cmd/herd/process_digest.go:260-268 | the pane reads a sweep reports never exceed a positive cap |
| `ProcessDigest.SweepObeysLimits` | cmd/herd/process_digest.go:260-282 | a sweep goes on exactly while it is neither canceled nor late and has read fewer panes than a positive cap |
| `ProcessDigest.ItemExactly` | cmd/herd/process_digest.go:283-352 | every item: no text for a missing or unreadable pane, otherwise what the byte cap leaves |
| `ProcessDigest.CompleteMeansEverything` | cmd/herd/process_digest.go:300-352 | a sweep that is not partial has an item for every agent in scope, classified on its full untruncated text |
| `Callbacks.CallbackState` | cmd/herd/attention_candidates.go:258-289 | blocked, and likewise unknown, exactly when the last such message has no later completion for the candidate of the same generation and a greater sequence |
| `Callbacks.StandsExactly` | cmd/herd/attention_candidates.go:258-289 | what blocked and unknown mean, message by message |
| `Callbacks.NoiseIsIgnored` | cmd/herd/attention_candidates.go:258-289 | a message of another task or candidate changes neither answer, wherever it is inserted |
| `ReviewProjection.WithdrawnSHAs` | cmd/herd/candidate_cmd.go:81-91 | collects exactly the revoked and the replaced candidates |
| `ReviewProjection.ProjectionMaps` | cmd/herd/review_projections.go:8-26 | the last verdict row of every projection and the set of recorded projections, in one pass |
| `ReviewProjection.SupersededKeys` | pkg/reviewledger/host_ingest.go:89-115 | exactly the recorded projections that a standing recorded PASS of the same host says it retries |
| `ReviewProjection.SupersededExactly` | pkg/reviewledger/host_ingest.go:89-115 | which vetoes a retry clears, row by row |
| `ReviewProjection.AdmitsExactly` | cmd/herd/candidate_cmd.go:92-105 | which rows count for a task: not withdrawn, with a verdict, not a cleared veto, and naming the task in branch, artifact or lane |
| `ReviewProjection.Project` | cmd/herd/candidate_cmd.go:92-117 | a projection exists exactly for keys with an admitted row, and each field is the last non-blank value among them |
| `ReviewProjection.ProjectionShows` | cmd/herd/candidate_cmd.go:106-116 | column by column, what the admitted rows of the key said last |
| `ReviewProjection.ProjectionUnique` | cmd/herd/candidate_cmd.go:92-117 | the rows determine every projection |
| `ReviewProjection.Coherent` | cmd/herd/candidate_cmd.go:122-151 | one representative per candidate, strictly increasing: the least vetoing key, or the least key when none vetoes, whatever order the maps are walked in |
| `ReviewProjection.CoherentUnique` | cmd/herd/candidate_cmd.go:122-151 | the projections determine the output |
| `ReviewProjection.VetoDominates` | cmd/herd/candidate_cmd.go:122-151 | a candidate with any vetoing projection is never shown by another |
| `ReviewProjection.ShownIsLeast` | cmd/herd/candidate_cmd.go:134-148 | the projection shown is that of the least reviewer and then the least host, among those that veto or among all |
| `ReviewProjection.AdmittedForRef` | cmd/herd/candidate_cmd.go:76-118 | the output is the coherent choice from the projections of the admitted rows, candidates strictly increasing |
| `RecoveryReceipt.Store.StoreCanonical` | pkg/dispatch/taskcontext.go:305-385 | files the receipt unless a newer or unsanctioned entry refuses, and can fail on either side of its effect |
| `RecoveryReceipt.Store.RemoveIfExact` | pkg/dispatch/taskcontext.go:555-606 | removes exactly the expected receipt; a missing one is done, another one is left alone |
| `RecoveryReceipt.Store.Persist` | cmd/herd/receipt_recovery.go:112-127 | both copies after the call for every combination of failures |
| `RecoveryReceipt.OthersUntouched` | cmd/herd/receipt_recovery.go:112-127 | whatever fails, no other session's receipt is touched |
| `RecoveryReceipt.AllOrNothingExactly` | cmd/herd/receipt_recovery.go:112-127 | with successful compensations, the exact outcomes for which publication is all or nothing |
| `RecoveryReceipt.NewSessionExactly` | cmd/herd/receipt_recovery.go:112-127 | every way filing can end is all or nothing exactly when the session is new or its entry refuses to be replaced |
| `RecoveryReceipt.HalfPublished` | cmd/herd/receipt_recovery.go:112-127 | counterexamples: a local receipt nobody filed, an older receipt lost, an equal receipt removed |

## Left out

Assumptions of the models:

- The admission protocol takes the configuration as the same for all launchers, tokens as never reused, lease writes as whole, the clock as monotone, a death report as true, and every reviewer as entering through the lease; a launcher whose agent start was issued gives its lease back only after that reviewer is listed or has failed (cmd/herd/review_pool.go).
- The watermark fold of the mail cursors is a hash taken to be injective; sizes of envelopes are a parameter.
- Formatting of times and durations is a parameter with the law that one word is printed and parses back.
- Completing a task on the board is idempotent (pkg/sync/boarddone.go); the proof receipt of a landing, the live-lease fence and the ownership of the integration worktree are booleans that others may change at any time; paths are already normalised; the two sources have different paths, neither inside the other, and different branches (cmd/herd/integration_native.go:84-97).
- Retained evidence is one path; different intents and kinds have different paths. Its value is marshalled JSON, which is never empty.
- Case folding, letter case and the board's status spelling are parameters.

Deliberately weaker or not modelled:

- AdmissionProtocol.ReviewerCap: stops at the first launch that outlives its lease, because from there the cap can be exceeded, as AdmissionProtocol.OverrunExactly states.
- AdmissionLease.Store.WriteExclusive: leaves out failing create, write and close calls, which leave the lease to its TTL.
- AdmissionLease.Store.HoldLease: leaves out lock timeouts, I/O errors and the same-file check before a replacement, all of which refuse.
- AdmissionLease.Store.UpdatePhase: leaves out lock timeouts, write errors and the same-file check, all of which refuse.
- AdmissionLease.Store.ReleaseLease: leaves out a failed lock or a changed file, which leave the lease in place; the protocol has that outcome as an unlocked retirement.
- Capacity.Record.ApplyLaunchable: leaves out the prose of the detail and reason fields.
- Capacity.LimitIsLargest: assumes a total of at most 2^63/1024 MiB, because measured totals are int64 kilobytes or bytes divided by 1024, so the product with the percentage cannot wrap.
- Capacity.ParseDoctorSurfaces: does not model 64-bit wrap-around of `cap - live` and of the sum of slots.
- MailPaging.ReadFeedback: leaves out cancellation, scanner line limits and a blank recipient.
- MailPaging.ReadControl: leaves out cancellation, scanner line limits and the storage fingerprint.
- MailPaging.ReadInbox: takes the cursor already parsed and bound to its recipient and stores.
- MailPaging.SessionDrains: keeps both stores fixed; MailGrowth.LiveSessionDrains lets them grow.
- IntegrationCleanup.Repository.RemoveExactSource: leaves out git commands that fail without effect and the retirement record written after a removal.
- IntegrationCleanup.Repository.Cleanup: leaves out a board update that fails.
- RecoveryReceipt.Store.StoreCanonical: leaves out validation, the signature and an unreadable existing entry, all refusals without effect.
- RecoveryReceipt.Store.RemoveIfExact: leaves out validation and signature verification of the receipt it is given.
- Utf8.ErrDetail: takes the message after its white space was collapsed; classifying the failure is foreign code.
- ProcessDigest.Collect: the classifier is a parameter and the prose of the unknowns is reduced to their kinds.
- FenceEvidence.Reconcile: leaves out the outbox view attached to a finding and the exit code of a report.
- The textual cursor, its recipient and store fingerprint (pkg/mail/bounded.go), context cancellation and scanner line limits of the mail readers.
- The `--claim` and `--refresh-launchable` paths of `herd capacity`, and the inode and symbolic-link checks on the lease file.
- Torn lease-file writes: a torn file is an unreadable one, which the model never reclaims.
- Host measurement, git, the board and the router themselves; flag parsing, rendering and exit codes; pulse, daemon, hold and posture commands, which would add only easy members.
