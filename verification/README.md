# Verification model of the canister platform

The platform is a set of Internet Computer canisters with Go helper services. This project models
the parts whose correctness rests on state kept in several indexes, on operations split by awaits,
and on counters that must telescope, and proves what they promise. `dafny verify dfyconfig.toml`
checks everything.

Each component has a specification (datatypes, functions and lemmas) and, where the source changes
state in place, classes whose fields are the source's stable maps and whose methods carry the
source's loops. A method's contract ties its new state to the specification, and the lemmas state
what the specification keeps over whole runs.

| files | component | main results |
|---|---|---|
| CanisterTracking.dfy | parent/child reports and orphan adoption | the result is a closure; exactly when two runs of reports end alike; the worklist terminates |
| Ballots.dfy, ProposalProtocol.dfy, ProposalHistory.dfy, ProposalService.dfy, CanisterQuota.dfy | proposals: create, vote, cancel, execute | every proposal is what its policy and the ballots cast make of it; one execution per proposal, absorbing end states, ballots decide by count, the exact bound on canisters under concurrent executions |
| Calendar.dfy, UsageBilling.dfy, UsageStore.dfy | billing months and usage | exact Gregorian months and their text order; saturated project totals; telescoping readings; exactly which batches replay without effect |
| CanisterIds.dfy, TimerGuard.dfy, HistorySync.dfy, HistoryEffects.dfy | canister enumeration and history sync | exactly when ranges round trip; histories stay split into stored and missed positions, exactly as long as no canister is asked about twice at once; one run at a time |
| Metrics.dfy, SyncCursor.dfy | metrics store, cursor pager, Go syncer | mirrored retention store; complete, duplicate-free drains; newest snapshot per canister; exactly what the start cursor and a resumed run miss |
| Workspace.dfy, WorkspaceEffects.dfy, WorkspaceService.dfy | organisations, teams, projects | every organisation stays administrable and has a project, every project a team; deletion of an organisation is always refused; exactly which messages raise permissions, what a revoking one takes away, and when each is accepted |
| Accounts.dfy, AccountEffects.dfy, AccountService.dfy | principals, emails, link codes, service principals | inverse and disjoint indexes, exact email index and migration, every claim to an address rests on a proof, codes used at most once, staff authority |
| Invites.dfy, InviteEffects.dfy | organisation invites | mirrored indexes, the cap on pending invites, final decisions, an accepted invite behind every membership |

The modules named `…Effects` and `ProposalHistory` state what a message does in terms of the stored
relations and of the messages sent, for every relation and every message, in both directions: who is a
member, which flags are held, which address is whose, which votes count.

## Conventions

- A message is atomic between awaits. A step function gives the state after a message; runs are
  arbitrary sequences of messages, and replies of other canisters are arbitrary inputs.
- Ids and principals are natural numbers with 0 as the minimum. A principal's number is its rank in
  the order that compares lengths first and then bytes (`PrincipalOrder`); the principal type's library
  is not part of this model, and that order is taken from it. The bytes of canister ids are modelled in
  `CanisterIds`. Permissions are sets of flags. New ids are drawn fresh.
- 64-bit sums saturate or wrap where the source's do. The invite expiry wraps, as the release build's
  addition does; casts between `usize` and 64 or 32 bits lose nothing at the sizes that occur.
- Email normalisation and the email shape check are arbitrary functions of which only "the empty
  address is refused" is used, so every result holds for the source's trimming and lower-casing.
- A usage record is a vector of 14 counters; `Calendar.dfy` shows that numbering the months agrees
  with their texts, and `UsageBilling.dfy` uses the numbers.

## Where the source and its documents differ

- `docs/PERMISSIONS.md:94-95` says that a project can end up with no attached team. The code refuses to
  unlink the last team (`src/backend/src/service/project_service.rs:216-220`) and to delete a team with
  projects, and `Workspace.EveryOrgIsUsable` shows that every project keeps a team.
- `src/backend/src/service/organization_service.rs:203-206` describes deleting an organisation after
  deleting its default project. The last project cannot be deleted, so the deletion never succeeds:
  `Workspace.OrganizationsStay`.
- `src/backend/src/service/access_control_service.rs:272-274` says that every path that confers
  organisation permissions is bounded by the granter's own. Creating a team gives its creator all of
  them (`src/backend/src/data/team_repository.rs:13-15`). `Workspace.TeamManagerBecomesAdmin` is a run in
  which this happens, and `Workspace.RaisesIff` states exactly which messages raise somebody.
- `src/backend/src/service/access_control_service.rs:373` says the same of project permissions. Linking a
  team gives it all of them without that check (`src/backend/src/service/project_service.rs:178-202`), and
  joining a team brings what the team holds; `Workspace.RaisesOnProjectIff` states exactly when somebody
  is raised.
- `services/canister-otlp-syncer/internal/sync/sync.go:119-121` takes 29 zero bytes as the smallest
  principal. Shorter principals order before it, so a start cursor with it misses every canister that
  was measured at the start time (`SyncCursor.CanistersAtStartAreMissed`), and a run that resumes after a
  failure misses those that share the time of the last cursor. `SyncCursor.StartCoversItsTimeIff` and
  `SyncCursor.ResumedRunCoversIff` give the exact conditions.
- A child that is reported under two parents keeps the first one, so the order of reports can matter for
  it (`Ancestry.OrderMattersForTwoParents`); `Ancestry.ReportsCommuteIff` and `Ancestry.RunsAgreeIff` say
  exactly when it does. A UI-created canister is recorded without adoption and keeps the orphan
  invariant exactly when its principal is new to the orphan index: `Ancestry.RecordKeepsSettledIff`.
- Sending a usage batch again bills again when it holds different readings of a canister
  (`UsageBilling.ReplayNeedsOneEntryPerCanister`); `UsageBilling.ReplayChangesNothingIff` is exact.
- Compressing live ids and expanding the ranges is an identity for ids that the number-to-id conversion
  produces. `CanisterIdRanges.ExpandInvertsIff` says exactly for which other ids it is one.
- A month without readings makes the next reading bill from zero again; `UsageBilling.MonthsSumToFinalReading`
  states how much.

## Model

| member | source | states |
|---|---|---|
| Ancestry.ReportsCloseFirstReports | src/backend/src/service/canister_service.rs:337-393 | any reports, from any settled state, end in the closure of the first reported parents: tracked is exactly what is reachable from the tracked principals, each under its ancestor's project, the rest stays orphaned |
| Ancestry.ArrivalOrderIrrelevant | src/backend/src/service/canister_service.rs:337-393 | when each child is reported under one parent only, any two orders of the same reports end in the same tracked map and the same orphans |
| Ancestry.FirstReportsAre | src/backend/src/service/canister_service.rs:343-351 | with one parent per child, what counts is whether and under whom a child was ever reported, not when |
| Ancestry.BatchesConcatenate | src/backend/src/service/canister_service.rs:337-393 | cutting the reports into batches makes no difference |
| Ancestry.RunsAgreeIff | src/backend/src/service/canister_service.rs:337-393 | two runs of reports end alike exactly when every child has the same first parent in both, or two first parents that either run leads to the same project |
| Ancestry.ReportsCommuteIff | src/backend/src/service/canister_service.rs:343-351 | two reports commute exactly when they concern different children, name the same parent, or concern a child that is known already or whose two parents are tracked under one project |
| Ancestry.ClosuresAgreeIff | src/backend/src/service/canister_service.rs:353-388 | two sets of links have the same closure exactly when they differ only in parents that lead to the same project |
| Ancestry.OrderMattersForTwoParents | src/backend/src/service/canister_service.rs:343-351 | the input for which reports do not commute: a new child under a tracked and an unknown parent |
| Ancestry.RecordKeepsSettledIff | src/backend/src/service/canister_service.rs:282-303 | recording a UI-created canister without adoption keeps "no orphan has a tracked parent" exactly when the new principal is unknown to the orphan index, as child and as parent |
| Ancestry.ClosureIsSettled | src/backend/src/service/canister_service.rs:337-393 | a closed state has no principal both tracked and orphaned and no orphan of a tracked parent |
| Ancestry.SettledIsClosed | src/backend/src/service/canister_service.rs:353-388 | a state without work left is its own closure: the worklist may stop there |
| Ancestry.AdoptKeepsClosure | src/backend/src/service/canister_service.rs:364-388 | moving one orphan of a tracked parent to the tracked side leaves the closure unchanged, so the pop order of the stack does not matter |
| Ancestry.ClosureAbsorbs | src/backend/src/service/canister_service.rs:337-393 | closing before adding a link gives the same as closing only afterwards |
| Ancestry.ProjectAboveStep | src/backend/src/service/canister_service.rs:353-388 | the project above a principal is its own if tracked, otherwise that above its parent |
| CanisterTracking.CanisterService.AddChildCanisters | src/backend/src/service/canister_service.rs:337-393 | the method ends exactly in the reported closure, adds one record per newly tracked principal, and changes no existing record |
| CanisterTracking.CanisterService.AddChild | src/backend/src/service/canister_service.rs:340-390 | one report: skipped if the child is known, otherwise tracked with all waiting descendants or stored as an orphan |
| CanisterTracking.CanisterService.TrackWithDescendants | src/backend/src/service/canister_service.rs:353-388 | the worklist terminates, since orphans and stack together shrink each pass, and ends in the closure |
| CanisterTracking.CanisterService.AdoptChildren | src/backend/src/service/canister_service.rs:364-388 | one pass adopts all orphans of the popped parent, keeps the closure, and lowers orphans plus stack by one |
| CanisterTracking.CanisterService.AdoptOrphan | src/backend/src/service/canister_service.rs:364-388 | a child moves from the orphan index to the tracked records under the project, nothing else moves |
| CanisterTracking.CanisterService.RecordCreated | src/backend/src/service/canister_service.rs:282-303 | the record written after the creation await |
| CanisterTracking.AdoptStep | src/backend/src/service/canister_service.rs:364-388 | adopting a child keeps "only parents on the stack can have orphans among the tracked" |
| CanisterTracking.LinkBelowTracked | src/backend/src/service/canister_service.rs:343-388 | a report under a tracked parent: the expected result is the closure with the child tracked |
| CanisterTracking.LinkBelowUnknown | src/backend/src/service/canister_service.rs:343-390 | a report under an unknown parent leaves everything else as it is |
| CanisterTracking.CanisterRepository.CreateCanister | src/backend/src/data/canister_repository.rs:77-90 | the five indexes agree on one new active record of a fresh id |
| CanisterTracking.CanisterRepository.SoftDeleteCanister | src/backend/src/data/canister_repository.rs:104-128 | the record moves from the active to the deleted index and stays tracked; anything else is refused without change |
| CanisterTracking.CanisterRepository.UpdateCanisterName | src/backend/src/data/canister_repository.rs:143-150 | only the name of that record changes; the indexes stay in step |
| CanisterTracking.CanisterRepository.ProjectOfPrincipal | src/backend/src/data/canister_repository.rs:96-132 | the project a principal is tracked under, through both lookups |
| CanisterTracking.OrphanRepository.CreateOrphanedCanister | src/backend/src/data/orphaned_canister_repository.rs:9-16 | both directions of the orphan relation gain the pair; the two stay mirror images exactly when the child was new or keeps its parent |
| CanisterTracking.OrphanRepository.RemoveOrphanedCanister | src/backend/src/data/orphaned_canister_repository.rs:31-37 | the child and the pair are removed, whatever was stored; the two stay mirror images exactly when the child was absent or stored under that parent |
| CanisterTracking.OrphanRepository.ListChildrenByParent | src/backend/src/data/orphaned_canister_repository.rs:22-29 | exactly the orphans of the parent, each once |
| Ballots.RejectionIffApprovalUnreachable | src/backend/src/data/proposal_repository.rs:140-163 | rejection is reached exactly when no admissible continuation of the ballots can reach approval |
| Ballots.FullTurnoutDecides | src/backend/src/data/proposal_repository.rs:140-163 | when every approver has voted, the proposal is approved or rejected |
| Ballots.DecisionIsTally | src/backend/src/data/proposal_repository.rs:105-166 | deciding ballot by ballot gives the tally of all the ballots cast |
| Ballots.BallotOrderIrrelevant | src/backend/src/data/proposal_repository.rs:105-166 | two orders of the same ballots decide alike |
| Ballots.BallotsBounded | src/backend/src/data/proposal_repository.rs:105-138 | an admissible ballot list is no longer than the approver list |
| Ballots.VotersDistinct | src/backend/src/data/proposal_repository.rs:118-138 | voters are distinct approvers, so ballots count people |
| Ballots.AllOthersApprove | src/backend/src/data/proposal_repository.rs:140-163 | any admissible ballot list extends to one where every other approver approves |
| Ballots.CountsSplit | src/backend/src/data/proposal_repository.rs:140-152 | approvals and rejections together are all the ballots |
| Proposals.VoteKeepsInvariant | src/backend/src/data/proposal_repository.rs:105-166 | an accepted ballot is by an approver who has not voted; it leaves approvals below the threshold and rejections at most n - threshold, or decides, and the three outcomes exclude each other |
| Proposals.ProposalRepository.CreateProposal | src/backend/src/data/proposal_repository.rs:19-37 | a fresh id under its project, both indexes in step |
| Proposals.ProposalRepository.SetProposalStatus | src/backend/src/data/proposal_repository.rs:205-219 | sets any status: no guard, an unknown id is refused |
| Proposals.ProposalRepository.SetProposalPendingApproval | src/backend/src/data/proposal_repository.rs:75-103 | only an Open proposal starts voting, with no votes yet |
| Proposals.ProposalRepository.RecordProposalVote | src/backend/src/data/proposal_repository.rs:105-166 | the stored status and the answer are those of the ballot rules; refusals change nothing |
| Proposals.ProposalRepository.CancelProposal | src/backend/src/data/proposal_repository.rs:168-191 | only Open and PendingApproval proposals are cancelled |
| Proposals.CountBallots | src/backend/src/data/proposal_repository.rs:140-152 | the counted ballots are those of that kind |
| ProposalProtocol.RunKeepsInvariant | src/backend/src/service/proposal_service.rs:105-221 | over any interleaving: pending ballots stay undecided, executing proposals and outstanding calls correspond one to one, and no proposal starts twice |
| ProposalProtocol.StepFollowsEdges | src/backend/src/service/proposal_service.rs:105-252 | although the setter has no guard, every message moves every proposal along the intended edges only |
| ProposalProtocol.FinalStatusesAbsorb | src/backend/src/data/proposal_repository.rs:205-219 | Rejected, Cancelled, Executed and Failed never change again |
| ProposalProtocol.OnlyAQuorumStarts | src/backend/src/service/proposal_service.rs:189-221 | a pending proposal starts executing only by the approving vote of an approver that completes the threshold |
| ProposalProtocol.OpenOnlyCancels | src/backend/src/service/proposal_service.rs:105-149 | a committed Open proposal never executes; it can only be cancelled |
| ProposalProtocol.StepKeepsInvariant | src/backend/src/service/proposal_service.rs:26-252 | each message keeps the invariant |
| ProposalProtocol.ExecuteSound | src/backend/src/service/proposal_service.rs:165-187 | starting an execution keeps it |
| ProposalProtocol.CreateSound | src/backend/src/service/proposal_service.rs:26-60 | creation, with automatic approval or a quorum policy, keeps it |
| ProposalProtocol.VoteSound | src/backend/src/service/proposal_service.rs:189-221 | a vote keeps it, including the execution it may start |
| ProposalProtocol.FinishSound | src/backend/src/service/proposal_service.rs:165-187 | the last reply of an execution frees its call and ends in Executed or Failed |
| ProposalProtocol.ContinueSound | src/backend/src/service/proposal_service.rs:165-187 | the second await of the controller operation keeps it |
| ProposalProtocol.ResumeSound | src/backend/src/service/proposal_service.rs:165-187 | whatever the reply, resuming keeps it |
| ProposalHistory.EveryFateIsDecided | src/backend/src/service/proposal_service.rs:26-252 | in every reachable state every proposal is what its policy and the messages since its creation make of it: under a quorum the stored votes are exactly the first ballots of its approvers, in order, and its status is their decision; an unmeetable quorum stays Open; automatic approval has started |
| ProposalHistory.FateAfter | src/backend/src/service/proposal_service.rs:26-252 | the same from any sound state: right after creation and after any messages |
| ProposalHistory.EveryStartHasAQuorum | src/backend/src/service/proposal_service.rs:121-212 | whatever has started under a quorum of k was approved, after its creation, by k different approvers |
| ProposalHistory.FullTurnoutEnds | src/backend/src/data/proposal_repository.rs:140-163 | once every approver has voted the proposal is no longer pending |
| ProposalHistory.AcceptedVoterRefused | src/backend/src/data/proposal_repository.rs:118-138 | whoever's ballot was accepted is refused from then on, whatever happens in between |
| ProposalHistory.VoteIs | src/backend/src/data/proposal_repository.rs:105-166 | a vote of an approver who has not voted is stored and may decide; any other vote changes nothing |
| ProposalHistory.CancelIs | src/backend/src/data/proposal_repository.rs:168-191 | a cancellation ends an open or pending proposal and nothing else |
| ProposalHistory.OnlyItsOwnMessages | src/backend/src/service/proposal_service.rs:26-252 | nothing but a vote on it or its cancellation touches a proposal that has not begun |
| ProposalHistory.CreatedIff | src/backend/src/service/proposal_service.rs:26-49 | a proposal is stored exactly when its project exists and the plan has room for the canister it creates |
| ProposalHistory.StartsExecution | src/backend/src/service/proposal_service.rs:151-187 | an execution starts with the first call of its operation, or fails at once exactly when its canister would exceed the plan or its project is gone |
| ProposalHistory.ExecutionFollowsReplies | src/backend/src/service/proposal_service.rs:165-187 | from then on the replies to its call alone decide: Executed after a created canister, or after a controller list without the new one and an accepted update; Failed after any other |
| ProposalHistory.ActiveIff | src/backend/src/service/canister_service.rs:282-303 | a canister is active for a project exactly from the reply that created it until it is removed |
| ProposalHistory.KnownIff | src/backend/src/data/project_repository.rs:152-175 | a project is known from its addition until its deletion, which needs it to be without canisters |
| ProposalHistory.RemovedIff | src/backend/src/data/canister_repository.rs:104-128 | a canister is deleted for a project once it has been removed from it |
| CanisterQuota.ActiveCanistersBounded | src/backend/src/service/proposal_service.rs:165-187 | with at most m creations in flight an organisation never exceeds limit - 1 + m active canisters, so never the limit when serial |
| CanisterQuota.BoundAttained | src/backend/src/service/proposal_service.rs:165-187 | the bound is exact: from every sound state below the limit m creations in flight all get through |
| CanisterQuota.RunKeepsCommitted | src/backend/src/service/proposal_service.rs:165-187 | recorded canisters and creations in flight together stay within limit - 1 + m over any run |
| CanisterQuota.StepKeepsCommitted | src/backend/src/service/canister_service.rs:411-421 | each message keeps that bound |
| CanisterQuota.MessageCommits | src/backend/src/service/proposal_service.rs:151-187 | a message that starts a creation does so below the limit |
| CanisterQuota.ReplyCommits | src/backend/src/service/proposal_service.rs:165-187 | a reply turns a creation in flight into a record or drops it, never more |
| ProposalService.ListProjectUsersWithPermission | src/backend/src/service/access_control_service.rs:388-412 | exactly the members of the linked teams that hold the permission, each once: a quorum counts users |
| ProposalService.Service.ListOrgProjects | src/backend/src/data/project_repository.rs:206-217 | the organisation's projects, each once |
| ProposalService.Service.CountActiveCanistersForOrg | src/backend/src/service/canister_service.rs:398-409 | the sum over the projects is the number of the organisation's active canisters |
| ProposalService.Service.EnforceCanisterQuota | src/backend/src/service/canister_service.rs:411-421 | accepts exactly below the plan limit |
| ProposalService.Service.ExecuteOperation | src/backend/src/service/proposal_service.rs:165-187 | up to its await the execution does what the state machine says |
| ProposalService.Service.ProcessProposal | src/backend/src/service/proposal_service.rs:105-149 | policy handling does what the state machine says |
| ProposalService.Service.CreateProposal | src/backend/src/service/proposal_service.rs:26-60 | for a holder of PROPOSAL_CREATE the machine's step with a fresh id; for anyone else nothing changes |
| ProposalService.Service.VoteProposal | src/backend/src/service/proposal_service.rs:189-221 | for a holder of PROPOSAL_APPROVE the machine's step, including the execution that the vote starts; for anyone else nothing changes |
| ProposalService.Service.CancelProposal | src/backend/src/service/proposal_service.rs:223-252 | for the proposer or a project admin the machine's step; for anyone else nothing changes |
| ProposalService.Service.ReplyArrives | src/backend/src/service/proposal_service.rs:165-187 | resuming after the await is the machine's step |
| Calendar.GetCurrentYear | src/canister-utils/src/time.rs:9-26 | the loop finds the Gregorian year (leap rule of Appendix C of RFC 3339) and the day within it |
| Calendar.GetCurrentMonth | src/canister-utils/src/time.rs:28-58 | the loop finds the month, within 1..12, that contains the day |
| Calendar.MonthIsUnique | src/canister-utils/src/time.rs:9-58 | a day lies in one year and month only, so the two loops leave no choice |
| Calendar.NextDay | src/canister-utils/src/time.rs:9-58 | the next day lies in the same month or in the first of the next one, across years too |
| Calendar.YearStartStep | src/canister-utils/src/time.rs:9-26 | year starts, defined by counting leap years, advance by the length of the year |
| BillingMonths.FormatParses | src/backend/src/data/usage_repository.rs:230-242 | the text of a year and month up to 2^32 - 1 parses back to them; longer years read as 0 |
| BillingMonths.FormatInjective | src/backend/src/service/usage_service.rs:37-46 | different months have different texts |
| BillingMonths.PreviousUndoesNext | src/backend/src/data/usage_repository.rs:230-242 | going back one month in text undoes going forward one, exactly when the year fits the 32-bit parser |
| BillingMonths.ConsecutiveDays | src/backend/src/data/usage_repository.rs:230-242 | two consecutive days share their billing month, or the later text leads back to the earlier one |
| BillingMonths.MonthNumbersAndTexts | src/backend/src/data/usage_repository.rs:230-242 | numbering months from year 0 agrees with the texts and their predecessor |
| BillingMonths.FormatIsBillingMonth | src/backend/src/service/usage_service.rs:37-46 | the text has the YYYY-MM shape exactly up to year 9999 |
| BillingMonths.GetCurrentBillingMonth | src/backend/src/service/usage_service.rs:37-46 | from the clock in nanoseconds to the text of the month that contains it |
| UsageBilling.ProjectUsageIsSaturatedSum | src/backend/src/data/usage_repository.rs:63-153 | in every reachable ledger each project, month and field is min(2^64 - 1, sum of its canisters' usage) |
| UsageBilling.RecordKeepsTotals | src/backend/src/data/usage_repository.rs:63-153 | one entry keeps that, whichever additions saturate |
| UsageBilling.TotalAfter | src/backend/src/data/usage_repository.rs:63-110 | an entry moves one summand of one total and nothing else |
| UsageBilling.SaturationMerges | src/backend/src/data/usage_repository.rs:63-153 | saturating the sum and saturating the summand commute |
| UsageBilling.UsageTelescopes | src/backend/src/data/usage_repository.rs:53-65 | with growing readings a month's usage is its last reading minus the last of the month before, whatever others report in between |
| UsageBilling.RecordTelescopes | src/backend/src/data/usage_repository.rs:53-110 | one more reading keeps that difference |
| UsageBilling.MonthsSumToFinalReading | src/backend/src/data/usage_repository.rs:53-65 | the months add up to the final reading plus exactly what skipped months bill again; nothing is billed again when no month is skipped |
| UsageBilling.ReplayChangesNothing | src/backend/src/data/usage_repository.rs:34-167 | sending a batch with one entry per canister again changes nothing |
| UsageBilling.ReplayChangesNothingIff | src/backend/src/data/usage_repository.rs:34-167 | sending a batch of one month again changes nothing exactly when, field by field, all its readings of an owned canister are equal or the counter of that canister is full |
| UsageBilling.ReplayNeedsEqualReadings | src/backend/src/data/usage_repository.rs:34-167 | with room in the counters: exactly when all readings of each owned canister are equal |
| UsageBilling.CounterStaysIff | src/backend/src/data/usage_repository.rs:53-110 | the same for one counter: a second pass leaves it exactly when the readings of its canister are equal or it is full |
| UsageBilling.ReplayNeedsOneEntryPerCanister | src/backend/src/data/usage_repository.rs:34-167 | the input for which a replay bills again: two different readings of one canister |
| UsageStore.UsageRepository.RecordReading | src/backend/src/data/usage_repository.rs:36-153 | one usage entry updates the four maps as the ledger says; a canister without owner is skipped |
| UsageStore.UsageRepository.UpsertCanisterUsages | src/backend/src/data/usage_repository.rs:34-167 | the batch loop stores the last reading of every owned canister, bills its movement to the owner, leaves everything else alone, and keeps every project total |
| UsageStore.UpsertIs | src/backend/src/data/usage_repository.rs:34-167 | a call stores the last reading of every owned canister and its owner, and bills to the owner how far the readings move the meter from the reading stored before; other canisters, months and projects stay |
| UsageStore.OneReadingBills | src/backend/src/data/usage_repository.rs:53-153 | one reading grows the counter of the month by the saturating difference to this month's stored reading, or else last month's |
| UsageStore.CallsTelescope | src/backend/src/data/usage_repository.rs:34-167 | over sequences of calls each month bills the difference between its last reading and the last of the month before |
| UsageStore.ReplayedCallIff | src/backend/src/data/usage_repository.rs:34-167 | a call sent again, with room in the counters, changes nothing exactly when all readings of each owned canister are equal |
| CanisterIds.NumberRoundTrip | src/canister-utils/src/canister_id.rs:48-75 | u64 to principal and back is the identity, and the result is canonical |
| CanisterIds.IdRoundTrip | src/canister-utils/src/canister_id.rs:48-75 | principal to u64 and back is the identity exactly for ids whose ninth byte is 1 |
| CanisterIds.BytesOrder | src/canister-utils/src/canister_id.rs:48-75 | big-endian bytes order as their numbers |
| CanisterIds.CanonicalOrder | src/canister-utils/src/canister_id.rs:48-75 | canonical ids order as their numbers, so map order is numeric order |
| CanisterIdRanges.CanisterIdRange.constructor | src/canister-utils/src/canister_id.rs:84-90 | a range starts with everything from start to end still to come |
| CanisterIdRanges.CanisterIdRange.Next | src/canister-utils/src/canister_id.rs:96-117 | one call takes the first of the remaining ids; it stops after the end or at u64::MAX without overflow |
| CanisterIdRanges.CanisterIdRange.Take | src/cycles-monitor/src/service.rs:34-37 | taking n ids takes the next n, fewer only at the end |
| CanisterIdRanges.ItemsAreSpan | src/canister-utils/src/canister_id.rs:96-117 | the yielded numbers are consecutive from start to the last one |
| CanisterIdRanges.RangeStopsAtEndIff | src/canister-utils/src/canister_id.rs:96-117 | the iterator stops at its end exactly when it starts there or the end is a canonical id beyond the start; otherwise it runs to the maximum |
| CanisterIdRanges.ItemsDistinct | src/cycles-monitor/src/service.rs:33-52 | no id twice, so the calls of a batch concern different canisters |
| CanisterIdRanges.DrainRange | src/cycles-monitor/src/service.rs:33-52 | batches of 1 to 490 ids that together are the range, with termination |
| CanisterIdRanges.ExpandInBatches | src/cycles-monitor/src/service.rs:22-56 | all ranges, expanded in order |
| CanisterIdRanges.ListSubnetCanisterIdRanges | src/canister-history/src/repository.rs:57-102 | for all live ids in map order: ranges in order, no two neighbours joinable; maximal for canonical ids; their expansion is the live ids exactly when every id that continues a run is canonical |
| CanisterIdRanges.ExpandInvertsIff | src/canister-history/src/repository.rs:57-102 | expanding the ranges gives the ids back exactly when every id whose number follows the one before it is canonical |
| CanisterIdRanges.CompressSeparates | src/canister-history/src/repository.rs:57-102 | ranges of ids with ascending numbers ascend, and no two neighbours could be joined |
| CanisterIdRanges.CanonicalRangesMaximal | src/canister-history/src/repository.rs:57-102 | ranges of canonical ids have gaps between them |
| CanisterIdRanges.LiveAscending | src/canister-history/src/repository.rs:57-102 | live ids come each once and with ascending numbers, strictly so when they are canonical |
| CanisterIdRanges.LiveIff | src/canister-history/src/repository.rs:63-75 | the live ids are exactly the stored ten-byte principals of the opaque class that are not deleted |
| CanisterIdRanges.SyncPass | src/cycles-monitor/src/service.rs:22-56 | compressing in one canister and expanding in the other visits exactly the live ids, once each and in order, exactly when every id that continues a run is canonical |
| TimerGuard.TimerStaysAlive | src/canister-utils/src/timer.rs:31-91 | over any events exactly one of "a run is in progress" and "one timer is queued" holds |
| TimerGuard.FiringTimerAlwaysRuns | src/canister-utils/src/timer.rs:58-66 | the queued timer never finds the guard taken |
| TimerGuard.RunningIff | src/canister-utils/src/timer.rs:38-91 | a run is in progress exactly from the timer that fires or the trigger that finds none until it ends, and what is queued then is the timer that the end queued |
| TimerGuard.TimerModule.AcquireGuard | src/canister-utils/src/timer.rs:13-22 | the guard is acquired exactly when it is free |
| TimerGuard.TimerModule.RunTimer | src/canister-utils/src/timer.rs:38-56 | a manual run clears the queued timers and starts, or is refused without change |
| TimerGuard.TimerModule.TimerFires | src/canister-utils/src/timer.rs:58-66 | a firing timer starts a run exactly when the guard is free |
| TimerGuard.TimerModule.QueueNext | src/canister-utils/src/timer.rs:68-91 | the run releases the guard and queues the next timer |
| TimerGuard.TimerModule.SetupTimer | src/canister-utils/src/timer.rs:31-36 | one timer queued, no run |
| ChangeLog.AbsorbSound | src/canister-history/src/service.rs:147-222 | a reply to a snapshot that is still current keeps [0, total) split exactly into stored positions and ordered, disjoint, non-empty missed ranges, with stored + missed = total |
| ChangeLog.AbsorbParts | src/canister-history/src/service.rs:164-222 | what a reply stores, in positions of the remote log |
| ChangeLog.MissedAfterSplits | src/canister-history/src/service.rs:176-200 | the new gap extends the missed ranges by exactly the positions it skips |
| ChangeLog.LogGrows | src/canister-history/src/service.rs:147-222 | growth of the remote log leaves the split sound |
| ChangeLog.OverlapSoundIff | src/canister-history/src/service.rs:147-222 | two overlapping read-await-write steps of one canister leave its split exact if and only if the first reply brought nothing that was not stored |
| HistorySync.HistoriesStaySound | src/canister-history/src/service.rs:94-222 | over every run of timer events, triggers, batches of distinct ids, replies and remote changes, every history stays split exactly and no two outstanding calls concern one canister |
| HistorySync.RunKeepsInvariant | src/canister-history/src/service.rs:94-222 | single flight and distinct ids in a batch keep calls distinct and every outstanding snapshot current |
| HistorySync.StepKeepsInvariant | src/canister-history/src/service.rs:94-222 | each event keeps that |
| HistorySync.ReplyKeepsInvariant | src/canister-history/src/service.rs:147-222 | each kind of reply keeps that |
| HistorySync.ChangesOnlyGrow | src/canister-history/src/service.rs:147-222 | stored changes are never removed or reordered |
| HistorySync.DeletedStaysFrozen | src/canister-history/src/service.rs:147-160 | a deleted canister's history never changes again |
| HistorySync.SecondRunBreaksSoundness | src/canister-utils/src/timer.rs:13-22 | without the guard a second run breaks the split |
| HistorySync.OverlapBreaksIff | src/canister-history/src/service.rs:147-222 | two outstanding calls for one canister, in whichever runs: after both replies the histories are sound if and only if the first reply brought nothing new |
| HistorySync.RepeatedIdBreaksIff | src/canister-history/src/service.rs:107-135 | a batch that asks about a canister twice breaks the split exactly when the first of the two replies brings something new |
| HistorySync.BatchKeepsInvariantIff | src/canister-history/src/service.rs:107-135 | starting a batch keeps the invariant exactly when it asks about no canister twice; deleted canisters are not asked about |
| HistoryEffects.ReplyStores | src/canister-history/src/service.rs:164-219 | a reply brings the total up to date and stores exactly the reported positions beyond the old total |
| HistoryEffects.DeletionFreezes | src/canister-history/src/service.rs:164-173 | a reply that the canister is gone freezes a known canister and changes nothing else of it |
| HistoryEffects.FrozenIff | src/canister-history/src/service.rs:157-173 | a canister is frozen exactly from such a reply on |
| HistoryEffects.OthersUntouched | src/canister-history/src/service.rs:147-222 | only the replies to a canister's own call write its history |
| HistoryEffects.OutstandingIff | src/canister-history/src/service.rs:107-124 | a call is outstanding exactly from the batch that asks about its unfrozen canister until its reply |
| HistoryEffects.InProgressIff | src/canister-utils/src/timer.rs:38-91 | a sync run is in progress exactly from the timer or trigger that finds the guard free until it ends |
| HistoryStore.HistoryRepository.InsertChange | src/canister-history/src/repository.rs:31-51 | the change map and both indexes, by canister and by origin, gain the change; the canister's list gains it at the end and other canisters are untouched |
| HistoryStore.HistoryRepository.UpsertCanisterChangeInfo | src/canister-history/src/repository.rs:155-157 | only that canister's totals change |
| HistoryStore.HistoryRepository.InsertNewChanges | src/canister-history/src/service.rs:190-215 | the loop stores exactly the entries beyond the known ones and collects their creations |
| HistoryStore.HistoryRepository.StoreReply | src/canister-history/src/service.rs:164-222 | the write after the await is the absorption that the proofs speak of |
| HistoryStore.CreationsAre | src/canister-history/src/service.rs:196-210 | exactly the creations by canisters are collected, each under the canister that made it |
| MetricsStore.StoreStaysMirrored | src/cycles-monitor/src/repository.rs:14-46 | after any insertions, in any order of time, snapshots and the per-canister index are mirror images |
| MetricsStore.StoredExactly | src/cycles-monitor/src/repository.rs:14-46 | with time advancing per canister, stored is exactly what was inserted in the 24 hours up to its last insertion, and latest is the last snapshot |
| MetricsStore.RetentionWindow | src/cycles-monitor/src/repository.rs:27-45 | stored times lie in (last - 24h, last], the last one is stored, and latest agrees with it |
| MetricsStore.OthersUntouched | src/cycles-monitor/src/repository.rs:27-39 | pruning leaves other canisters alone |
| MetricsStore.MetricsRepository.InsertSnapshot | src/cycles-monitor/src/repository.rs:14-46 | the pruning loop and the three insertions, and that they keep the mirror |
| MetricsPaging.ListSnapshotsAfter | src/cycles-monitor/src/repository.rs:48-94 | a page is the ascending run of keys after the cursor; a next cursor is given exactly when keys remain, and it is the page's last key |
| MetricsPaging.DrainAscends | src/cycles-monitor/src/repository.rs:48-94 | following cursors yields strictly increasing keys |
| MetricsPaging.DrainIsComplete | src/cycles-monitor/src/repository.rs:48-94 | every snapshot present for the whole drain is returned, whatever is inserted or pruned between pages |
| MetricsPaging.DrainIsSound | src/cycles-monitor/src/repository.rs:48-94 | every returned entry was stored when its page was read |
| MetricsPaging.PagesShrink | services/canister-otlp-syncer/internal/sync/sync.go:60-82 | on a fixed store each further page leaves fewer keys: the drain terminates |
| MetricsPaging.PagesAreBounded | services/canister-otlp-syncer/internal/sync/sync.go:60-82 | on a fixed store the keys that remain bound the number of further pages |
| MetricsPaging.Run | services/canister-otlp-syncer/internal/sync/sync.go:42-101 | the loop follows the cursors, saves the time of the last one it followed, and keeps the last snapshot of every canister met; on a fixed store it ends by itself and reports exactly the newest snapshots |
| MetricsPaging.KeepNewest | services/canister-otlp-syncer/internal/sync/sync.go:71-77 | one page: a snapshot replaces the kept one unless it is older |
| MetricsPaging.LastEntryIsNewest | services/canister-otlp-syncer/internal/sync/sync.go:71-77 | among ascending entries the last of a canister is its newest |
| MetricsPaging.ReportIsNewest | services/canister-otlp-syncer/internal/sync/sync.go:42-101 | a drain of a fixed store reports one entry per canister with a snapshot after the cursor, its newest, and nothing else |
| PrincipalOrder.RankOrder | services/canister-otlp-syncer/internal/sync/sync.go:119-121 | numbering principals by length and then bytes gives each its own number, in their order |
| SyncCursor.CursorReachesIff | services/canister-otlp-syncer/internal/sync/sync.go:119-121 | the start cursor, a time and 29 zero bytes, reaches a snapshot of that time exactly when its principal has 29 bytes and not only zeros |
| SyncCursor.CanistersAtStartAreMissed | services/canister-otlp-syncer/internal/sync/sync.go:56-82 | no drain from the start cursor returns a canister's snapshot of the start time: ten-byte ids order before the cursor |
| SyncCursor.StartCoversItsTimeIff | services/canister-otlp-syncer/internal/sync/sync.go:119-121 | the start time is covered exactly when every principal stored at it has 29 bytes and not only zeros |
| SyncCursor.PagesReachTheirCursor | services/canister-otlp-syncer/internal/sync/sync.go:60-86 | the pages of an unfinished run hold exactly the keys up to its last cursor |
| SyncCursor.DrainHoldsIff | services/canister-otlp-syncer/internal/sync/sync.go:60-86 | a complete drain of a fixed store holds exactly the stored keys after its cursor |
| SyncCursor.ResumedRunCoversIff | services/canister-otlp-syncer/internal/sync/sync.go:82-117 | a failed run and the one that resumes at its saved time together cover everything after the start exactly when, at the saved time, everything beyond the last cursor belongs to 29-byte principals |
| Workspace.RunKeepsSound | src/backend/src/service/team_service.rs:46-204 | over every run: mirrored indexes, references that stay within their organisation, a populated ORG_ADMIN team and a project in every organisation, a team in every project |
| Workspace.EveryOrgIsUsable | src/backend/src/service/team_service.rs:180-204 | in every reachable state each organisation has a member who passes the ORG_ADMIN check, a project, and a team of its own on each project |
| Workspace.OrganizationsStay | src/backend/src/service/organization_service.rs:207-237 | `delete_organization` is refused in every reachable state, so no organisation or membership is ever lost |
| Workspace.DeleteOrganizationRefused | src/backend/src/service/organization_service.rs:220-225 | in a sound state one of its guards always fires |
| Workspace.RunKeepsCapped | src/backend/src/service/team_service.rs:51-55 | no organisation ever has more than 50 teams or 50 projects |
| Workspace.GranterCeiling | src/backend/src/service/access_control_service.rs:272-283 | no message gives a user an organisation permission that neither they nor the caller held, except to the creator of the team or organisation it creates |
| Workspace.RaisesIff | src/backend/src/service/access_control_service.rs:272-283 | a message raises somebody above their own and the caller's organisation flags exactly when it creates an organisation or, within the cap, a team for a caller with TEAM_MANAGE who lacks some flag |
| Workspace.CreatorHoldsAll | src/backend/src/data/team_repository.rs:13-34 | whoever creates a team or an organisation holds every flag there afterwards |
| Workspace.TeamManagerBecomesAdmin | src/backend/src/service/team_service.rs:46-64 | a reachable run in which a member who holds TEAM_MANAGE only gains ORG_ADMIN by creating a team |
| Workspace.RaisesOnProjectIff | src/backend/src/service/access_control_service.rs:373-383 | a message raises somebody above their own and the caller's flags on a project exactly when it is accepted and creates an organisation or project, links a team with a member who lacks some flag together with the caller, or adds a user to a team that holds more on some project than the two |
| WorkspaceEffects.TeamMembersAreHistory | src/backend/src/service/team_service.rs:46-178 | in every reachable state the members of a team are exactly those whom an accepted message put in and no later one took out |
| WorkspaceEffects.LinksAreHistory | src/backend/src/service/project_service.rs:62-250 | likewise the teams linked to a project |
| WorkspaceEffects.TeamMembersIff | src/backend/src/service/team_service.rs:126-178 | what one message does to every membership, in both indexes: a removal removes exactly that pair, a deleted team loses all |
| WorkspaceEffects.RevokedFlags | src/backend/src/service/team_service.rs:151-178 | after a removal or the deletion of a team a user holds an organisation flag exactly when another of their teams held it |
| WorkspaceEffects.RevokedProjectFlags | src/backend/src/service/project_service.rs:134-222 | after a removal, a deleted team, an unlinking or a deleted project a user holds a project flag exactly when another of their linked teams held it |
| WorkspaceEffects.LinksIff | src/backend/src/service/project_service.rs:62-222 | what one message does to every link between a project and a team, in both indexes |
| WorkspaceEffects.LinkFlagsAre | src/backend/src/service/project_service.rs:227-250 | a new link holds every flag, and afterwards those it was last given |
| WorkspaceEffects.TeamsIff | src/backend/src/service/team_service.rs:46-109 | a team exists from its creation until its deletion, in the organisation it was created in |
| WorkspaceEffects.TeamFlagsAre | src/backend/src/service/team_service.rs:185-204 | a new team holds every flag, and afterwards those it was last given |
| WorkspaceEffects.ProjectsIff | src/backend/src/service/project_service.rs:62-157 | a project exists from its creation until its deletion, in the organisation it was created in |
| WorkspaceEffects.MembersIff | src/backend/src/data/organization_repository.rs:118-123 | members come by founding an organisation or accepting an invite to it, and they stay |
| WorkspaceEffects.InvitedIff | src/backend/src/service/invite_service.rs:23-80 | an organisation can be joined from the first invite to it on |
| WorkspaceEffects.AcceptedIff | src/backend/src/service/access_control_service.rs:224-355 | a message is accepted exactly when its sender holds what it takes and it leaves an administrator to the organisation, a project to the organisation and a team to the project |
| Workspace.StepKeepsSound | src/backend/src/service/team_service.rs:46-204 | each message keeps the invariant |
| Workspace.BootstrapKeeps | src/backend/src/service/organization_service.rs:123-164 | a new organisation starts sound |
| Workspace.AddTeamKeeps | src/backend/src/data/team_repository.rs:17-34 | a new team keeps it |
| Workspace.RemoveTeamKeeps | src/backend/src/data/team_repository.rs:172-188 | the populated-elsewhere guard is enough for deleting a team |
| Workspace.RemoveFromTeamKeeps | src/backend/src/data/team_repository.rs:212-230 | the guard that counts the membership as already gone is enough for removing a member |
| Workspace.SetPermissionsKeeps | src/backend/src/service/team_service.rs:185-204 | the guard on dropping ORG_ADMIN is enough for overwriting permissions |
| Workspace.UnlinkedTeam | src/backend/src/service/team_service.rs:97-105 | a team that passes the no-projects guard has no links left to remove |
| Workspace.CreatorHasTeam | src/backend/src/service/project_service.rs:82-89 | PROJECT_CREATE is held through a team of the organisation, so a new project gets a team |
| Workspace.AddProjectKeeps | src/backend/src/service/project_service.rs:62-98 | a new project with those teams keeps the invariant |
| Workspace.RemoveProjectKeeps | src/backend/src/service/project_service.rs:134-157 | the at-least-two guard is enough for deleting a project |
| Workspace.UnlinkTeamKeeps | src/backend/src/service/project_service.rs:216-222 | the at-least-two guard is enough for unlinking a team |
| Workspace.LinkTeamKeeps | src/backend/src/service/project_service.rs:178-202 | linking a team of the same organisation keeps the invariant |
| WorkspaceRepositories.OrganizationRepository.CreateOrg | src/backend/src/data/organization_repository.rs:12-22 | a fresh organisation with its creator in both membership indexes |
| WorkspaceRepositories.OrganizationRepository.AddUserToOrg | src/backend/src/data/organization_repository.rs:118-123 | both membership indexes gain the pair |
| WorkspaceRepositories.OrganizationRepository.DeleteOrg | src/backend/src/data/organization_repository.rs:51-71 | the record and, by the removal loop, both indexes lose the organisation |
| WorkspaceRepositories.TeamRepository.CreateTeamWithPermissions | src/backend/src/data/team_repository.rs:17-34 | a fresh team with its first member and its permissions |
| WorkspaceRepositories.TeamRepository.DeleteTeam | src/backend/src/data/team_repository.rs:61-84 | record, permission entry and both membership indexes lose the team |
| WorkspaceRepositories.TeamRepository.RemoveMembers | src/backend/src/data/team_repository.rs:72-80 | the removal loop empties exactly that team in both indexes |
| WorkspaceRepositories.TeamRepository.DeleteOrgTeams | src/backend/src/data/team_repository.rs:89-113 | the nested loops remove exactly the organisation's teams and their members |
| WorkspaceRepositories.TeamRepository.SetPermissions | src/backend/src/data/team_repository.rs:123-133 | overwrites an existing link, otherwise nothing |
| WorkspaceRepositories.TeamRepository.AddUser | src/backend/src/data/team_repository.rs:190-195 | both membership indexes gain the pair |
| WorkspaceRepositories.TeamRepository.RemoveUser | src/backend/src/data/team_repository.rs:198-203 | both membership indexes lose the pair |
| WorkspaceRepositories.TeamRepository.AggregateUserOrgPermissions | src/backend/src/data/team_repository.rs:146-165 | a flag is in the union exactly when some team of the user in the organisation holds it |
| WorkspaceRepositories.ProjectRepository.CreateProject | src/backend/src/data/project_repository.rs:25-34 | a fresh project under its organisation |
| WorkspaceRepositories.ProjectRepository.AddTeam | src/backend/src/data/project_repository.rs:40-51 | both permission indexes gain the link |
| WorkspaceRepositories.ProjectRepository.RemoveTeamFromProject | src/backend/src/data/project_repository.rs:53-60 | both permission indexes lose the link |
| WorkspaceRepositories.ProjectRepository.SetPermissions | src/backend/src/data/project_repository.rs:82-99 | overwrites an existing link in both indexes, otherwise nothing |
| WorkspaceRepositories.ProjectRepository.DeleteProject | src/backend/src/data/project_repository.rs:152-175 | record, project index and, by the loop, both permission indexes lose the project |
| WorkspaceRepositories.ProjectRepository.RemoveTeamProjectLinks | src/backend/src/data/project_repository.rs:187-200 | the loop removes exactly the team's links from both indexes |
| WorkspaceRepositories.ProjectRepository.AggregateTeamProjectPermissions | src/backend/src/data/project_repository.rs:103-121 | the union over the linked teams, and whether there is one |
| WorkspaceService.Service.RequireOrg | src/backend/src/service/access_control_service.rs:224-244 | passes exactly for members whose teams together hold what is needed |
| WorkspaceService.Service.RequireTeamAccess | src/backend/src/service/access_control_service.rs:422-440 | the same, resolved through the team |
| WorkspaceService.Service.RequireProject | src/backend/src/service/access_control_service.rs:315-355 | passes exactly for members of the project's organisation with a linked team and the needed flags |
| WorkspaceService.Service.BootstrapOrganization | src/backend/src/service/user_profile_service.rs:131-133 | organisation, default team and default project of a new profile |
| WorkspaceService.Service.CreateOrganization | src/backend/src/service/organization_service.rs:123-164 | refused from the twentieth organisation on; otherwise the bootstrap |
| WorkspaceService.Service.DeleteOrganization | src/backend/src/service/organization_service.rs:207-237 | guards first, then teams, then the organisation, as the machine says |
| WorkspaceService.Service.AcceptInvite | src/backend/src/service/invite_service.rs:198-206 | joining is idempotent |
| WorkspaceService.Service.CreateTeam | src/backend/src/service/team_service.rs:46-64 | the machine's step, or refused without change |
| WorkspaceService.Service.DeleteTeam | src/backend/src/service/team_service.rs:87-109 | every guard precedes the first write |
| WorkspaceService.Service.AddUserToTeam | src/backend/src/service/team_service.rs:126-149 | members only, within the caller's own permissions, idempotent |
| WorkspaceService.Service.RemoveUserFromTeam | src/backend/src/service/team_service.rs:151-178 | idempotent, and never the last member of the last ORG_ADMIN team |
| WorkspaceService.Service.UpdateTeamOrgPermissions | src/backend/src/service/team_service.rs:185-204 | within the caller's own permissions, and never the last ORG_ADMIN |
| WorkspaceService.Service.CreateProject | src/backend/src/service/project_service.rs:62-98 | the linking loop links all of the creator's teams in the organisation |
| WorkspaceService.Service.DeleteProject | src/backend/src/service/project_service.rs:134-157 | not the last project, and none with canisters |
| WorkspaceService.Service.AddTeamToProject | src/backend/src/service/project_service.rs:178-202 | only teams of the same organisation, idempotent |
| WorkspaceService.Service.RemoveTeamFromProject | src/backend/src/service/project_service.rs:204-225 | idempotent, and never the last team |
| WorkspaceService.Service.UpdateTeamProjectPermissions | src/backend/src/service/project_service.rs:227-250 | only existing links, within the caller's own permissions |
| Accounts.RunKeepsSound | src/backend/src/service/principal_link_service.rs:40-247 | over every run: inverse principal indexes, a principal for every user, names only for linked principals, users and services disjoint, exact email index and counters, link codes as registered |
| Accounts.EachCodeLinksAtMostOnce | src/backend/src/service/principal_link_service.rs:40-100 | every link made with a code redeems one registration: same code, only the bound principal, before expiry, with no other link or registration of that user in between |
| Accounts.RedeemableIff | src/backend/src/service/principal_link_service.rs:75-100 | a pending code works for its target exactly when it has not expired, no user with a smaller id has the same code pending, and the target is unclaimed |
| AccountEffects.ClaimsAreProved | src/backend/src/service/user_profile_service.rs:229-267 | in every reachable state an address belongs to a user exactly when one of the user's principals proved it and the user has not changed their address since |
| AccountEffects.ClaimWasProved | src/backend/src/service/user_profile_service.rs:229-267 | behind every claim there is an accepted verification by a principal that was the user's then, with a token of the right purpose for that address |
| AccountEffects.RecoveryIsProved | src/backend/src/service/principal_link_service.rs:219-247 | a caller who recovers an account joins a user one of whose principals proved the claimed address |
| AccountEffects.ProofAcceptedIff | src/backend/src/service/user_profile_service.rs:229-267 | a verification is accepted exactly when its token is for the stored address and no other user holds that |
| AccountEffects.ClaimIff | src/backend/src/service/user_profile_service.rs:154-267 | what one message does to every claim |
| AccountEffects.LinksAreHistory | src/backend/src/data/user_profile_repository.rs:64-124 | in every reachable state the principals of a user are exactly those that an accepted message attached and no later one detached |
| AccountEffects.LinkedIff | src/backend/src/data/user_profile_repository.rs:64-124 | what one message does to every link between a user and a principal, in both indexes |
| AccountEffects.PendingWasRegistered | src/backend/src/service/principal_link_service.rs:40-158 | a pending code was registered by its user, with that target and expiry, and nothing has ended it since |
| AccountEffects.CodeIs | src/backend/src/service/principal_link_service.rs:40-158 | a pending code is the one its user registered last; it goes when its target presents it, even if that is refused, when revoked, seen expired, or at an upgrade |
| AccountEffects.ProfileIs | src/backend/src/service/user_profile_service.rs:89-185 | address, verification, status and staff flags change exactly where an accepted message for that user says so |
| AccountEffects.NameIs | src/backend/src/data/user_profile_repository.rs:101-162 | a name is the last one given to the link, until it is cleared or the principal is unlinked |
| AccountEffects.ServiceIs | src/backend/src/service/service_principal_service.rs:12-39 | a service principal holds what it was last granted, until it is revoked |
| AccountEffects.AcceptedIff | src/backend/src/service/principal_link_service.rs:40-247 | the exact condition under which each message is accepted: free principals, links, codes, claims and staff flags |
| Accounts.MigrationEstablishes | src/backend/src/data/user_profile_repository.rs:203-241 | from any profiles and an empty index the migration makes the index exact, and takes the flag only from users who share an address |
| Accounts.MigrationChangesNothing | src/backend/src/data/user_profile_repository.rs:203-241 | repeating it on an exact index changes neither index nor profiles |
| Accounts.ChangeEmailKeeps | src/backend/src/service/user_profile_service.rs:163-179 | changing the address releases the old claim and keeps the index exact |
| Accounts.VerifyKeeps | src/backend/src/service/user_profile_service.rs:258-264 | claiming before setting the flag keeps the index exact |
| Accounts.StepKeepsPrincipals | src/backend/src/data/user_profile_repository.rs:64-162 | every message keeps the principal indexes inverse, inhabited and disjoint from services |
| Accounts.NewPrincipal | src/backend/src/data/user_profile_repository.rs:81-97 | linking an unclaimed principal keeps them |
| Accounts.UnlinkKeeps | src/backend/src/data/user_profile_repository.rs:101-124 | the refusal to remove the last principal keeps every account reachable |
| Accounts.StepKeepsEmails | src/backend/src/data/user_profile_repository.rs:164-241 | every message keeps the email index exact |
| Accounts.StepKeepsStats | src/backend/src/data/user_profile_repository.rs:276-304 | total, active and inactive are the exact counts, so no counter goes below zero |
| Accounts.StepKeepsCodes | src/backend/src/service/principal_link_service.rs:40-158 | a pending code is its user's last event, and every link is covered by its registration |
| Accounts.StepKeepsSound | src/backend/src/service/principal_link_service.rs:40-247 | each message keeps the invariant |
| AccountService.Service.LinkPrincipalToUser | src/backend/src/data/user_profile_repository.rs:81-97 | links exactly for existing users and unlinked principals |
| AccountService.Service.UnlinkPrincipalFromUser | src/backend/src/data/user_profile_repository.rs:101-124 | unlinks exactly a principal that is not the user's last |
| AccountService.Service.ClaimVerifiedEmail | src/backend/src/data/user_profile_repository.rs:169-181 | claims unless another user holds the key |
| AccountService.Service.ReleaseVerifiedEmail | src/backend/src/data/user_profile_repository.rs:186-195 | releases only the user's own claim |
| AccountService.Service.UpdateUserStatusCount | src/backend/src/data/user_profile_repository.rs:289-304 | moves one between active and inactive |
| AccountService.Service.CollectClaimants | src/backend/src/data/user_profile_repository.rs:207-216 | groups exactly the verified users by address |
| AccountService.Service.ResetVerified | src/backend/src/data/user_profile_repository.rs:226-234 | resets exactly those users |
| AccountService.Service.MigrateVerifiedEmailIndex | src/backend/src/data/user_profile_repository.rs:203-241 | both passes together are the specified migration, for any starting index |
| AccountService.Service.CreateMyUserProfile | src/backend/src/service/user_profile_service.rs:119-152 | a fresh account for an unclaimed principal, counted as inactive |
| AccountService.Service.UpdateMyUserProfile | src/backend/src/service/user_profile_service.rs:154-185 | the new address, and loss of verification exactly when it changes |
| AccountService.Service.VerifyMyEmail | src/backend/src/service/user_profile_service.rs:229-267 | verifies the stored address against the claim, refused without change on a collision |
| AccountService.Service.UpdateUserProfile | src/backend/src/service/user_profile_service.rs:89-112 | status and counters move together |
| AccountService.Service.RegisterLinkCode | src/backend/src/service/principal_link_service.rs:40-73 | replaces the user's code, drops expired ones, and expires after 15 minutes (saturating) |
| AccountService.Service.FindCode | src/backend/src/service/principal_link_service.rs:82-86 | the match with the smallest user id |
| AccountService.Service.LinkMyPrincipal | src/backend/src/service/principal_link_service.rs:75-100 | the code is spent before the principal is checked; refusals only drop expired codes |
| AccountService.Service.GetMyPendingLinkCode | src/backend/src/service/principal_link_service.rs:132-146 | shows only unexpired codes |
| AccountService.Service.RevokeMyLinkCode | src/backend/src/service/principal_link_service.rs:148-158 | removes the caller's code |
| AccountService.Service.UnlinkMyPrincipal | src/backend/src/service/principal_link_service.rs:102-105 | the machine's step |
| AccountService.Service.SetMyPrincipalName | src/backend/src/data/user_profile_repository.rs:141-162 | names only a linked principal; no name clears it |
| Accounts.StaffAuthorityIs | src/backend/src/service/access_control_service.rs:102-121 | in every sound state a caller's staff flags are all of them for a controller, otherwise those of its service principal or of its active user, so the order of the three does not matter; principals of an inactive user hold nothing |
| AccountService.Service.AdminLinkPrincipalToUser | src/backend/src/service/principal_link_service.rs:171-194 | bounded by the caller's own staff permissions |
| AccountService.Service.AdminUnlinkPrincipalFromUser | src/backend/src/service/principal_link_service.rs:199-206 | the last principal stays |
| AccountService.Service.RecoverWithClaims | src/backend/src/service/principal_link_service.rs:228-247 | links the caller to the account that holds the verified address |
| AccountService.Service.GrantServicePrincipal | src/backend/src/service/service_principal_service.rs:12-31 | never a linked, anonymous or empty grant; granting again is allowed |
| AccountService.Service.RevokeServicePrincipal | src/backend/src/service/service_principal_service.rs:33-39 | removes the entry |
| AccountService.Service.PostUpgrade | src/backend/src/lib.rs:27-40 | codes are lost and the migration runs |
| Invites.RunKeepsSound | src/backend/src/data/invite_repository.rs:23-116 | over every run, whatever the clock says: both indexes mirror the map, no organisation stores more than ten pending invites, and every member of an organisation accepted an invite to it |
| Invites.SweptCountIsDirect | src/backend/src/data/invite_repository.rs:87-116 | after the sweep the counted range is exactly the unexpired pending invites |
| Invites.CountIsUnexpiredIff | src/backend/src/data/invite_repository.rs:87-97 | without a sweep the range counts the unexpired ones exactly when none expires at that very moment |
| Invites.DecidedStaysForever | src/backend/src/service/invite_service.rs:106-243 | an accepted, declined or revoked invite never changes or disappears |
| Invites.DecidedStays | src/backend/src/service/invite_service.rs:106-243 | no single message changes one |
| Invites.SweptIs | src/backend/src/data/invite_repository.rs:99-116 | a sweep removes the organisation's expired pending invites and nothing else |
| Invites.SweepKeepsMirror | src/backend/src/data/invite_repository.rs:99-116 | and keeps both indexes exact |
| Invites.RangeSize | src/backend/src/data/invite_repository.rs:87-97 | counting index keys counts invites |
| Invites.UpdateKeepsMirror | src/backend/src/data/invite_repository.rs:39-55 | replacing an invite moves its keys in both indexes |
| Invites.CreateKeeps | src/backend/src/service/invite_service.rs:55-72 | sweep, count and insert keep the cap |
| Invites.SetStatusKeeps | src/backend/src/service/invite_service.rs:106-243 | declining and revoking keep the cap, the indexes and what the memberships rest on |
| Invites.AcceptKeeps | src/backend/src/service/invite_service.rs:170-209 | the accepted invite accounts for the membership that it adds |
| Invites.MembersAreCounted | src/backend/src/service/invite_service.rs:170-209 | different memberships rest on different accepted invites |
| InviteEffects.MembersAccepted | src/backend/src/service/invite_service.rs:170-209 | in every reachable state the members gained through invites are exactly those who accepted one |
| InviteEffects.JoinedRightly | src/backend/src/service/invite_service.rs:170-209 | the invite that made somebody a member was pending, not expired, and meant for them |
| InviteEffects.MembersIff | src/backend/src/service/invite_service.rs:170-209 | accepting an invite makes its user a member, and nothing else does |
| InviteEffects.InviteIs | src/backend/src/service/invite_service.rs:23-243 | an invite is what its creation made it, with the status of the message that decided it; it goes once a creation in its organisation finds it pending and expired |
| InviteEffects.DoneIff | src/backend/src/service/invite_service.rs:23-243 | the exact condition under which an invite is created, answered or revoked |
| InviteEffects.AddressedIff | src/backend/src/service/invite_service.rs:170-209 | an invite is meant for a user by id, by one of their principals, or by their verified address up to the case of letters |
| Invites.StepKeepsSound | src/backend/src/service/invite_service.rs:23-243 | each message keeps the invariant |
| InviteService.Service.CreateInvite | src/backend/src/data/invite_repository.rs:23-33 | a fresh id in the map and both indexes |
| InviteService.Service.UpdateInvite | src/backend/src/data/invite_repository.rs:39-55 | old keys out, new keys in |
| InviteService.Service.SweepExpiredOrgInvites | src/backend/src/data/invite_repository.rs:99-116 | the removal loop is the specified sweep |
| InviteService.Service.CreateOrgInvite | src/backend/src/service/invite_service.rs:23-80 | the machine's step; a refusal over the cap has swept |
| InviteService.Service.AcceptOrgInvite | src/backend/src/service/invite_service.rs:170-209 | pending, unexpired and addressed to the caller, or refused |
| InviteService.Service.DeclineOrgInvite | src/backend/src/service/invite_service.rs:211-243 | likewise |
| InviteService.Service.RevokeOrgInvite | src/backend/src/service/invite_service.rs:106-136 | by its creator or a member manager, and only while pending |

## Left out

- ProposalService.Service.CreateProposal: the caller's access to the project is an input, as it is for votes and cancellations, and so are the policy and the approvers found.
- ProposalProtocol.RunKeepsInvariant: anyone may create, vote and cancel; the permission checks of the service only remove behaviours.
- ProposalProtocol.StepKeepsInvariant: deleting a project is possible whenever it has no canisters, without the guard on the last project, which only adds behaviours.
- CanisterQuota.ActiveCanistersBounded: the plan limit of an organisation is fixed during the run, and canisters found by child discovery do not count as executions.
- CanisterTracking.CanisterService.RecordCreated: the call to the management canister is not modelled, only what is recorded after it.
- CanisterIdRanges.SyncPass: the metrics call for each id is not modelled; its replies are the insertions of `MetricsStore`.
- HistorySync.HistoriesStaySound: no trap during a run is assumed; the stop after 100 failed canisters is not modelled (the run may end after any batch).
- HistoryStore.HistoryRepository.StoreReply: creations found in a reply are returned, sending them to the backend and the store of failed mappings are not modelled.
- MetricsPaging.Run: pushing the metrics is not modelled, and the start time is an input: read from the file or, without one, an hour ago.
- WorkspaceService.Service.DeleteProject: whether the project has canisters is an input.
- WorkspaceService.Service.AcceptInvite: that the invite is pending and addressed to the user is proved in `Invites`; here an invite to the organisation must exist.
- AccountService.Service.VerifyMyEmail: checking the token is not modelled; its email and whether its purpose fits are inputs.
- AccountService.Service.RecoverWithClaims: likewise.
- AccountService.Service.SetMyPrincipalName: the shape check of the name is not modelled.
- AccountService.Service.SetStaffPermissions: the permission checks of the controller layer for staff, status and service principal changes are not modelled.
- InviteService.Service.CreateOrgInvite: the permission check, and whether a user or principal target is a member already, are inputs.
- Error texts, names of organisations, teams, projects and proposals' operation arguments, and creation and update times.
- The listing functions for projects, canisters, changes, invites and users, including the page loops of `list_project_proposals` and `list_canister_changes`.
- Canister start, stop and status calls, cycles ledger, approval policy store, billing plan store, terms and conditions, trusted partners, staleness of users, metrics counts.
- Cryptography and tokens, payment callbacks, candid and CBOR encodings, stable memory layout.
- Upgrades, except that of the account store; the legacy migrations of permissions, principals and proposals.
- The Go session store, authorisation cache, mail throttle, and the frontend.
