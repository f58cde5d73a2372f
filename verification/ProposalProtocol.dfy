/** Stored proposals and the status changes the repository allows. */
module Proposals {
  import opened Primitives
  import opened Ballots

  type ProposalId = nat

  datatype ProposalStatus =
    | Open
    | PendingApproval(threshold: nat, approvers: seq<UserId>, votes: seq<Ballot>)
    | Rejected
    | Cancelled
    | Executing
    | Executed
    | Failed

  datatype Operation = CreateCanister | AddCanisterController

  datatype Proposal = Proposal(project: ProjectId, proposer: UserId, status: ProposalStatus, operation: Operation)

  function AwaitApproval(status: ProposalStatus, threshold: nat, approvers: seq<UserId>): Result<ProposalStatus> {
    if status.Open? then Ok(PendingApproval(threshold, approvers, [])) else Err
  }

  function CastVote(status: ProposalStatus, voter: UserId, vote: Vote): Result<(ProposalStatus, VoteOutcome)> {
    if !status.PendingApproval? || voter !in status.approvers || HasVoted(status.votes, voter) then Err
    else
      var votes := status.votes + [Ballot(voter, vote)];
      var outcome := Tally(status.threshold, |status.approvers|, votes);
      Ok((if outcome.ReachedRejection? then Rejected else status.(votes := votes), outcome))
  }

  function Cancel(status: ProposalStatus): Result<ProposalStatus> {
    if status.Open? || status.PendingApproval? then Ok(Cancelled) else Err
  }

  // An accepted ballot keeps a pending proposal undecided, or decides it: the invariant of the
  // stored ballots breaks only when the service must start execution at once.
  lemma VoteKeepsInvariant(status: ProposalStatus, voter: UserId, vote: Vote)
    requires status.PendingApproval? && PendingInvariant(status.threshold, status.approvers, status.votes)
    ensures var r := CastVote(status, voter, vote);
            && (r.Ok? <==> voter in status.approvers && !HasVoted(status.votes, voter))
            && (r.Ok? ==>
                  var votes := status.votes + [Ballot(voter, vote)];
                  && Admissible(status.approvers, votes)
                  && (r.value.1.ReachedApproval? <==> vote.Approve? && Count(votes, Approve) == status.threshold)
                  && (r.value.1.ReachedRejection? <==>
                        vote.Reject? && Count(votes, Reject) == |status.approvers| - status.threshold + 1)
                  && (r.value.1.StillPending? <==> PendingInvariant(status.threshold, status.approvers, votes)))
  {
    var votes := status.votes + [Ballot(voter, vote)];
    assert votes[..|votes| - 1] == status.votes;
    assert Count(votes, Approve) == Count(status.votes, Approve) + if vote.Approve? then 1 else 0;
    assert Count(votes, Reject) == Count(status.votes, Reject) + if vote.Reject? then 1 else 0;
  }

  class ProposalRepository {
    var proposals: map<ProposalId, Proposal>
    var projectIndex: set<(ProjectId, ProposalId)>

    ghost predicate Valid()
      reads this
    {
      forall p, id :: (p, id) in projectIndex <==> id in proposals && proposals[id].project == p
    }

    constructor ()
      ensures Valid() && proposals == map[]
    {
      proposals, projectIndex := map[], {};
    }

    method CreateProposal(proposal: Proposal) returns (id: ProposalId)
      requires Valid()
      modifies this
      ensures Valid() && id !in old(proposals) && proposals == old(proposals)[id := proposal]
    {
      id := FreshId(proposals.Keys);
      proposals := proposals[id := proposal];
      projectIndex := projectIndex + {(proposal.project, id)};
    }

    // `set_proposal_status`: no guard on the current status.
    method SetProposalStatus(id: ProposalId, status: ProposalStatus) returns (r: Result<()>)
      requires Valid()
      modifies this
      ensures Valid() && (r.Ok? <==> id in old(proposals))
      ensures proposals == if id in old(proposals) then old(proposals)[id := old(proposals)[id].(status := status)]
                           else old(proposals)
    {
      if id !in proposals {
        return Err;
      }
      proposals := proposals[id := proposals[id].(status := status)];
      r := Ok(());
    }

    method SetProposalPendingApproval(id: ProposalId, threshold: nat, approvers: seq<UserId>) returns (r: Result<()>)
      requires Valid()
      modifies this
      ensures Valid() && (r.Ok? <==> id in old(proposals) && old(proposals)[id].status.Open?)
      ensures proposals ==
              if r.Ok?
                then old(proposals)[id := old(proposals)[id].(status := PendingApproval(threshold, approvers, []))]
              else old(proposals)
    {
      if id !in proposals || !proposals[id].status.Open? {
        return Err;
      }
      r := SetProposalStatus(id, PendingApproval(threshold, approvers, []));
    }

    method RecordProposalVote(id: ProposalId, voter: UserId, vote: Vote) returns (r: Result<VoteOutcome>)
      requires Valid()
      modifies this
      ensures Valid()
      ensures var cast := if id in old(proposals) then CastVote(old(proposals)[id].status, voter, vote) else Err;
              if cast.Ok? then
                r == Ok(cast.value.1) && proposals == old(proposals)[id := old(proposals)[id].(status := cast.value.0)]
              else r == Err && proposals == old(proposals)
    {
      if id !in proposals || !proposals[id].status.PendingApproval? {
        return Err;
      }
      var status := proposals[id].status;
      var voted := false;
      for i := 0 to |status.votes|
        invariant voted <==> exists k :: 0 <= k < i && status.votes[k].voter == voter
        invariant Valid() && proposals == old(proposals)
      {
        voted := voted || status.votes[i].voter == voter;
      }
      if voter !in status.approvers || voted {
        return Err;
      }
      var votes := status.votes + [Ballot(voter, vote)];
      var approvals := CountBallots(votes, Approve);
      var rejections := CountBallots(votes, Reject);
      var outcome :=
        if approvals >= status.threshold then ReachedApproval
        else if rejections > SaturatingSub(|status.approvers|, status.threshold) then ReachedRejection
        else StillPending;
      var next := if outcome.ReachedRejection? then Rejected else status.(votes := votes);
      var _ := SetProposalStatus(id, next);
      r := Ok(outcome);
    }

    method CancelProposal(id: ProposalId) returns (r: Result<()>)
      requires Valid()
      modifies this
      ensures Valid() && (r.Ok? <==> id in old(proposals) && Cancel(old(proposals)[id].status).Ok?)
      ensures proposals ==
              if r.Ok? then old(proposals)[id := old(proposals)[id].(status := Cancelled)] else old(proposals)
    {
      if id !in proposals || Cancel(proposals[id].status).Err? {
        return Err;
      }
      r := SetProposalStatus(id, Cancelled);
    }
  }

  method CountBallots(votes: seq<Ballot>, vote: Vote) returns (n: nat)
    ensures n == Count(votes, vote)
  {
    n := 0;
    for i := 0 to |votes|
      invariant n == Count(votes[..i], vote)
    {
      assert votes[..i + 1][..i] == votes[..i];
      if votes[i].vote == vote {
        n := n + 1;
      }
    }
    assert votes[..|votes|] == votes;
  }
}

/** The proposal protocol as a state machine: one event is one message up to its next await. */
module ProposalProtocol {
  import opened Primitives
  import opened Ballots
  import opened Proposals

  type CallId = nat

  datatype PolicyType = AutoApprove | FixedQuorum(threshold: nat)

  // An outstanding call to the management canister, and the proposal whose execution awaits it.
  datatype CallStep = CreatingCanister | ReadingStatus | UpdatingSettings
  datatype Call = Call(proposal: ProposalId, step: CallStep)

  datatype Reply =
    | CallRejected
    | CanisterCreated(canister: CanisterId)
    | Controllers(alreadyListed: bool)
    | SettingsUpdated

  // `started` records the proposals whose execution has begun, in order; nothing reads it.
  datatype System = System(
    proposals: map<ProposalId, Proposal>,
    calls: map<CallId, Call>,
    orgOf: map<ProjectId, OrgId>,
    active: set<(ProjectId, CanisterId)>,
    deleted: set<(ProjectId, CanisterId)>,
    started: seq<ProposalId>)

  // Ids chosen by the environment (new proposals, calls, canisters) come with the event.
  datatype Event =
    | CreateProposal(id: ProposalId, project: ProjectId, proposer: UserId, operation: Operation,
                     policy: PolicyType, approvers: seq<UserId>, call: CallId)
    | VoteProposal(id: ProposalId, voter: UserId, vote: Vote, call: CallId)
    | CancelProposal(id: ProposalId)
    | ReplyArrives(call: CallId, reply: Reply)
    | RemoveCanister(project: ProjectId, canister: CanisterId)
    | AddProject(project: ProjectId, org: OrgId)
    | DeleteProject(project: ProjectId)

  type Limits = OrgId -> nat

  function OrgCanisters(s: System, org: OrgId): set<(ProjectId, CanisterId)> {
    set pc | pc in s.active && pc.0 in s.orgOf && s.orgOf[pc.0] == org
  }

  // CreateCanister executions of the organisation that still await their reply.
  function InFlight(s: System, org: OrgId): set<CallId> {
    set c | c in s.calls && s.calls[c].step.CreatingCanister? && s.calls[c].proposal in s.proposals &&
            var project := s.proposals[s.calls[c].proposal].project;
            project in s.orgOf && s.orgOf[project] == org
  }

  predicate QuotaExhausted(limits: Limits, s: System, project: ProjectId) {
    project in s.orgOf && |OrgCanisters(s, s.orgOf[project])| >= limits(s.orgOf[project])
  }

  function SetStatus(s: System, id: ProposalId, status: ProposalStatus): System
    requires id in s.proposals
  {
    s.(proposals := s.proposals[id := s.proposals[id].(status := status)])
  }

  // `execute_operation` up to its first await.
  function Execute(limits: Limits, s: System, id: ProposalId, call: CallId): System
    requires id in s.proposals
  {
    var e := SetStatus(s.(started := s.started + [id]), id, Executing);
    var project := s.proposals[id].project;
    match s.proposals[id].operation
    case CreateCanister =>
      if project !in s.orgOf || QuotaExhausted(limits, s, project) then SetStatus(e, id, Failed)
      else e.(calls := e.calls[call := Call(id, CreatingCanister)])
    case AddCanisterController => e.(calls := e.calls[call := Call(id, ReadingStatus)])
  }

  // `process_proposal`: a policy that cannot be met leaves the new proposal Open.
  function Process(limits: Limits, s: System, id: ProposalId, policy: PolicyType, approvers: seq<UserId>,
    call: CallId): System
    requires id in s.proposals
  {
    match policy
    case AutoApprove => Execute(limits, s, id, call)
    case FixedQuorum(threshold) =>
      if threshold < 1 || |approvers| < threshold then s
      else
        var next := AwaitApproval(s.proposals[id].status, threshold, approvers);
        if next.Ok? then SetStatus(s, id, next.value) else s
  }

  function Create(limits: Limits, s: System, e: Event): System
    requires e.CreateProposal?
  {
    if e.project !in s.orgOf || (e.operation.CreateCanister? && QuotaExhausted(limits, s, e.project)) then s
    else
      var proposal := Proposal(e.project, e.proposer, Open, e.operation);
      Process(limits, s.(proposals := s.proposals[e.id := proposal]), e.id, e.policy, e.approvers, e.call)
  }

  function VoteOn(limits: Limits, s: System, e: Event): System
    requires e.VoteProposal?
  {
    if e.id !in s.proposals then s
    else
      match CastVote(s.proposals[e.id].status, e.voter, e.vote)
      case Err => s
      case Ok((status, outcome)) =>
        var voted := SetStatus(s, e.id, status);
        if outcome.ReachedApproval? then Execute(limits, voted, e.id, e.call) else voted
  }

  // The execution continues after its await.
  function Resume(s: System, call: CallId, reply: Reply): System {
    if call !in s.calls || s.calls[call].proposal !in s.proposals then s
    else
      var id, rest := s.calls[call].proposal, s.(calls := s.calls - {call});
      match (s.calls[call].step, reply)
      case (CreatingCanister, CanisterCreated(canister)) =>
        SetStatus(rest.(active := rest.active + {(s.proposals[id].project, canister)}), id, Executed)
      case (ReadingStatus, Controllers(false)) => s.(calls := s.calls[call := Call(id, UpdatingSettings)])
      case (UpdatingSettings, SettingsUpdated) => SetStatus(rest, id, Executed)
      case _ => SetStatus(rest, id, Failed)
  }

  predicate HasCanisters(s: System, project: ProjectId) {
    (exists pc :: pc in s.active && pc.0 == project) || exists pc :: pc in s.deleted && pc.0 == project
  }

  function Step(limits: Limits, s: System, e: Event): System {
    match e
    case CreateProposal(_, _, _, _, _, _, _) => Create(limits, s, e)
    case VoteProposal(_, _, _, _) => VoteOn(limits, s, e)
    case CancelProposal(id) =>
      if id !in s.proposals || Cancel(s.proposals[id].status).Err? then s else SetStatus(s, id, Cancelled)
    case ReplyArrives(call, reply) => Resume(s, call, reply)
    case RemoveCanister(project, canister) =>
      if (project, canister) !in s.active then s
      else s.(active := s.active - {(project, canister)}, deleted := s.deleted + {(project, canister)})
    case AddProject(project, org) => s.(orgOf := s.orgOf[project := org])
    case DeleteProject(project) =>
      if project !in s.orgOf || HasCanisters(s, project) then s else s.(orgOf := s.orgOf - {project})
  }

  // What the environment guarantees: new ids are new, and the approver list has no repetitions.
  ghost predicate Possible(s: System, e: Event) {
    match e
    case CreateProposal(id, _, _, _, _, approvers, call) =>
      id !in s.proposals && id !in s.started && call !in s.calls && NoDuplicates(approvers)
    case VoteProposal(_, _, _, call) => call !in s.calls
    case AddProject(project, _) =>
      && project !in s.orgOf && !HasCanisters(s, project)
      && forall id :: id in s.proposals ==> s.proposals[id].project != project
    case _ => true
  }

  ghost function Run(limits: Limits, s: System, events: seq<Event>): System {
    if events == [] then s
    else Step(limits, Run(limits, s, events[..|events| - 1]), events[|events| - 1])
  }

  ghost predicate PossibleRun(limits: Limits, s: System, events: seq<Event>) {
    events != [] ==>
      && PossibleRun(limits, s, events[..|events| - 1])
      && Possible(Run(limits, s, events[..|events| - 1]), events[|events| - 1])
  }

  predicate Begun(status: ProposalStatus) {
    status.Executing? || status.Executed? || status.Failed?
  }

  predicate Final(status: ProposalStatus) {
    status.Rejected? || status.Cancelled? || status.Executed? || status.Failed?
  }

  ghost predicate BallotsSound(s: System) {
    forall id :: id in s.proposals && s.proposals[id].status.PendingApproval? ==>
      var p := s.proposals[id].status;
      PendingInvariant(p.threshold, p.approvers, p.votes)
  }

  // Executing proposals and outstanding calls are in one-to-one correspondence.
  ghost predicate CallsSound(s: System) {
    && (forall c :: c in s.calls ==>
         s.calls[c].proposal in s.proposals && s.proposals[s.calls[c].proposal].status.Executing?)
    && (forall c, d :: c in s.calls && d in s.calls && s.calls[c].proposal == s.calls[d].proposal ==> c == d)
    && (forall id :: id in s.proposals && s.proposals[id].status.Executing? ==>
         exists c :: c in s.calls && s.calls[c].proposal == id)
  }

  // Execution has begun for exactly the proposals whose status says so, and once for each.
  ghost predicate StartsSound(s: System) {
    && NoDuplicates(s.started)
    && (forall id :: id in s.started ==> id in s.proposals)
    && (forall id :: id in s.proposals ==> (id in s.started <==> Begun(s.proposals[id].status)))
  }

  ghost predicate Invariant(s: System) {
    BallotsSound(s) && CallsSound(s) && StartsSound(s)
  }

  // The status changes that one message can commit.
  ghost predicate Edge(before: ProposalStatus, after: ProposalStatus) {
    || after == before
    || (before.Open? && after.Cancelled?)
    || (before.PendingApproval? &&
        (after.Rejected? || after.Cancelled? || after.Executing? || after.Failed? ||
         (after.PendingApproval? && after.threshold == before.threshold && after.approvers == before.approvers &&
          |after.votes| == |before.votes| + 1 && after.votes[..|before.votes|] == before.votes)))
    || (before.Executing? && (after.Executed? || after.Failed?))
  }

  // An execution records its start and leaves the proposal Executing with its call, or Failed.
  lemma ExecuteResult(limits: Limits, s: System, id: ProposalId, call: CallId)
    requires id in s.proposals
    ensures var t := Execute(limits, s, id, call);
            && id in t.proposals && t.proposals == s.proposals[id := s.proposals[id].(status := t.proposals[id].status)]
            && t.started == s.started + [id]
            && (t.proposals[id].status.Failed? ==> t.calls == s.calls)
            && (!t.proposals[id].status.Failed? ==>
                  t.proposals[id].status.Executing? && call in t.calls &&
                    t.calls == s.calls[call := Call(id, t.calls[call].step)])
  {
    hide QuotaExhausted;
  }

  lemma ExecuteSound(limits: Limits, s: System, id: ProposalId, call: CallId)
    requires id in s.proposals && id !in s.started && !s.proposals[id].status.Executing? && call !in s.calls
    requires CallsSound(s) && NoDuplicates(s.started)
    requires forall i :: i in s.proposals && i != id && s.proposals[i].status.PendingApproval? ==>
               PendingInvariant(s.proposals[i].status.threshold, s.proposals[i].status.approvers,
                 s.proposals[i].status.votes)
    requires forall i :: i in s.started ==> i in s.proposals
    requires forall i :: i in s.proposals && i != id ==> (i in s.started <==> Begun(s.proposals[i].status))
    ensures Invariant(Execute(limits, s, id, call))
  {
    ExecuteResult(limits, s, id, call);
    ExecuteKeepsCalls(limits, s, id, call);
    hide Execute, CallsSound, PendingInvariant;
  }

  lemma ExecuteKeepsCalls(limits: Limits, s: System, id: ProposalId, call: CallId)
    requires CallsSound(s) && id in s.proposals && !s.proposals[id].status.Executing? && call !in s.calls
    ensures CallsSound(Execute(limits, s, id, call))
  {
    var t := Execute(limits, s, id, call);
    ExecuteResult(limits, s, id, call);
    hide Execute;
    forall i | i in t.proposals && t.proposals[i].status.Executing?
      ensures exists c :: c in t.calls && t.calls[c].proposal == i
    {
      if i == id {
        assert t.calls[call].proposal == i;
      } else {
        var c :| c in s.calls && s.calls[c].proposal == i;
        assert c in t.calls && t.calls[c].proposal == i;
      }
    }
  }

  lemma CreateSound(limits: Limits, s: System, e: Event)
    requires e.CreateProposal? && Invariant(s) && Possible(s, e)
    ensures Invariant(Create(limits, s, e))
  {
    if !(e.project !in s.orgOf || (e.operation.CreateCanister? && QuotaExhausted(limits, s, e.project))) {
      var with := s.(proposals := s.proposals[e.id := Proposal(e.project, e.proposer, Open, e.operation)]);
      assert CallsSound(with);
      if e.policy.AutoApprove? {
        ExecuteSound(limits, with, e.id, e.call);
      }
    }
  }

  lemma VoteSound(limits: Limits, s: System, e: Event)
    requires e.VoteProposal? && Invariant(s) && Possible(s, e)
    ensures Invariant(VoteOn(limits, s, e))
  {
    if e.id in s.proposals {
      var status := s.proposals[e.id].status;
      var cast := CastVote(status, e.voter, e.vote);
      if cast.Ok? {
        VoteKeepsInvariant(status, e.voter, e.vote);
        var voted := SetStatus(s, e.id, cast.value.0);
        assert CallsSound(voted);
        if cast.value.1.ReachedApproval? {
          ExecuteSound(limits, voted, e.id, e.call);
        }
      }
    }
  }

  // The last reply of an execution ends it and frees its call.
  lemma FinishSound(s: System, call: CallId, status: ProposalStatus, active: set<(ProjectId, CanisterId)>)
    requires Invariant(s) && call in s.calls && (status.Executed? || status.Failed?)
    ensures Invariant(SetStatus(s.(calls := s.calls - {call}, active := active), s.calls[call].proposal, status))
  {
    var t := SetStatus(s.(calls := s.calls - {call}, active := active), s.calls[call].proposal, status);
    forall id | id in t.proposals && t.proposals[id].status.Executing?
      ensures exists c :: c in t.calls && t.calls[c].proposal == id
    {
      var c :| c in s.calls && s.calls[c].proposal == id;
      assert c in t.calls && t.calls[c].proposal == id;
    }
  }

  lemma ContinueSound(s: System, call: CallId)
    requires Invariant(s) && call in s.calls
    ensures Invariant(s.(calls := s.calls[call := Call(s.calls[call].proposal, UpdatingSettings)]))
  {
    var t := s.(calls := s.calls[call := Call(s.calls[call].proposal, UpdatingSettings)]);
    forall id | id in t.proposals && t.proposals[id].status.Executing?
      ensures exists c :: c in t.calls && t.calls[c].proposal == id
    {
      var c :| c in s.calls && s.calls[c].proposal == id;
      assert c in t.calls && t.calls[c].proposal == id;
    }
  }

  lemma ResumeSound(s: System, call: CallId, reply: Reply)
    requires Invariant(s)
    ensures Invariant(Resume(s, call, reply))
  {
    if call in s.calls {
      var id := s.calls[call].proposal;
      assert id in s.proposals;
      hide Invariant;
      match (s.calls[call].step, reply)
      case (CreatingCanister, CanisterCreated(canister)) =>
        FinishSound(s, call, Executed, s.active + {(s.proposals[id].project, canister)});
      case (ReadingStatus, Controllers(false)) => ContinueSound(s, call);
      case (UpdatingSettings, SettingsUpdated) => FinishSound(s, call, Executed, s.active);
      case _ => FinishSound(s, call, Failed, s.active);
    }
  }

  lemma StepKeepsInvariant(limits: Limits, s: System, e: Event)
    requires Invariant(s) && Possible(s, e)
    ensures Invariant(Step(limits, s, e))
  {
    match e
    case CreateProposal(_, _, _, _, _, _, _) => CreateSound(limits, s, e);
    case VoteProposal(_, _, _, _) => VoteSound(limits, s, e);
    case ReplyArrives(call, reply) => ResumeSound(s, call, reply);
    case CancelProposal(id) =>
    case RemoveCanister(_, _) =>
    case AddProject(_, _) =>
    case DeleteProject(_) =>
  }

  // Over any interleaving: ballots stay undecided, every execution in progress has exactly one
  // outstanding call, and no proposal starts executing twice.
  lemma {:induction false} RunKeepsInvariant(limits: Limits, s: System, events: seq<Event>)
    requires Invariant(s) && PossibleRun(limits, s, events)
    ensures Invariant(Run(limits, s, events))
  {
    if events != [] {
      RunKeepsInvariant(limits, s, events[..|events| - 1]);
      StepKeepsInvariant(limits, Run(limits, s, events[..|events| - 1]), events[|events| - 1]);
    }
  }

  // Although the status setter has no guard, every message moves every proposal along an edge.
  lemma StepFollowsEdges(limits: Limits, s: System, e: Event, id: ProposalId)
    requires Invariant(s) && Possible(s, e) && id in s.proposals
    ensures OnEdge(s, Step(limits, s, e), id)
  {
    hide BallotsSound, StartsSound;
    match e
    case CreateProposal(_, _, _, _, _, _, _) => OthersUntouched(limits, s, e, id);
    case VoteProposal(_, _, _, _) => VoteFollowsEdges(limits, s, e, id);
    case ReplyArrives(call, reply) =>
      if call in s.calls && s.calls[call].proposal == id {
        assert s.proposals[id].status.Executing?;
      }
      hide CallsSound;
    case CancelProposal(_) => hide CallsSound;
    case RemoveCanister(_, _) => hide CallsSound;
    case AddProject(_, _) => hide CallsSound;
    case DeleteProject(_) => hide CallsSound;
  }

  // The proposal is still there, only its status may have changed, and only along an edge.
  ghost predicate OnEdge(s: System, t: System, id: ProposalId)
    requires id in s.proposals
  {
    && id in t.proposals && t.proposals[id] == s.proposals[id].(status := t.proposals[id].status)
    && Edge(s.proposals[id].status, t.proposals[id].status)
  }

  lemma OthersUntouched(limits: Limits, s: System, e: Event, id: ProposalId)
    requires e.CreateProposal? && Possible(s, e) && id in s.proposals
    ensures OnEdge(s, Create(limits, s, e), id)
  {
    var with := s.(proposals := s.proposals[e.id := Proposal(e.project, e.proposer, Open, e.operation)]);
    ExecuteResult(limits, with, e.id, e.call);
    hide Execute, QuotaExhausted;
  }

  lemma VoteFollowsEdges(limits: Limits, s: System, e: Event, id: ProposalId)
    requires e.VoteProposal? && id in s.proposals
    ensures OnEdge(s, VoteOn(limits, s, e), id)
  {
    if e.id in s.proposals {
      var cast := CastVote(s.proposals[e.id].status, e.voter, e.vote);
      if cast.Ok? {
        ExecuteResult(limits, SetStatus(s, e.id, cast.value.0), e.id, e.call);
        hide Execute;
        VoteEdge(s.proposals[e.id].status, e.voter, e.vote);
        hide CastVote;
      }
    }
  }

  lemma VoteEdge(status: ProposalStatus, voter: UserId, vote: Vote)
    requires CastVote(status, voter, vote).Ok?
    ensures var (after, outcome) := CastVote(status, voter, vote).value;
            status.PendingApproval? && Edge(status, after) && (outcome.ReachedApproval? ==> after.PendingApproval?)
  {
  }

  // Rejected, Cancelled, Executed and Failed are absorbing.
  lemma {:induction false} FinalStatusesAbsorb(limits: Limits, s: System, events: seq<Event>, id: ProposalId)
    requires Invariant(s) && PossibleRun(limits, s, events)
    requires id in s.proposals && Final(s.proposals[id].status)
    ensures id in Run(limits, s, events).proposals && Run(limits, s, events).proposals[id] == s.proposals[id]
  {
    if events != [] {
      var init := events[..|events| - 1];
      FinalStatusesAbsorb(limits, s, init, id);
      RunKeepsInvariant(limits, s, init);
      StepFollowsEdges(limits, Run(limits, s, init), events[|events| - 1], id);
    }
  }

  // A pending proposal starts executing only by the vote of an approver that completes a quorum
  // of distinct approving approvers.
  lemma OnlyAQuorumStarts(limits: Limits, s: System, e: Event, id: ProposalId)
    requires Invariant(s) && Possible(s, e)
    requires id in s.proposals && s.proposals[id].status.PendingApproval?
    requires id in Step(limits, s, e).started
    ensures var p := s.proposals[id].status;
            && e.VoteProposal? && e.id == id && e.vote.Approve? && e.voter in p.approvers
            && var votes := p.votes + [Ballot(e.voter, e.vote)];
               Admissible(p.approvers, votes) && Count(votes, Approve) == p.threshold
  {
    assert id !in s.started by { hide BallotsSound, CallsSound, Step; }
    OnlyApprovalStarts(limits, s, e, id);
    hide CallsSound, StartsSound, Step;
    VoteKeepsInvariant(s.proposals[id].status, e.voter, e.vote);
  }

  lemma OnlyApprovalStarts(limits: Limits, s: System, e: Event, id: ProposalId)
    requires Possible(s, e) && id in s.proposals && id !in s.started && id in Step(limits, s, e).started
    ensures e.VoteProposal? && e.id == id
    ensures var cast := CastVote(s.proposals[id].status, e.voter, e.vote); cast.Ok? && cast.value.1.ReachedApproval?
  {
    hide QuotaExhausted;
    if e.CreateProposal? {
      var with := s.(proposals := s.proposals[e.id := Proposal(e.project, e.proposer, Open, e.operation)]);
      ExecuteResult(limits, with, e.id, e.call);
    } else if e.VoteProposal? && e.id in s.proposals {
      var cast := CastVote(s.proposals[e.id].status, e.voter, e.vote);
      if cast.Ok? {
        ExecuteResult(limits, SetStatus(s, e.id, cast.value.0), e.id, e.call);
      }
    }
    hide Execute, CastVote;
  }

  // A committed Open proposal never executes: only cancellation can still change it.
  lemma {:induction false} OpenOnlyCancels(limits: Limits, s: System, events: seq<Event>, id: ProposalId)
    requires Invariant(s) && PossibleRun(limits, s, events)
    requires id in s.proposals && s.proposals[id].status.Open?
    ensures id in Run(limits, s, events).proposals
    ensures var status := Run(limits, s, events).proposals[id].status; status.Open? || status.Cancelled?
    ensures id !in Run(limits, s, events).started
  {
    if events != [] {
      var init := events[..|events| - 1];
      OpenOnlyCancels(limits, s, init, id);
      RunKeepsInvariant(limits, s, init);
      StepFollowsEdges(limits, Run(limits, s, init), events[|events| - 1], id);
    }
    RunKeepsInvariant(limits, s, events);
  }
}
