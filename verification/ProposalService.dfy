/** The proposal service: each method runs one message up to its next await. */
module ProposalService {
  import opened Primitives
  import opened Ballots
  import opened Proposals
  import opened ProposalProtocol
  import W = Workspace

  // What `ProjectAuth::require` finds of a caller who has access to the project.
  datatype Auth = Auth(user: UserId, permissions: W.ProjectPermissions)

  // `list_project_users_with_permission`: walk the linked teams that hold the permission and
  // collect their members, each once.
  method ListProjectUsersWithPermission(
    teams: seq<TeamId>, permissions: map<TeamId, W.ProjectPermissions>, members: map<TeamId, seq<UserId>>,
    needed: W.ProjectPermissions)
    returns (users: seq<UserId>)
    ensures NoDuplicates(users)
    ensures forall u :: u in users <==>
              exists t :: t in teams && t in permissions && needed <= permissions[t] && t in members && u in members[t]
  {
    users := [];
    var seen := {};
    for i := 0 to |teams|
      invariant NoDuplicates(users) && seen == ToSet(users)
      invariant forall u :: u in users <==>
                  exists t :: t in teams[..i] && t in permissions && needed <= permissions[t] && t in members &&
                    u in members[t]
    {
      var team := teams[i];
      assert teams[..i + 1] == teams[..i] + [team];
      if team in permissions && needed <= permissions[team] && team in members {
        ghost var before := users;
        for j := 0 to |members[team]|
          invariant NoDuplicates(users) && seen == ToSet(users)
          invariant forall u :: u in users <==> u in before || u in members[team][..j]
        {
          var user := members[team][j];
          if user !in seen {
            seen := seen + {user};
            users := users + [user];
          }
        }
      }
    }
  }

  class Service {
    const repository: ProposalRepository
    var calls: map<CallId, Call>
    var orgOf: map<ProjectId, OrgId>
    var active: set<(ProjectId, CanisterId)>
    var deleted: set<(ProjectId, CanisterId)>
    ghost var started: seq<ProposalId>

    constructor (repository: ProposalRepository)
      requires repository.Valid() && repository.proposals == map[]
      ensures this.repository == repository && Current() == System(map[], map[], map[], {}, {}, [])
      ensures Invariant(Current())
    {
      this.repository := repository;
      calls, orgOf, active, deleted, started := map[], map[], {}, {}, [];
    }

    ghost function Current(): System
      reads this, repository
    {
      System(repository.proposals, calls, orgOf, active, deleted, started)
    }

    // The projects in the organisation's range, each once; no order is promised.
    method ListOrgProjects(org: OrgId) returns (projects: seq<ProjectId>)
      ensures NoDuplicates(projects)
      ensures forall p :: p in projects <==> p in orgOf && orgOf[p] == org
    {
      projects := [];
      var rest := set p | p in orgOf && orgOf[p] == org;
      while rest != {}
        invariant NoDuplicates(projects)
        invariant forall p :: p in orgOf && orgOf[p] == org <==> p in projects || p in rest
        invariant forall p :: p in rest ==> p !in projects
        decreases rest
      {
        var p :| p in rest;
        rest := rest - {p};
        projects := projects + [p];
      }
    }

    // The sum over the organisation's projects is the number of its active canisters.
    method CountActiveCanistersForOrg(org: OrgId) returns (n: nat)
      ensures n == |OrgCanisters(Current(), org)|
    {
      var projects := ListOrgProjects(org);
      n := 0;
      ghost var counted := {};
      for i := 0 to |projects|
        invariant counted == set pc | pc in active && pc.0 in projects[..i]
        invariant n == |counted|
      {
        var here := set pc | pc in active && pc.0 == projects[i];
        assert projects[i] !in projects[..i];
        assert counted !! here;
        assert (set pc | pc in active && pc.0 in projects[..i + 1]) == counted + here;
        counted := counted + here;
        n := n + |here|;
      }
      assert counted == OrgCanisters(Current(), org);
    }

    method EnforceCanisterQuota(limits: Limits, org: OrgId) returns (ok: bool)
      ensures ok <==> |OrgCanisters(Current(), org)| < limits(org)
    {
      var n := CountActiveCanistersForOrg(org);
      ok := n < limits(org);
    }

    method ExecuteOperation(limits: Limits, id: ProposalId, call: CallId)
      requires repository.Valid() && id in repository.proposals
      modifies this`calls, this`started, repository
      ensures repository.Valid() && Current() == Execute(limits, old(Current()), id, call)
    {
      var proposal := repository.proposals[id];
      var _ := repository.SetProposalStatus(id, Executing);
      started := started + [id];
      if proposal.operation.CreateCanister? {
        var allowed := false;
        if proposal.project in orgOf {
          allowed := EnforceCanisterQuota(limits, orgOf[proposal.project]);
          assert OrgCanisters(Current(), orgOf[proposal.project]) ==
            OrgCanisters(old(Current()), orgOf[proposal.project]);
        }
        if allowed {
          calls := calls[call := Call(id, CreatingCanister)];
        } else {
          var _ := repository.SetProposalStatus(id, Failed);
        }
      } else {
        calls := calls[call := Call(id, ReadingStatus)];
      }
    }

    // A caller without the permission to propose changes nothing.
    method CreateProposal(
      limits: Limits, auth: Option<Auth>, project: ProjectId, operation: Operation, policy: PolicyType,
      approvers: seq<UserId>)
      returns (permitted: bool, ghost e: Event)
      requires repository.Valid() && Invariant(Current()) && NoDuplicates(approvers)
      modifies this`calls, this`started, repository
      ensures repository.Valid() && Invariant(Current())
      ensures permitted == (auth.Some? && W.ProposalCreate in auth.value.permissions)
      ensures if permitted
              then && e.CreateProposal?
                   && e == Event.CreateProposal(e.id, project, auth.value.user, operation, policy, approvers, e.call)
                   && Possible(old(Current()), e) && Current() == Step(limits, old(Current()), e)
              else Current() == old(Current())
    {
      var call := FreshId(calls.Keys);
      var unused := FreshId(repository.proposals.Keys);
      permitted := auth.Some? && W.ProposalCreate in auth.value.permissions;
      e := Event.CreateProposal(unused, project, 0, operation, policy, approvers, call);
      if !permitted {
        return;
      }
      var proposer := auth.value.user;
      e := Event.CreateProposal(unused, project, proposer, operation, policy, approvers, call);
      var exhausted := true;
      if project in orgOf {
        exhausted := false;
        if operation.CreateCanister? {
          var ok := EnforceCanisterQuota(limits, orgOf[project]);
          exhausted := !ok;
        }
      }
      if exhausted {
        return;
      }
      var id := repository.CreateProposal(Proposal(project, proposer, Open, operation));
      e := Event.CreateProposal(id, project, proposer, operation, policy, approvers, call);
      ProcessProposal(limits, id, policy, approvers, call);
      StepKeepsInvariant(limits, old(Current()), e);
    }

    method ProcessProposal(limits: Limits, id: ProposalId, policy: PolicyType, approvers: seq<UserId>, call: CallId)
      requires repository.Valid() && id in repository.proposals
      modifies this`calls, this`started, repository
      ensures repository.Valid() && Current() == Process(limits, old(Current()), id, policy, approvers, call)
    {
      match policy
      case AutoApprove => ExecuteOperation(limits, id, call);
      case FixedQuorum(threshold) =>
        if threshold < 1 || |approvers| < threshold {
          return;
        }
        var _ := repository.SetProposalPendingApproval(id, threshold, approvers);
    }

    // Only a holder of the permission to approve votes; the recorded approvers then decide.
    method VoteProposal(limits: Limits, auth: Option<Auth>, id: ProposalId, vote: Vote)
      returns (permitted: bool, ghost e: Event)
      requires repository.Valid() && Invariant(Current())
      modifies this`calls, this`started, repository
      ensures repository.Valid() && Invariant(Current())
      ensures permitted ==
              (id in old(repository.proposals) && auth.Some? && W.ProposalApprove in auth.value.permissions)
      ensures if permitted
              then && e.VoteProposal? && e == Event.VoteProposal(id, auth.value.user, vote, e.call)
                   && Possible(old(Current()), e) && Current() == Step(limits, old(Current()), e)
              else Current() == old(Current())
    {
      var call := FreshId(calls.Keys);
      permitted := id in repository.proposals && auth.Some? && W.ProposalApprove in auth.value.permissions;
      e := Event.VoteProposal(id, 0, vote, call);
      if !permitted {
        return;
      }
      e := Event.VoteProposal(id, auth.value.user, vote, call);
      var outcome := repository.RecordProposalVote(id, auth.value.user, vote);
      if outcome == Ok(ReachedApproval) {
        ExecuteOperation(limits, id, call);
      }
      StepKeepsInvariant(limits, old(Current()), e);
    }

    // Only the proposer and project admins cancel.
    method CancelProposal(limits: Limits, auth: Option<Auth>, id: ProposalId) returns (permitted: bool)
      requires repository.Valid() && Invariant(Current())
      modifies repository
      ensures repository.Valid() && Invariant(Current())
      ensures permitted == (id in old(repository.proposals) && auth.Some? &&
                            (auth.value.user == old(repository.proposals)[id].proposer ||
                             W.ProjectAdmin in auth.value.permissions))
      ensures Current() ==
              if permitted then Step(limits, old(Current()), Event.CancelProposal(id)) else old(Current())
    {
      permitted := id in repository.proposals && auth.Some? &&
        (auth.value.user == repository.proposals[id].proposer || W.ProjectAdmin in auth.value.permissions);
      if !permitted {
        return;
      }
      var _ := repository.CancelProposal(id);
      StepKeepsInvariant(limits, old(Current()), Event.CancelProposal(id));
    }

    // The continuation of an execution when its management-canister call replies.
    method ReplyArrives(call: CallId, reply: Reply)
      requires repository.Valid() && Invariant(Current())
      modifies this`calls, this`active, repository
      ensures repository.Valid() && Current() == Resume(old(Current()), call, reply)
      ensures Invariant(Current())
    {
      ResumeSound(Current(), call, reply);
      if call !in calls {
        return;
      }
      var id, step := calls[call].proposal, calls[call].step;
      if step.ReadingStatus? && reply == Controllers(false) {
        calls := calls[call := Call(id, UpdatingSettings)];
        return;
      }
      calls := calls - {call};
      if step.CreatingCanister? && reply.CanisterCreated? {
        active := active + {(repository.proposals[id].project, reply.canister)};
        var _ := repository.SetProposalStatus(id, Executed);
      } else if step.UpdatingSettings? && reply.SettingsUpdated? {
        var _ := repository.SetProposalStatus(id, Executed);
      } else {
        var _ := repository.SetProposalStatus(id, Failed);
      }
    }
  }
}
