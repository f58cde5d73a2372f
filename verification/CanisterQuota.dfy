/** The plan limit on active canisters, checked before an await and used up after it. */
module CanisterQuota {
  import opened Primitives
  import opened Ballots
  import opened Proposals
  import opened ProposalProtocol

  // At no point of the run does the organisation have more than `m` canister creations in flight.
  ghost predicate InFlightAtMost(limits: Limits, s: System, events: seq<Event>, org: OrgId, m: nat) {
    && |InFlight(Run(limits, s, events), org)| <= m
    && (events != [] ==> InFlightAtMost(limits, s, events[..|events| - 1], org, m))
  }

  // Canisters recorded and canisters still being created, together.
  ghost function Committed(s: System, org: OrgId): nat {
    |OrgCanisters(s, org)| + |InFlight(s, org)|
  }

  lemma FewerCommitted(s: System, t: System, org: OrgId)
    requires OrgCanisters(t, org) <= OrgCanisters(s, org) && InFlight(t, org) <= InFlight(s, org)
    ensures Committed(t, org) <= Committed(s, org)
  {
    SubsetSize(OrgCanisters(t, org), OrgCanisters(s, org));
    SubsetSize(InFlight(t, org), InFlight(s, org));
  }

  // An execution that gets past the quota check starts below the limit.
  lemma ExecuteCommits(limits: Limits, s: System, id: ProposalId, call: CallId, org: OrgId)
    requires id in s.proposals && call !in s.calls
    ensures var t := Execute(limits, s, id, call);
            && OrgCanisters(t, org) == OrgCanisters(s, org)
            && (InFlight(t, org) == InFlight(s, org) || |OrgCanisters(s, org)| < limits(org))
  {
    var t := Execute(limits, s, id, call);
    var project := s.proposals[id].project;
    if !(s.proposals[id].operation.CreateCanister? && project in s.orgOf && s.orgOf[project] == org &&
         !QuotaExhausted(limits, s, project)) {
      assert InFlight(t, org) == InFlight(s, org);
    }
  }

  lemma MessageCommits(limits: Limits, s: System, e: Event, org: OrgId)
    requires Invariant(s) && Possible(s, e) && (e.CreateProposal? || e.VoteProposal?)
    ensures var t := Step(limits, s, e);
            && OrgCanisters(t, org) == OrgCanisters(s, org)
            && (InFlight(t, org) == InFlight(s, org) || |OrgCanisters(s, org)| < limits(org))
  {
    if e.CreateProposal? {
      var with := s.(proposals := s.proposals[e.id := Proposal(e.project, e.proposer, Open, e.operation)]);
      assert InFlight(with, org) == InFlight(s, org);
      assert OrgCanisters(with, org) == OrgCanisters(s, org);
      if e.policy.AutoApprove? {
        ExecuteCommits(limits, with, e.id, e.call, org);
      }
    } else if e.id in s.proposals {
      var cast := CastVote(s.proposals[e.id].status, e.voter, e.vote);
      if cast.Ok? {
        var voted := SetStatus(s, e.id, cast.value.0);
        assert InFlight(voted, org) == InFlight(s, org);
        assert OrgCanisters(voted, org) == OrgCanisters(s, org);
        ExecuteCommits(limits, voted, e.id, e.call, org);
      }
    }
  }

  lemma OneMoreCanister(s: System, t: System, pc: (ProjectId, CanisterId), org: OrgId)
    requires t.orgOf == s.orgOf && t.active == s.active + {pc}
    ensures OrgCanisters(t, org) == OrgCanisters(s, org) + if pc.0 in s.orgOf && s.orgOf[pc.0] == org then {pc} else {}
  {
  }

  lemma OneLessCall(s: System, t: System, call: CallId, org: OrgId)
    requires t.orgOf == s.orgOf && t.calls == s.calls - {call} && t.proposals.Keys == s.proposals.Keys
    requires forall i :: i in s.proposals ==> t.proposals[i].project == s.proposals[i].project
    ensures InFlight(t, org) == InFlight(s, org) - {call}
  {
  }

  lemma CreatedCommits(s: System, call: CallId, canister: CanisterId, org: OrgId)
    requires Invariant(s) && call in s.calls && s.calls[call].step.CreatingCanister?
    ensures Committed(Resume(s, call, CanisterCreated(canister)), org) <= Committed(s, org)
  {
    assert s.calls[call].proposal in s.proposals by { hide BallotsSound, StartsSound, Resume; }
    hide Invariant;
    var t, project := Resume(s, call, CanisterCreated(canister)), s.proposals[s.calls[call].proposal].project;
    CreatedResult(s, call, canister);
    hide Resume;
    OneMoreCanister(s, t, (project, canister), org);
    OneLessCall(s, t, call, org);
    assert project in s.orgOf && s.orgOf[project] == org ==> call in InFlight(s, org);
  }

  lemma CreatedResult(s: System, call: CallId, canister: CanisterId)
    requires call in s.calls && s.calls[call].step.CreatingCanister? && s.calls[call].proposal in s.proposals
    ensures var t := Resume(s, call, CanisterCreated(canister));
            && t.calls == s.calls - {call} && t.orgOf == s.orgOf && t.proposals.Keys == s.proposals.Keys
            && t.active == s.active + {(s.proposals[s.calls[call].proposal].project, canister)}
            && forall i :: i in s.proposals ==>
                 t.proposals[i].project == s.proposals[i].project &&
                   t.proposals[i].operation == s.proposals[i].operation
  {
  }

  lemma OtherReply(s: System, call: CallId, reply: Reply)
    requires call in s.calls && !(s.calls[call].step.CreatingCanister? && reply.CanisterCreated?)
    ensures var t := Resume(s, call, reply);
            && t.orgOf == s.orgOf && t.active == s.active && t.proposals.Keys == s.proposals.Keys
            && (forall i :: i in s.proposals ==> t.proposals[i].project == s.proposals[i].project)
            && forall c :: c in t.calls && t.calls[c].step.CreatingCanister? ==>
               c in s.calls && s.calls[c] == t.calls[c]
  {
  }

  // A reply turns a creation in flight into a recorded canister, or drops it.
  lemma ReplyCommits(s: System, call: CallId, reply: Reply, org: OrgId)
    requires Invariant(s)
    ensures Committed(Resume(s, call, reply), org) <= Committed(s, org)
  {
    if call in s.calls {
      if s.calls[call].step.CreatingCanister? && reply.CanisterCreated? {
        CreatedCommits(s, call, reply.canister, org);
      } else {
        hide Invariant;
        var t := Resume(s, call, reply);
        OtherReply(s, call, reply);
        hide Resume;
        assert OrgCanisters(t, org) == OrgCanisters(s, org);
        assert InFlight(t, org) <= InFlight(s, org);
        FewerCommitted(s, t, org);
      }
    }
  }

  lemma StepKeepsCommitted(limits: Limits, s: System, e: Event, org: OrgId, m: nat)
    requires Invariant(s) && Possible(s, e) && m >= 1
    requires Committed(s, org) <= limits(org) + m - 1
    requires |InFlight(Step(limits, s, e), org)| <= m
    ensures Committed(Step(limits, s, e), org) <= limits(org) + m - 1
  {
    var t := Step(limits, s, e);
    match e
    case CreateProposal(_, _, _, _, _, _, _) => MessageCommits(limits, s, e, org);
    case VoteProposal(_, _, _, _) => MessageCommits(limits, s, e, org);
    case ReplyArrives(call, reply) => ReplyCommits(s, call, reply, org);
    case _ =>
      assert OrgCanisters(t, org) <= OrgCanisters(s, org);
      assert InFlight(t, org) <= InFlight(s, org);
      FewerCommitted(s, t, org);
  }

  lemma {:induction false} RunKeepsCommitted(limits: Limits, s: System, events: seq<Event>, org: OrgId, m: nat)
    requires Invariant(s) && PossibleRun(limits, s, events) && InFlightAtMost(limits, s, events, org, m) && m >= 1
    requires |OrgCanisters(s, org)| <= limits(org) && InFlight(s, org) == {}
    ensures Committed(Run(limits, s, events), org) <= limits(org) + m - 1
  {
    if events != [] {
      var init := events[..|events| - 1];
      RunKeepsCommitted(limits, s, init, org, m);
      RunKeepsInvariant(limits, s, init);
      StepKeepsCommitted(limits, Run(limits, s, init), events[|events| - 1], org, m);
    }
  }

  // However executions and removals interleave, with at most `m` creations in flight the
  // organisation never has more than `limit - 1 + m` active canisters: serial executions respect
  // the limit.
  lemma ActiveCanistersBounded(limits: Limits, s: System, events: seq<Event>, org: OrgId, m: nat)
    requires Invariant(s) && PossibleRun(limits, s, events) && InFlightAtMost(limits, s, events, org, m) && m >= 1
    requires |OrgCanisters(s, org)| <= limits(org) && InFlight(s, org) == {}
    ensures |OrgCanisters(Run(limits, s, events), org)| <= limits(org) + m - 1
    ensures m == 1 ==> |OrgCanisters(Run(limits, s, events), org)| <= limits(org)
  {
    RunKeepsCommitted(limits, s, events, org, m);
  }

  lemma {:induction false} Above(used: set<nat>) returns (id: nat)
    ensures forall x :: x in used ==> x < id
  {
    if used == {} {
      id := 0;
    } else {
      var x :| x in used;
      var rest := Above(used - {x});
      id := if rest <= x then x + 1 else rest;
      assert forall y :: y in used ==> y == x || y in used - {x};
    }
  }

  lemma LaunchResult(limits: Limits, s: System, id: ProposalId, project: ProjectId, call: CallId)
    requires project in s.orgOf && !QuotaExhausted(limits, s, project)
    ensures Step(limits, s, CreateProposal(id, project, 0, CreateCanister, AutoApprove, [], call)) ==
            s.(proposals := s.proposals[id := Proposal(project, 0, Executing, CreateCanister)],
               calls := s.calls[call := Call(id, CreatingCanister)],
               started := s.started + [id])
  {
    var with := s.(proposals := s.proposals[id := Proposal(project, 0, Open, CreateCanister)]);
    assert OrgCanisters(with, s.orgOf[project]) == OrgCanisters(s, s.orgOf[project]);
    assert with.proposals[id := Proposal(project, 0, Executing, CreateCanister)] ==
           s.proposals[id := Proposal(project, 0, Executing, CreateCanister)];
  }

  lemma LaunchCounts(s: System, id: ProposalId, project: ProjectId, call: CallId, org: OrgId)
    requires CallsSound(s) && id !in s.proposals && call !in s.calls
    requires project in s.orgOf && s.orgOf[project] == org
    ensures var t := s.(proposals := s.proposals[id := Proposal(project, 0, Executing, CreateCanister)],
                        calls := s.calls[call := Call(id, CreatingCanister)],
                        started := s.started + [id]);
            InFlight(t, org) == InFlight(s, org) + {call}
  {
  }

  // Below the limit one more auto-approved creation can always be put in flight.
  lemma LaunchOne(limits: Limits, s: System, project: ProjectId) returns (e: Event)
    requires Invariant(s) && project in s.orgOf && !QuotaExhausted(limits, s, project)
    ensures Possible(s, e)
    ensures var t, org := Step(limits, s, e), s.orgOf[project];
            t.orgOf == s.orgOf && t.active == s.active && |InFlight(t, org)| == |InFlight(s, org)| + 1
  {
    var id := Above(s.proposals.Keys);
    var call := Above(s.calls.Keys);
    e := CreateProposal(id, project, 0, CreateCanister, AutoApprove, [], call);
    assert id !in s.proposals && call !in s.calls && id !in s.started;
    LaunchCounts(s, id, project, call, s.orgOf[project]);
    assert call !in InFlight(s, s.orgOf[project]);
    hide Step, InFlight, CallsSound, QuotaExhausted;
    LaunchResult(limits, s, id, project, call);
  }

  lemma LandCounts(s: System, call: CallId, canister: CanisterId, org: OrgId)
    requires Invariant(s) && call in InFlight(s, org)
    requires forall pc :: pc in s.active ==> pc.1 < canister
    ensures var t := Resume(s, call, CanisterCreated(canister));
            && |OrgCanisters(t, org)| == |OrgCanisters(s, org)| + 1
            && |InFlight(t, org)| == |InFlight(s, org)| - 1
  {
    var t := Resume(s, call, CanisterCreated(canister));
    var project := s.proposals[s.calls[call].proposal].project;
    assert OrgCanisters(t, org) == OrgCanisters(s, org) + {(project, canister)};
    assert InFlight(t, org) == InFlight(s, org) - {call};
  }

  lemma FreshCanister(active: set<(ProjectId, CanisterId)>) returns (canister: CanisterId)
    ensures forall pc :: pc in active ==> pc.1 < canister
  {
    var ids := set pc | pc in active :: pc.1;
    canister := Above(ids);
    assert forall pc :: pc in active ==> pc.1 in ids;
  }

  // A creation in flight can always succeed.
  lemma LandOne(limits: Limits, s: System, org: OrgId) returns (e: Event)
    requires Invariant(s) && InFlight(s, org) != {}
    ensures Possible(s, e)
    ensures var t := Step(limits, s, e);
            |OrgCanisters(t, org)| == |OrgCanisters(s, org)| + 1 && |InFlight(t, org)| == |InFlight(s, org)| - 1
  {
    var call :| call in InFlight(s, org);
    var canister := FreshCanister(s.active);
    e := ReplyArrives(call, CanisterCreated(canister));
    hide Resume, Invariant, InFlight, OrgCanisters;
    LandCounts(s, call, canister, org);
  }

  // One more event in front of a run.
  lemma {:induction false} RunPrepend(limits: Limits, s: System, e: Event, events: seq<Event>, org: OrgId, m: nat)
    requires Possible(s, e) && |InFlight(s, org)| <= m
    requires PossibleRun(limits, Step(limits, s, e), events) &&
             InFlightAtMost(limits, Step(limits, s, e), events, org, m)
    ensures Run(limits, s, [e] + events) == Run(limits, Step(limits, s, e), events)
    ensures PossibleRun(limits, s, [e] + events) && InFlightAtMost(limits, s, [e] + events, org, m)
    decreases |events|
  {
    hide Step, InFlight, Possible;
    assert [e][..0] == [];
    if events == [] {
      assert [e] + events == [e];
      assert Run(limits, s, [e]) == Step(limits, Run(limits, s, []), e);
      assert InFlightAtMost(limits, s, [], org, m);
    } else {
      var init := events[..|events| - 1];
      RunPrepend(limits, s, e, init, org, m);
      assert ([e] + events)[..|[e] + events| - 1] == [e] + init;
    }
  }

  // All creations in flight succeed.
  lemma {:induction false} LandAll(limits: Limits, s: System, org: OrgId, m: nat) returns (events: seq<Event>)
    requires Invariant(s) && |InFlight(s, org)| <= m
    ensures PossibleRun(limits, s, events) && InFlightAtMost(limits, s, events, org, m)
    ensures |OrgCanisters(Run(limits, s, events), org)| == Committed(s, org)
    decreases |InFlight(s, org)|
  {
    if |InFlight(s, org)| == 0 {
      events := [];
    } else {
      var e := LandOne(limits, s, org);
      StepKeepsInvariant(limits, s, e);
      var rest := LandAll(limits, Step(limits, s, e), org, m);
      RunPrepend(limits, s, e, rest, org, m);
      events := [e] + rest;
    }
  }

  // The bound is attained, for every plan and from every sound state below the limit: creations up
  // to `m` in flight all pass the check, and each of them adds its canister afterwards.
  lemma {:induction false} BoundAttained(limits: Limits, s: System, project: ProjectId, m: nat)
    returns (events: seq<Event>)
    requires Invariant(s) && project in s.orgOf && !QuotaExhausted(limits, s, project)
    requires |InFlight(s, s.orgOf[project])| <= m
    ensures PossibleRun(limits, s, events) && InFlightAtMost(limits, s, events, s.orgOf[project], m)
    ensures |OrgCanisters(Run(limits, s, events), s.orgOf[project])| == |OrgCanisters(s, s.orgOf[project])| + m
    decreases m - |InFlight(s, s.orgOf[project])|
  {
    var org := s.orgOf[project];
    if |InFlight(s, org)| == m {
      events := LandAll(limits, s, org, m);
    } else {
      var e := LaunchOne(limits, s, project);
      StepKeepsInvariant(limits, s, e);
      var t := Step(limits, s, e);
      assert OrgCanisters(t, org) == OrgCanisters(s, org);
      hide Step, InFlight, OrgCanisters;
      var rest := BoundAttained(limits, t, project, m);
      RunPrepend(limits, s, e, rest, org, m);
      events := [e] + rest;
    }
  }
}
