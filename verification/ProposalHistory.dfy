/** What becomes of a proposal, told from the messages alone: who voted, who cancelled, what replied. */
module ProposalHistory {
  import opened Primitives
  import opened Ballots
  import opened Proposals
  import opened ProposalProtocol

  // --- The ballots of a run ---

  ghost predicate Withdrawn(events: seq<Event>, id: ProposalId) {
    Event.CancelProposal(id) in events
  }

  ghost predicate IsVote(e: Event, id: ProposalId) {
    e.VoteProposal? && e.id == id
  }

  // The i-th message is this vote on the proposal.
  ghost predicate CastAt(events: seq<Event>, i: int, id: ProposalId, voter: UserId, vote: Vote) {
    0 <= i < |events| && IsVote(events[i], id) && events[i].voter == voter && events[i].vote == vote
  }

  // The first vote of every approver, in order of arrival, until somebody cancels.
  ghost function BallotsOn(events: seq<Event>, id: ProposalId, approvers: seq<UserId>): seq<Ballot> {
    if events == [] then []
    else
      var init, last := events[..|events| - 1], events[|events| - 1];
      var before := BallotsOn(init, id, approvers);
      if IsVote(last, id) && last.voter in approvers && !HasVoted(before, last.voter) && !Withdrawn(init, id)
      then before + [Ballot(last.voter, last.vote)]
      else before
  }

  lemma {:induction false} BallotsAdmissible(events: seq<Event>, id: ProposalId, approvers: seq<UserId>)
    ensures Admissible(approvers, BallotsOn(events, id, approvers))
  {
    if events != [] {
      BallotsAdmissible(events[..|events| - 1], id, approvers);
    }
  }

  lemma {:induction false} BallotsWereCast(events: seq<Event>, id: ProposalId, approvers: seq<UserId>, b: Ballot)
    requires b in BallotsOn(events, id, approvers)
    ensures b.voter in approvers
    ensures exists i :: CastAt(events, i, id, b.voter, b.vote)
  {
    var init, last := events[..|events| - 1], events[|events| - 1];
    if b in BallotsOn(init, id, approvers) {
      BallotsWereCast(init, id, approvers, b);
      var i :| CastAt(init, i, id, b.voter, b.vote);
      assert CastAt(events, i, id, b.voter, b.vote);
    } else {
      assert CastAt(events, |events| - 1, id, b.voter, b.vote);
    }
  }

  ghost function ApprovingVoters(votes: seq<Ballot>): set<UserId> {
    set b | b in votes && b.vote == Approve :: b.voter
  }

  lemma {:induction false} ApprovalsArePeople(approvers: seq<UserId>, votes: seq<Ballot>)
    requires Admissible(approvers, votes)
    ensures |ApprovingVoters(votes)| == Count(votes, Approve)
  {
    if votes != [] {
      var init, last := votes[..|votes| - 1], votes[|votes| - 1];
      ApprovalsArePeople(approvers, init);
      NotAmongEarlier(init, last);
      assert votes == init + [last];
      ApprovingAppend(init, last);
      hide ApprovingVoters;
    }
  }

  lemma NotAmongEarlier(init: seq<Ballot>, last: Ballot)
    requires forall i :: 0 <= i < |init| ==> init[i].voter != last.voter
    ensures last.voter !in ApprovingVoters(init)
  {
  }

  lemma ApprovingAppend(init: seq<Ballot>, last: Ballot)
    ensures ApprovingVoters(init + [last]) ==
            ApprovingVoters(init) + if last.vote == Approve then {last.voter} else {}
  {
    assert forall b :: b in init + [last] <==> b in init || b == last;
  }

  // --- The fate of a proposal ---

  predicate Meetable(threshold: nat, approvers: seq<UserId>) {
    1 <= threshold <= |approvers|
  }

  // What the messages since its creation make of the proposal that `e` created.
  ghost predicate AsDecided(s: System, e: Event, events: seq<Event>)
    requires e.CreateProposal?
  {
    && e.id in s.proposals
    && s.proposals[e.id] == Proposal(e.project, e.proposer, s.proposals[e.id].status, e.operation)
    && match e.policy
       case AutoApprove => HasBegun(s, e.id)
       case FixedQuorum(threshold) =>
         if !Meetable(threshold, e.approvers) then
           NotBegun(s, e.id, if Withdrawn(events, e.id) then Cancelled else Open)
         else
           var votes := BallotsOn(events, e.id, e.approvers);
           match Decision(threshold, |e.approvers|, votes)
           case ReachedApproval => HasBegun(s, e.id)
           case ReachedRejection => NotBegun(s, e.id, Rejected)
           case StillPending =>
             NotBegun(s, e.id, if Withdrawn(events, e.id) then Cancelled
                               else PendingApproval(threshold, e.approvers, votes))
  }

  ghost predicate HasBegun(s: System, id: ProposalId) {
    id in s.started && id in s.proposals && Begun(s.proposals[id].status)
  }

  ghost predicate NotBegun(s: System, id: ProposalId, status: ProposalStatus) {
    id !in s.started && id in s.proposals && s.proposals[id].status == status
  }

  // A proposal is created exactly when its project exists and the plan has room for what it creates.
  lemma CreatedIff(limits: Limits, s: System, e: Event)
    requires Possible(s, e) && e.CreateProposal?
    ensures e.id in Step(limits, s, e).proposals <==>
            && e.project in s.orgOf
            && (e.operation.CreateCanister? ==> |OrgCanisters(s, s.orgOf[e.project])| < limits(s.orgOf[e.project]))
  {
    hide Execute;
    ProcessKeepsFields(limits, s, e);
  }

  lemma ProcessKeepsFields(limits: Limits, s: System, e: Event)
    requires e.CreateProposal?
    ensures var with := s.(proposals := s.proposals[e.id := Proposal(e.project, e.proposer, Open, e.operation)]);
            e.id in Process(limits, with, e.id, e.policy, e.approvers, e.call).proposals
  {
    hide QuotaExhausted;
  }

  // Right after its creation: executing, awaiting exactly its approvers, or open for good.
  lemma CreatedAs(limits: Limits, s: System, e: Event)
    requires Invariant(s) && Possible(s, e) && e.CreateProposal? && e.id in Step(limits, s, e).proposals
    ensures AsDecided(Step(limits, s, e), e, [])
  {
    var with := s.(proposals := s.proposals[e.id := Proposal(e.project, e.proposer, Open, e.operation)]);
    ExecuteResult(limits, with, e.id, e.call);
    hide Execute, QuotaExhausted, Invariant;
  }

  // --- One message ---

  // A vote on a pending proposal: an approver who has not voted adds a ballot, which may decide;
  // anybody else changes nothing.
  lemma VoteIs(limits: Limits, s: System, e: Event)
    requires Invariant(s) && Possible(s, e) && e.VoteProposal?
    requires e.id in s.proposals && s.proposals[e.id].status.PendingApproval?
    ensures var p := s.proposals[e.id].status;
            var votes, t := p.votes + [Ballot(e.voter, e.vote)], Step(limits, s, e);
            if e.voter !in p.approvers || HasVoted(p.votes, e.voter) then t == s
            else
              match Tally(p.threshold, |p.approvers|, votes)
              case ReachedApproval => HasBegun(t, e.id)
              case ReachedRejection => NotBegun(t, e.id, Rejected)
              case StillPending => NotBegun(t, e.id, PendingApproval(p.threshold, p.approvers, votes))
  {
    var p := s.proposals[e.id].status;
    var cast := CastVote(p, e.voter, e.vote);
    assert e.id !in s.started by { hide BallotsSound, CallsSound; }
    if cast.Ok? {
      ExecuteResult(limits, SetStatus(s, e.id, cast.value.0), e.id, e.call);
    }
    hide Execute, Invariant, QuotaExhausted, Tally;
  }

  // Nothing but a vote or a cancellation of its own touches a proposal that has not begun.
  lemma OnlyItsOwnMessages(limits: Limits, s: System, e: Event, id: ProposalId)
    requires Invariant(s) && Possible(s, e) && id in s.proposals && !Begun(s.proposals[id].status)
    requires !IsVote(e, id) && e != Event.CancelProposal(id)
    ensures var t := Step(limits, s, e);
            id in t.proposals && t.proposals[id] == s.proposals[id] && (id in t.started <==> id in s.started)
  {
    if e.CreateProposal? {
      var with := s.(proposals := s.proposals[e.id := Proposal(e.project, e.proposer, Open, e.operation)]);
      ExecuteResult(limits, with, e.id, e.call);
    } else if e.VoteProposal? && e.id in s.proposals {
      var cast := CastVote(s.proposals[e.id].status, e.voter, e.vote);
      if cast.Ok? {
        ExecuteResult(limits, SetStatus(s, e.id, cast.value.0), e.id, e.call);
      }
    } else if e.ReplyArrives? && e.call in s.calls {
      assert s.calls[e.call].proposal != id by { hide BallotsSound, StartsSound; }
    }
    hide Execute, CastVote, Invariant, QuotaExhausted;
  }

  // A cancellation ends an open or pending proposal, and nothing else.
  lemma CancelIs(limits: Limits, s: System, id: ProposalId)
    requires Invariant(s) && id in s.proposals
    ensures var t := Step(limits, s, Event.CancelProposal(id));
            if s.proposals[id].status.Open? || s.proposals[id].status.PendingApproval?
            then NotBegun(t, id, Cancelled) && t.proposals - {id} == s.proposals - {id}
            else t == s
  {
    hide BallotsSound, CallsSound;
  }

  lemma BegunStays(limits: Limits, s: System, e: Event, id: ProposalId)
    requires Invariant(s) && Possible(s, e) && HasBegun(s, id)
    ensures HasBegun(Step(limits, s, e), id)
  {
    StepFollowsEdges(limits, s, e, id);
    StepKeepsInvariant(limits, s, e);
    hide Step, BallotsSound, CallsSound;
  }

  lemma RejectedStays(limits: Limits, s: System, e: Event, id: ProposalId, status: ProposalStatus)
    requires Invariant(s) && Possible(s, e) && NotBegun(s, id, status) && (status.Rejected? || status.Cancelled?)
    ensures NotBegun(Step(limits, s, e), id, status)
  {
    StepFollowsEdges(limits, s, e, id);
    StepKeepsInvariant(limits, s, e);
    hide Step, BallotsSound, CallsSound;
  }

  // --- Whole runs ---

  // The state of a proposal, whatever else happens, is what its policy and the first ballots of its
  // approvers make of it.
  lemma {:induction false} FateAfter(limits: Limits, s: System, e: Event, events: seq<Event>)
    requires Invariant(s) && Possible(s, e) && e.CreateProposal? && e.id in Step(limits, s, e).proposals
    requires PossibleRun(limits, Step(limits, s, e), events)
    ensures AsDecided(Run(limits, Step(limits, s, e), events), e, events)
  {
    hide Step, Invariant, AsDecided, Possible;
    var created := Step(limits, s, e);
    if events == [] {
      CreatedAs(limits, s, e);
    } else {
      var init, last := events[..|events| - 1], events[|events| - 1];
      FateAfter(limits, s, e, init);
      StepKeepsInvariant(limits, s, e);
      RunKeepsInvariant(limits, created, init);
      FateStep(limits, Run(limits, created, init), e, init, last);
      assert events == init + [last];
    }
  }

  // One more message adds at most one ballot; a decision stands, and after a cancellation none is added.
  lemma BallotsStep(e: Event, init: seq<Event>, last: Event, threshold: nat)
    requires e.CreateProposal?
    ensures var before, after := BallotsOn(init, e.id, e.approvers), BallotsOn(init + [last], e.id, e.approvers);
            var decision := Decision(threshold, |e.approvers|, before);
            var counts := IsVote(last, e.id) && last.voter in e.approvers && !HasVoted(before, last.voter) &&
                          !Withdrawn(init, e.id);
            && after == (if counts then before + [Ballot(last.voter, last.vote)] else before)
            && Decision(threshold, |e.approvers|, after) ==
               (if counts && decision.StillPending? then Tally(threshold, |e.approvers|, after) else decision)
    ensures Withdrawn(init + [last], e.id) <==> Withdrawn(init, e.id) || last == Event.CancelProposal(e.id)
  {
    assert (init + [last])[..|init|] == init;
    hide Tally, Withdrawn, IsVote;
    assert Withdrawn(init + [last], e.id) <==> Withdrawn(init, e.id) || last == Event.CancelProposal(e.id) by {
      WithdrawnStep(init, last, e.id);
    }
    var before := BallotsOn(init, e.id, e.approvers);
    if IsVote(last, e.id) {
      assert (before + [Ballot(last.voter, last.vote)])[..|before|] == before;
    }
  }

  lemma WithdrawnStep(init: seq<Event>, last: Event, id: ProposalId)
    ensures Withdrawn(init + [last], id) <==> Withdrawn(init, id) || last == Event.CancelProposal(id)
  {
  }

  lemma FateStep(limits: Limits, s: System, e: Event, init: seq<Event>, last: Event)
    requires Invariant(s) && Possible(s, last) && e.CreateProposal? && AsDecided(s, e, init)
    ensures AsDecided(Step(limits, s, last), e, init + [last])
  {
    hide Step, Invariant, Possible, Decision, Tally, BallotsOn, Withdrawn, Edge;
    StepFollowsEdges(limits, s, last, e.id);
    var status := s.proposals[e.id].status;
    BallotsStep(e, init, last, if e.policy.FixedQuorum? then e.policy.threshold else 0);
    if HasBegun(s, e.id) {
      BegunStays(limits, s, last, e.id);
    } else if status.Rejected? || status.Cancelled? {
      RejectedStays(limits, s, last, e.id, status);
    } else if last == Event.CancelProposal(e.id) {
      CancelIs(limits, s, e.id);
    } else if IsVote(last, e.id) && status.PendingApproval? {
      VoteIs(limits, s, last);
    } else if IsVote(last, e.id) {
      IdleVote(limits, s, last);
    } else {
      OnlyItsOwnMessages(limits, s, last, e.id);
    }
  }

  lemma IdleVote(limits: Limits, s: System, e: Event)
    requires e.VoteProposal? && e.id in s.proposals && !s.proposals[e.id].status.PendingApproval?
    ensures Step(limits, s, e) == s
  {
  }

  // --- What follows for quorums ---

  // Everything a creation under a quorum policy leads to, over the messages that follow it.
  ghost predicate Follows(limits: Limits, s: System, e: Event, events: seq<Event>) {
    && Invariant(s) && Possible(s, e) && e.CreateProposal? && e.id in Step(limits, s, e).proposals
    && PossibleRun(limits, Step(limits, s, e), events)
  }

  // Nothing under a quorum of k starts without the approving votes of k of its approvers.
  lemma StartsByQuorum(limits: Limits, s: System, e: Event, events: seq<Event>) returns (voters: set<UserId>)
    requires Follows(limits, s, e, events) && e.policy.FixedQuorum?
    requires e.id in Run(limits, Step(limits, s, e), events).started
    ensures 1 <= e.policy.threshold <= |voters|
    ensures forall u :: u in voters ==>
              && u in e.approvers
              && exists i :: CastAt(events, i, e.id, u, Approve)
  {
    var votes := BallotsOn(events, e.id, e.approvers);
    FateAfter(limits, s, e, events);
    hide Step, Run, Follows;
    voters := ApprovingVoters(votes);
    BallotsAdmissible(events, e.id, e.approvers);
    ApprovalsArePeople(e.approvers, votes);
    DecisionIsTally(e.policy.threshold, e.approvers, votes);
    forall u | u in voters
      ensures u in e.approvers
      ensures exists i :: CastAt(events, i, e.id, u, Approve)
    {
      assert Ballot(u, Approve) in votes;
      BallotsWereCast(events, e.id, e.approvers, Ballot(u, Approve));
    }
  }

  // Once every approver has voted, the proposal is no longer pending.
  lemma FullTurnoutEnds(limits: Limits, s: System, e: Event, events: seq<Event>)
    requires Follows(limits, s, e, events) && e.policy.FixedQuorum?
    requires forall u :: u in e.approvers ==> HasVoted(BallotsOn(events, e.id, e.approvers), u)
    ensures var t := Run(limits, Step(limits, s, e), events);
            e.id in t.proposals && !t.proposals[e.id].status.PendingApproval?
  {
    var votes := BallotsOn(events, e.id, e.approvers);
    FateAfter(limits, s, e, events);
    hide Step, Run;
    BallotsAdmissible(events, e.id, e.approvers);
    EverybodyVoted(e.approvers, votes);
    hide BallotsOn;
    if Meetable(e.policy.threshold, e.approvers) {
      DecisionIsTally(e.policy.threshold, e.approvers, votes);
      FullTurnoutDecides(e.policy.threshold, e.approvers, votes);
    }
  }

  lemma EverybodyVoted(approvers: seq<UserId>, votes: seq<Ballot>)
    requires NoDuplicates(approvers) && Admissible(approvers, votes)
    requires forall u :: u in approvers ==> HasVoted(votes, u)
    ensures |votes| == |approvers|
  {
    VotersDistinct(approvers, votes);
    SetOfDistinct(approvers);
    forall u | u in approvers ensures u in Voters(votes) {
      var i :| 0 <= i < |votes| && votes[i].voter == u;
      assert votes[i] in votes;
    }
    assert Voters(votes) == ToSet(approvers);
  }

  // The voter has a stored ballot if the proposal is pending, and it is not open any more.
  ghost predicate VoteIsSpent(s: System, id: ProposalId, voter: UserId) {
    && id in s.proposals && !s.proposals[id].status.Open?
    && (s.proposals[id].status.PendingApproval? ==> HasVoted(s.proposals[id].status.votes, voter))
  }

  // Whoever's ballot was accepted is refused from then on, and the refused vote changes nothing.
  lemma AcceptedVoterRefused(limits: Limits, s: System, e: Event, events: seq<Event>)
    requires Invariant(s) && Possible(s, e) && e.VoteProposal? && PossibleRun(limits, Step(limits, s, e), events)
    requires e.id in s.proposals && CastVote(s.proposals[e.id].status, e.voter, e.vote).Ok?
    ensures var t := Run(limits, Step(limits, s, e), events);
            && e.id in t.proposals
            && (forall vote :: CastVote(t.proposals[e.id].status, e.voter, vote) == Err)
            && (forall vote, call :: Step(limits, t, Event.VoteProposal(e.id, e.voter, vote, call)) == t)
  {
    var p := s.proposals[e.id].status;
    assert VoteIsSpent(Step(limits, s, e), e.id, e.voter) by {
      VoteIs(limits, s, e);
      var votes := p.votes + [Ballot(e.voter, e.vote)];
      assert votes[|p.votes|].voter == e.voter;
      hide Step, Tally, Invariant;
    }
    hide Step, CastVote, Invariant;
    StepKeepsInvariant(limits, s, e);
    SpentStays(limits, Step(limits, s, e), e.id, e.voter, events);
  }

  lemma {:induction false} SpentStays(limits: Limits, s: System, id: ProposalId, voter: UserId, events: seq<Event>)
    requires Invariant(s) && PossibleRun(limits, s, events) && VoteIsSpent(s, id, voter)
    ensures var t := Run(limits, s, events);
            && VoteIsSpent(t, id, voter)
            && (forall vote :: CastVote(t.proposals[id].status, voter, vote) == Err)
            && (forall vote, call :: Step(limits, t, Event.VoteProposal(id, voter, vote, call)) == t)
  {
    hide Invariant, Possible, Step, CastVote;
    if events != [] {
      var init, last := events[..|events| - 1], events[|events| - 1];
      SpentStays(limits, s, id, voter, init);
      RunKeepsInvariant(limits, s, init);
      StepFollowsEdges(limits, Run(limits, s, init), last, id);
    }
    var t := Run(limits, s, events);
    forall vote ensures CastVote(t.proposals[id].status, voter, vote) == Err {
      RefusedVote(limits, t, id, voter, vote, 0);
    }
    forall vote, call ensures Step(limits, t, Event.VoteProposal(id, voter, vote, call)) == t {
      RefusedVote(limits, t, id, voter, vote, call);
    }
  }

  lemma RefusedVote(limits: Limits, s: System, id: ProposalId, voter: UserId, vote: Vote, call: CallId)
    requires id in s.proposals
    requires s.proposals[id].status.PendingApproval? ==> HasVoted(s.proposals[id].status.votes, voter)
    ensures CastVote(s.proposals[id].status, voter, vote) == Err
    ensures Step(limits, s, Event.VoteProposal(id, voter, vote, call)) == s
  {
  }

  // --- The whole run of the canister ---

  lemma {:induction false} RunSplits(limits: Limits, s: System, a: seq<Event>, b: seq<Event>)
    ensures Run(limits, s, a + b) == Run(limits, Run(limits, s, a), b)
    ensures PossibleRun(limits, s, a + b) ==> PossibleRun(limits, s, a) && PossibleRun(limits, Run(limits, s, a), b)
    decreases |b|
  {
    hide Step, Possible;
    if b == [] {
      assert a + b == a;
    } else {
      var init := b[..|b| - 1];
      assert (a + b)[..|a + b| - 1] == a + init && (a + b)[|a + b| - 1] == b[|b| - 1];
      RunSplits(limits, s, a, init);
    }
  }

  lemma {:induction false} WasCreated(limits: Limits, s: System, events: seq<Event>, id: ProposalId) returns (n: nat)
    requires Invariant(s) && PossibleRun(limits, s, events)
    requires id !in s.proposals && id in Run(limits, s, events).proposals
    ensures n < |events| && events[n].CreateProposal? && events[n].id == id
    ensures id !in Run(limits, s, events[..n]).proposals && id in Run(limits, s, events[..n + 1]).proposals
  {
    hide Invariant;
    n := |events| - 1;
    var init := events[..n];
    if id in Run(limits, s, init).proposals {
      n := WasCreated(limits, s, init, id);
      assert init[..n] == events[..n] && init[..n + 1] == events[..n + 1];
    } else {
      assert events[..n + 1] == events;
      RunKeepsInvariant(limits, s, init);
      OnlyCreationAdds(limits, Run(limits, s, init), events[n], id);
    }
  }

  lemma OnlyCreationAdds(limits: Limits, s: System, e: Event, id: ProposalId)
    requires id !in s.proposals && id in Step(limits, s, e).proposals && Invariant(s)
    ensures e.CreateProposal? && e.id == id
  {
    if e.ReplyArrives? && e.call in s.calls {
      assert s.calls[e.call].proposal in s.proposals by { hide BallotsSound, StartsSound; }
    }
    hide Invariant;
  }

  // Every stored proposal was created by some message of the run, and the rest of the run follows it.
  lemma CreatedAt(limits: Limits, s: System, events: seq<Event>, id: ProposalId) returns (n: nat)
    requires Invariant(s) && PossibleRun(limits, s, events)
    requires id !in s.proposals && id in Run(limits, s, events).proposals
    ensures n < |events| && events[n].CreateProposal? && events[n].id == id
    ensures var before := Run(limits, s, events[..n]);
            && Follows(limits, before, events[n], events[n + 1..])
            && Run(limits, Step(limits, before, events[n]), events[n + 1..]) == Run(limits, s, events)
  {
    n := WasCreated(limits, s, events, id);
    var before, after := events[..n], events[n + 1..];
    assert events == events[..n + 1] + after && events[..n + 1][..n] == before;
    RunSplits(limits, s, events[..n + 1], after);
    RunKeepsInvariant(limits, s, before);
    hide Step, Invariant, Possible;
    assert Run(limits, s, events[..n + 1]) == Step(limits, Run(limits, s, before), events[n]);
  }

  // In every reachable state every proposal is what its policy and the messages since its creation make
  // of it.
  lemma EveryFateIsDecided(limits: Limits, s: System, events: seq<Event>, id: ProposalId) returns (n: nat)
    requires Invariant(s) && PossibleRun(limits, s, events)
    requires id !in s.proposals && id in Run(limits, s, events).proposals
    ensures n < |events| && events[n].CreateProposal? && events[n].id == id
    ensures AsDecided(Run(limits, s, events), events[n], events[n + 1..])
  {
    n := CreatedAt(limits, s, events, id);
    hide Step, Invariant, Possible, AsDecided, Run, PossibleRun;
    FateAfter(limits, Run(limits, s, events[..n]), events[n], events[n + 1..]);
  }

  // In every reachable state whatever has started under a quorum of k was approved, after its creation, by
  // k of its approvers.
  lemma EveryStartHasAQuorum(limits: Limits, s: System, events: seq<Event>, id: ProposalId)
    returns (n: nat, voters: set<UserId>)
    requires Invariant(s) && PossibleRun(limits, s, events)
    requires id !in s.proposals && id in Run(limits, s, events).started
    ensures n < |events| && events[n].CreateProposal? && events[n].id == id
    ensures events[n].policy.FixedQuorum? ==>
              && 1 <= events[n].policy.threshold <= |voters|
              && forall u :: u in voters ==>
                   && u in events[n].approvers
                   && exists i :: n < i && CastAt(events, i, id, u, Approve)
  {
    StartedIsStored(limits, s, events, id);
    n := CreatedAt(limits, s, events, id);
    hide Step, Invariant, Possible, Run, PossibleRun;
    voters := {};
    if events[n].policy.FixedQuorum? {
      var after := events[n + 1..];
      voters := StartsByQuorum(limits, Run(limits, s, events[..n]), events[n], after);
      forall u | u in voters
        ensures exists i :: n < i && CastAt(events, i, id, u, Approve)
      {
        var i :| CastAt(after, i, id, u, Approve);
        assert CastAt(events, n + 1 + i, id, u, Approve);
      }
    }
  }

  lemma StartedIsStored(limits: Limits, s: System, events: seq<Event>, id: ProposalId)
    requires Invariant(s) && PossibleRun(limits, s, events) && id in Run(limits, s, events).started
    ensures id in Run(limits, s, events).proposals
  {
    RunKeepsInvariant(limits, s, events);
    hide BallotsSound, CallsSound, Run;
  }

  // --- Executions ---

  ghost function RepliesTo(events: seq<Event>, call: CallId): seq<Reply> {
    if events == [] then []
    else
      var before, last := RepliesTo(events[..|events| - 1], call), events[|events| - 1];
      if last.ReplyArrives? && last.call == call then before + [last.reply] else before
  }

  // What the replies to its call make of an execution: one for a creation, two for the settings.
  function Result(operation: Operation, replies: seq<Reply>): ProposalStatus {
    if replies == [] then Executing
    else if operation.CreateCanister? then if replies[0].CanisterCreated? then Executed else Failed
    else if replies[0] != Controllers(false) then Failed
    else if |replies| == 1 then Executing
    else if replies[1].SettingsUpdated? then Executed else Failed
  }

  // What an execution in progress awaits.
  function Awaited(operation: Operation, replies: seq<Reply>): CallStep {
    if operation.CreateCanister? then CreatingCanister
    else if replies == [] then ReadingStatus
    else UpdatingSettings
  }

  ghost predicate FollowsReplies(s: System, id: ProposalId, operation: Operation, call: CallId, replies: seq<Reply>) {
    && id in s.proposals && s.proposals[id].operation == operation
    && s.proposals[id].status == Result(operation, replies)
    && (s.proposals[id].status.Executing? ==> call in s.calls && s.calls[call] == Call(id, Awaited(operation, replies)))
  }

  // An execution starts with a call, unless it would create a canister beyond the plan or for a
  // project that is gone.
  lemma StartsExecution(limits: Limits, s: System, e: Event, id: ProposalId)
    requires Invariant(s) && Possible(s, e) && id !in s.started && id in Step(limits, s, e).started
    ensures (e.CreateProposal? || e.VoteProposal?) && e.id == id
    ensures var t := Step(limits, s, e);
            && id in t.proposals
            && var p := t.proposals[id];
               if p.operation.CreateCanister? &&
                  (p.project in s.orgOf ==> |OrgCanisters(s, s.orgOf[p.project])| >= limits(s.orgOf[p.project]))
               then p.status == Failed && t.calls == s.calls
               else FollowsReplies(t, id, p.operation, e.call, []) && t.calls - {e.call} == s.calls
  {
    hide Invariant;
    if e.CreateProposal? {
      var with := s.(proposals := s.proposals[e.id := Proposal(e.project, e.proposer, Open, e.operation)]);
      assert forall org :: OrgCanisters(with, org) == OrgCanisters(s, org);
    } else if e.VoteProposal? && e.id in s.proposals {
      var cast := CastVote(s.proposals[e.id].status, e.voter, e.vote);
      if cast.Ok? {
        var voted := SetStatus(s, e.id, cast.value.0);
        assert forall org :: OrgCanisters(voted, org) == OrgCanisters(s, org);
      }
    }
  }

  // From then on the replies to its call alone decide how the execution ends.
  lemma {:induction false} ExecutionFollowsReplies(
    limits: Limits, s: System, id: ProposalId, operation: Operation, call: CallId, events: seq<Event>)
    requires Invariant(s) && PossibleRun(limits, s, events) && FollowsReplies(s, id, operation, call, [])
    ensures FollowsReplies(Run(limits, s, events), id, operation, call, RepliesTo(events, call))
  {
    hide Step, Invariant, FollowsReplies, Possible;
    if events != [] {
      var init, last := events[..|events| - 1], events[|events| - 1];
      ExecutionFollowsReplies(limits, s, id, operation, call, init);
      RunKeepsInvariant(limits, s, init);
      ReplyStep(limits, Run(limits, s, init), id, operation, call, RepliesTo(init, call), last);
    }
  }

  lemma ReplyStep(limits: Limits, s: System, id: ProposalId, operation: Operation, call: CallId, replies: seq<Reply>,
    e: Event)
    requires Invariant(s) && Possible(s, e) && FollowsReplies(s, id, operation, call, replies)
    ensures FollowsReplies(Step(limits, s, e), id, operation, call,
              if e.ReplyArrives? && e.call == call then replies + [e.reply] else replies)
  {
    if Final(s.proposals[id].status) {
      StepFollowsEdges(limits, s, e, id);
      hide Step, Invariant;
    } else if e.ReplyArrives? && e.call == call {
      hide Invariant;
    } else {
      OtherMessage(limits, s, e, id, call);
      hide Step, Invariant;
    }
  }

  // Nothing but a reply to its own call touches an execution in progress.
  lemma OtherMessage(limits: Limits, s: System, e: Event, id: ProposalId, call: CallId)
    requires Invariant(s) && Possible(s, e) && !(e.ReplyArrives? && e.call == call)
    requires id in s.proposals && s.proposals[id].status.Executing? && call in s.calls && s.calls[call].proposal == id
    ensures var t := Step(limits, s, e);
            && id in t.proposals && t.proposals[id] == s.proposals[id]
            && call in t.calls && t.calls[call] == s.calls[call]
  {
    if e.ReplyArrives? && e.call in s.calls {
      assert s.calls[e.call].proposal != id by { hide BallotsSound, StartsSound; }
    }
    hide Invariant, QuotaExhausted, CastVote;
    if e.CreateProposal? {
      var with := s.(proposals := s.proposals[e.id := Proposal(e.project, e.proposer, Open, e.operation)]);
      ExecuteResult(limits, with, e.id, e.call);
      hide Execute;
    } else if e.VoteProposal? && e.id in s.proposals {
      var cast := CastVote(s.proposals[e.id].status, e.voter, e.vote);
      if cast.Ok? {
        CastNeedsPending(s.proposals[e.id].status, e.voter, e.vote);
        ExecuteResult(limits, SetStatus(s, e.id, cast.value.0), e.id, e.call);
      }
      hide Execute;
    }
  }

  lemma CastNeedsPending(status: ProposalStatus, voter: UserId, vote: Vote)
    requires CastVote(status, voter, vote).Ok?
    ensures status.PendingApproval?
  {
  }

  // A canister is active from the reply that created it for a project until it is removed.
  lemma ActiveIff(limits: Limits, s: System, e: Event, project: ProjectId, canister: CanisterId)
    requires Invariant(s)
    ensures (project, canister) in Step(limits, s, e).active <==>
            || ((project, canister) in s.active && e != Event.RemoveCanister(project, canister))
            || (&& e.ReplyArrives? && e.reply == CanisterCreated(canister)
                && e.call in s.calls && s.calls[e.call].step.CreatingCanister?
                && s.proposals[s.calls[e.call].proposal].project == project)
  {
    hide BallotsSound, StartsSound;
  }

  // A project is known from its addition until it is deleted, which is refused while it has canisters.
  lemma KnownIff(limits: Limits, s: System, e: Event, project: ProjectId, org: OrgId)
    requires Possible(s, e)
    ensures var t := Step(limits, s, e);
            project in t.orgOf && t.orgOf[project] == org <==>
            || e == Event.AddProject(project, org)
            || (project in s.orgOf && s.orgOf[project] == org &&
                !(e == Event.DeleteProject(project) &&
                  forall canister :: (project, canister) !in s.active && (project, canister) !in s.deleted))
  {
    hide CastVote, QuotaExhausted;
    if e.DeleteProject? && HasCanisters(s, e.project) {
      var pc :| (pc in s.active || pc in s.deleted) && pc.0 == e.project;
      assert pc == (e.project, pc.1);
    }
  }

  // A canister is deleted for a project once it has been removed from it.
  lemma RemovedIff(limits: Limits, s: System, e: Event, project: ProjectId, canister: CanisterId)
    ensures (project, canister) in Step(limits, s, e).deleted <==>
            || (project, canister) in s.deleted
            || (e == Event.RemoveCanister(project, canister) && (project, canister) in s.active)
  {
    hide CastVote, QuotaExhausted;
  }
}
