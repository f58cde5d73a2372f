/** What a message does to every invite and membership, and when it is accepted. */
module InviteEffects {
  import opened Primitives
  import opened Invites

  predicate Done(s: State, c: Call) {
    Apply(s, c).1
  }

  function After(s: State, c: Call): State {
    Apply(s, c).0
  }

  function Lookup(s: State, id: InviteId): Option<Invite> {
    if id in s.invites then Some(s.invites[id]) else None
  }

  // Equal, or a letter in the other case.
  predicate SameLetter(a: char, b: char) {
    || a == b
    || ('A' <= a <= 'Z' && b as int == a as int + 32)
    || ('A' <= b <= 'Z' && a as int == b as int + 32)
  }

  // Who an invite is meant for.
  predicate Addressed(target: Target, c: Caller) {
    || target == ByUser(c.user)
    || (target.ByPrincipal? && target.principal in c.principals)
    || (&& target.ByEmail? && c.verified && c.email.Some? && |c.email.value| == |target.email|
        && forall i :: 0 <= i < |target.email| ==> SameLetter(c.email.value[i], target.email[i]))
  }

  lemma AddressedIff(target: Target, c: Caller)
    ensures Matches(target, c) <==> Addressed(target, c)
  {
    forall a: char, b: char ensures AsciiLower(a) == AsciiLower(b) <==> SameLetter(a, b) {
    }
  }

  // A creation gets as far as sweeping the organisation.
  predicate Sweeps(c: Call) {
    c.Create? && c.authorized && (c.target.ByEmail? || !c.alreadyMember)
  }

  // An invite can be created while fewer than ten of the organisation are pending and unexpired; it can
  // be answered by whom it is meant for, before it expires, and revoked by its creator or whoever
  // manages members, all of it only while it is pending.
  lemma DoneIff(s: State, c: Call)
    requires Sound(s)
    ensures Done(s, c) <==>
            if c.Create? then Sweeps(c) && |UnexpiredOf(s, c.org, c.now)| < MAX_PENDING_PER_ORG
            else
              && c.id in s.invites && s.invites[c.id].status == Pending
              && if c.Revoke? then c.isMember && (s.invites[c.id].createdBy == c.user || c.managesMembers)
                 else c.now < s.invites[c.id].expires && Addressed(s.invites[c.id].target, c.caller)
  {
    if c.Create? {
      SweptCountIsDirect(s, c.org, c.now);
    } else if !c.Revoke? && c.id in s.invites {
      AddressedIff(s.invites[c.id].target, c.caller);
    }
    hide Sound, Sweep, CountPending, UnexpiredOf, Matches, Addressed;
  }

  // The status that the message gives to the invite.
  function Decides(c: Call): Status {
    match c
    case Create(_, _, _, _, _, _, _) => Pending
    case Accept(_, _, _, _) => Accepted
    case Decline(_, _, _) => Declined
    case Revoke(_, _, _, _) => Revoked
  }

  // An invite is what its creation made it, with the status of the message that decided it; it is gone
  // once a creation in its organisation finds it pending and expired.
  lemma InviteIs(s: State, c: Call, id: InviteId)
    requires Sound(s)
    ensures Lookup(After(s, c), id) ==
            if Done(s, c) && c.id == id then
              if c.Create? then Some(Invite(c.org, c.creator, (c.now + INVITE_TTL) % (U64_MAX + 1), c.target, Pending))
              else Some(s.invites[id].(status := Decides(c)))
            else if && Sweeps(c) && id in s.invites && s.invites[id].org == c.org
                    && s.invites[id].status == Pending && s.invites[id].expires <= c.now
            then None
            else Lookup(s, id)
  {
    if c.Create? {
      SweptIs(s, c.org, c.now);
      hide Sound, Sweep, CountPending;
    } else {
      hide Sound, Sweep, CountPending, Matches;
    }
  }

  // The message makes the user a member of the organisation.
  predicate Joins(s: State, c: Call, org: OrgId, user: UserId) {
    c.Accept? && !c.isMember && c.caller.user == user && c.id in s.invites && s.invites[c.id].org == org
  }

  // Accepting an invite makes its user a member, and nothing else does.
  lemma MembersIff(s: State, c: Call, org: OrgId, user: UserId)
    ensures (org, user) in After(s, c).members <==> (org, user) in s.members || (Done(s, c) && Joins(s, c, org, user))
  {
    hide CountPending, Matches;
  }

  ghost predicate JoinsAt(calls: seq<Call>, i: int, org: OrgId, user: UserId) {
    && 0 <= i < |calls| && Done(Run(calls[..i]), calls[i]) && Joins(Run(calls[..i]), calls[i], org, user)
  }

  // In every reachable state the members gained through invites are exactly those who accepted one.
  lemma {:induction false} MembersAccepted(calls: seq<Call>, org: OrgId, user: UserId)
    ensures (org, user) in Run(calls).members <==> exists i :: JoinsAt(calls, i, org, user)
  {
    hide Done, Joins, Apply, JoinsAt;
    if calls != [] {
      var n := |calls| - 1;
      var init := calls[..n];
      MembersAccepted(init, org, user);
      MembersIff(Run(init), calls[n], org, user);
      var s, c := Run(init), calls[n];
      assert Run(calls) == After(s, c);
      forall i
        ensures JoinsAt(calls, i, org, user) <==>
                JoinsAt(init, i, org, user) || (i == n && Done(s, c) && Joins(s, c, org, user))
      {
        JoinsStep(calls, i, org, user);
      }
      if Done(s, c) && Joins(s, c, org, user) {
        assert JoinsAt(calls, n, org, user);
      } else if i :| JoinsAt(init, i, org, user) {
        assert JoinsAt(calls, i, org, user);
      }
    } else {
      forall i ensures !JoinsAt([], i, org, user) {
        JoinsNever(i, org, user);
      }
    }
  }

  lemma JoinsNever(i: int, org: OrgId, user: UserId)
    ensures !JoinsAt([], i, org, user)
  {
  }

  lemma JoinsStep(calls: seq<Call>, i: int, org: OrgId, user: UserId)
    requires calls != []
    ensures var n := |calls| - 1;
            JoinsAt(calls, i, org, user) <==>
            || JoinsAt(calls[..n], i, org, user)
            || (i == n && Done(Run(calls[..n]), calls[n]) && Joins(Run(calls[..n]), calls[n], org, user))
  {
    hide Done, Joins, Run;
    if 0 <= i < |calls| - 1 {
      assert calls[..|calls| - 1][..i] == calls[..i];
    }
  }

  lemma {:induction false} PrefixFresh(calls: seq<Call>, i: nat)
    requires i <= |calls| && FreshIds(calls)
    ensures FreshIds(calls[..i])
  {
    hide Fresh, Run;
    if i == |calls| {
      assert calls[..i] == calls;
    } else {
      var init := calls[..|calls| - 1];
      PrefixFresh(init, i);
      assert init[..i] == calls[..i];
    }
  }

  // The invite that made somebody a member was pending, not expired, and meant for them.
  lemma JoinedRightly(calls: seq<Call>, i: nat, org: OrgId, user: UserId)
    requires FreshIds(calls) && JoinsAt(calls, i, org, user)
    ensures var c := calls[i];
            && c.Accept? && c.id in Run(calls[..i]).invites
            && var invite := Run(calls[..i]).invites[c.id];
               && invite.org == org && invite.status == Pending && c.now < invite.expires
               && Addressed(invite.target, c.caller) && c.caller.user == user
  {
    PrefixFresh(calls, i);
    RunKeepsSound(calls[..i]);
    hide Sound, Done, Run, FreshIds, Addressed;
    DoneIff(Run(calls[..i]), calls[i]);
  }
}
