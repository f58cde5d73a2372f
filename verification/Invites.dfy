/** Organisation invites: the invite map, its two status and expiry indexes, and the pending cap. */
module Invites {
  import opened Primitives

  type InviteId = nat
  type Time = nat

  const INVITE_TTL: nat := 7 * 24 * 60 * 60 * 1_000_000_000
  const MAX_PENDING_PER_ORG := 10

  datatype Status = Pending | Accepted | Declined | Revoked
  datatype Target = ByEmail(email: string) | ByUser(user: UserId) | ByPrincipal(principal: Principal)
  datatype Invite = Invite(org: OrgId, createdBy: UserId, expires: Time, target: Target, status: Status)

  // Index keys: status code and expiry come before the id, so that a range is a time window.
  datatype StatusKey = StatusKey(status: nat, expires: Time, id: InviteId)
  datatype OrgKey = OrgKey(org: OrgId, key: StatusKey)

  // `members` are the memberships gained through invites. `acceptedBy` says who accepted an invite:
  // it is not stored, it is what the proofs refer to.
  datatype State = State(
    invites: map<InviteId, Invite>, orgIndex: set<OrgKey>, statusIndex: set<StatusKey>,
    members: set<(OrgId, UserId)>, acceptedBy: map<InviteId, UserId>)

  const EMPTY := State(map[], {}, {}, {}, map[])

  function Code(status: Status): nat {
    match status
    case Pending => 0
    case Accepted => 1
    case Declined => 2
    case Revoked => 3
  }

  function StatusKeyOf(i: Invite, id: InviteId): StatusKey {
    StatusKey(Code(i.status), i.expires, id)
  }

  function OrgKeyOf(i: Invite, id: InviteId): OrgKey {
    OrgKey(i.org, StatusKeyOf(i, id))
  }

  // --- Repository ---

  function Insert(s: State, id: InviteId, i: Invite): State {
    s.(invites := s.invites[id := i],
       orgIndex := s.orgIndex + {OrgKeyOf(i, id)},
       statusIndex := s.statusIndex + {StatusKeyOf(i, id)})
  }

  function Update(s: State, id: InviteId, i: Invite): State
    requires id in s.invites
  {
    var before := s.invites[id];
    s.(invites := s.invites[id := i],
       orgIndex := s.orgIndex - {OrgKeyOf(before, id)} + {OrgKeyOf(i, id)},
       statusIndex := s.statusIndex - {StatusKeyOf(before, id)} + {StatusKeyOf(i, id)})
  }

  // The organisation's keys with the pending code and an expiry in the window, both ends included.
  function PendingRange(orgIndex: set<OrgKey>, org: OrgId, from: Time, to: Time): set<OrgKey> {
    set k | k in orgIndex && k.org == org && k.key.status == Code(Pending) && from <= k.key.expires <= to
  }

  function Ids(keys: set<OrgKey>): set<InviteId> {
    set k | k in keys :: k.key.id
  }

  function StatusKeys(keys: set<OrgKey>): set<StatusKey> {
    set k | k in keys :: k.key
  }

  function Sweep(s: State, org: OrgId, now: Time): State {
    var expired := PendingRange(s.orgIndex, org, 0, now);
    s.(invites := s.invites - Ids(expired),
       orgIndex := s.orgIndex - expired,
       statusIndex := s.statusIndex - StatusKeys(expired))
  }

  function CountPending(s: State, org: OrgId, now: Time): nat {
    |PendingRange(s.orgIndex, org, now, U64_MAX)|
  }

  // --- Service ---

  // `u8::to_ascii_lowercase` and `str::eq_ignore_ascii_case`.
  function AsciiLower(c: char): char {
    if 'A' <= c <= 'Z' then (c as int + 32) as char else c
  }

  predicate EqIgnoreAsciiCase(a: string, b: string) {
    |a| == |b| && forall i :: 0 <= i < |a| ==> AsciiLower(a[i]) == AsciiLower(b[i])
  }

  datatype Caller = Caller(user: UserId, principals: set<Principal>, email: Option<string>, verified: bool)

  predicate Matches(target: Target, c: Caller) {
    match target
    case ByUser(user) => user == c.user
    case ByPrincipal(p) => p in c.principals
    case ByEmail(email) => c.verified && c.email.Some? && EqIgnoreAsciiCase(c.email.value, email)
  }

  predicate Actionable(i: Invite, c: Caller, now: Time) {
    i.status == Pending && i.expires > now && Matches(i.target, c)
  }

  // The caller's authorisation and the user behind a principal target are inputs; so is whether
  // that user is a member already, which `members` need not show.
  datatype Call =
    | Create(org: OrgId, creator: UserId, authorized: bool, target: Target, alreadyMember: bool, now: Time,
      id: InviteId)
    | Accept(caller: Caller, id: InviteId, now: Time, isMember: bool)
    | Decline(caller: Caller, id: InviteId, now: Time)
    | Revoke(user: UserId, isMember: bool, managesMembers: bool, id: InviteId)

  // The expiry is a wrapping 64-bit sum.
  function ExpiryAt(now: Time): Time {
    (now + INVITE_TTL) % (U64_MAX + 1)
  }

  function NewInvite(c: Call): Invite
    requires c.Create?
  {
    Invite(c.org, c.creator, ExpiryAt(c.now), c.target, Pending)
  }

  function SetStatus(s: State, id: InviteId, status: Status): State
    requires id in s.invites
  {
    Update(s, id, s.invites[id].(status := status))
  }

  // The state after a message, and whether it was accepted. A refused creation has swept.
  function Apply(s: State, c: Call): (State, bool) {
    match c
    case Create(org, creator, authorized, target, alreadyMember, now, id) =>
      if !authorized || (!target.ByEmail? && alreadyMember) then (s, false)
      else
        var swept := Sweep(s, org, now);
        if CountPending(swept, org, now) >= MAX_PENDING_PER_ORG then (swept, false)
        else (Insert(swept, id, NewInvite(c)), true)
    case Accept(caller, id, now, isMember) =>
      if id !in s.invites || !Actionable(s.invites[id], caller, now) then (s, false)
      else
        var accepted := SetStatus(s, id, Accepted).(acceptedBy := s.acceptedBy[id := caller.user]);
        (if isMember then accepted else accepted.(members := s.members + {(s.invites[id].org, caller.user)}), true)
    case Decline(caller, id, now) =>
      if id !in s.invites || !Actionable(s.invites[id], caller, now) then (s, false)
      else (SetStatus(s, id, Declined), true)
    case Revoke(user, isMember, managesMembers, id) =>
      if id !in s.invites || !isMember || (s.invites[id].createdBy != user && !managesMembers) then (s, false)
      else if s.invites[id].status != Pending then (s, false)
      else (SetStatus(s, id, Revoked), true)
  }

  ghost predicate Fresh(s: State, c: Call) {
    c.Create? ==> c.id !in Sweep(s, c.org, c.now).invites
  }

  // --- What every state keeps ---

  // Both indexes hold exactly the key of every invite.
  ghost predicate Mirrored(s: State) {
    && (forall k :: k in s.orgIndex <==> k.key.id in s.invites && k == OrgKeyOf(s.invites[k.key.id], k.key.id))
    && (forall k :: k in s.statusIndex <==> k.id in s.invites && k == StatusKeyOf(s.invites[k.id], k.id))
  }

  // Expiries fit the index.
  ghost predicate Bounded(s: State) {
    forall id :: id in s.invites ==> s.invites[id].expires <= U64_MAX
  }

  function PendingOf(s: State, org: OrgId): set<InviteId> {
    set id | id in s.invites && s.invites[id].org == org && s.invites[id].status == Pending
  }

  function UnexpiredOf(s: State, org: OrgId, now: Time): set<InviteId> {
    set id | id in PendingOf(s, org) && s.invites[id].expires > now
  }

  ghost predicate Capped(s: State) {
    forall org: OrgId :: |PendingOf(s, org)| <= MAX_PENDING_PER_ORG
  }

  function AcceptedIds(s: State): set<InviteId> {
    set id | id in s.invites && s.invites[id].status == Accepted
  }

  // The user accepted this invite to the organisation, which no other user was addressed by id in.
  ghost predicate AcceptedFor(s: State, id: InviteId, member: (OrgId, UserId)) {
    && id in AcceptedIds(s) && s.invites[id].org == member.0
    && id in s.acceptedBy && s.acceptedBy[id] == member.1
    && (s.invites[id].target.ByUser? ==> s.invites[id].target.user == member.1)
  }

  // Every membership has an invite that its user accepted; an invite serves one membership only.
  ghost predicate MembersInvited(s: State) {
    forall m :: m in s.members ==> exists id :: AcceptedFor(s, id, m)
  }

  ghost predicate Sound(s: State) {
    Mirrored(s) && Bounded(s) && Capped(s) && MembersInvited(s)
  }

  // --- Sweeping and counting ---

  lemma KeyInRange(s: State, org: OrgId, from: Time, to: Time, id: InviteId)
    requires Mirrored(s)
    ensures id in Ids(PendingRange(s.orgIndex, org, from, to)) <==>
            id in PendingOf(s, org) && from <= s.invites[id].expires <= to
  {
    var range := PendingRange(s.orgIndex, org, from, to);
    if id in PendingOf(s, org) && from <= s.invites[id].expires <= to {
      var k := OrgKeyOf(s.invites[id], id);
      assert k.key.id == id && k in s.orgIndex && k in range;
    }
    if id in Ids(range) {
      var k :| k in range && k.key.id == id;
      assert k == OrgKeyOf(s.invites[id], id);
    }
  }

  // A range has as many keys as invites: the id determines the key.
  lemma {:induction false} RangeSize(s: State, keys: set<OrgKey>)
    requires Mirrored(s) && keys <= s.orgIndex
    ensures |keys| == |Ids(keys)|
    decreases keys
  {
    if keys == {} {
      assert Ids(keys) == {};
    } else {
      var k :| k in keys;
      var rest := keys - {k};
      RangeSize(s, rest);
      forall r | r in rest ensures r.key.id != k.key.id {
        assert r == OrgKeyOf(s.invites[r.key.id], r.key.id) && k == OrgKeyOf(s.invites[k.key.id], k.key.id);
      }
      assert Ids(keys) == Ids(rest) + {k.key.id};
      assert k.key.id !in Ids(rest);
    }
  }

  // Without a sweep the counted window includes invites that expire exactly now: the count is the
  // number of unexpired pending invites exactly when there are none of those.
  lemma CountIsUnexpiredIff(s: State, org: OrgId, now: Time)
    requires Mirrored(s) && Bounded(s)
    ensures CountPending(s, org, now) == |UnexpiredOf(s, org, now)| <==>
            forall id :: id in PendingOf(s, org) ==> s.invites[id].expires != now
  {
    var range := PendingRange(s.orgIndex, org, now, U64_MAX);
    RangeSize(s, range);
    forall id ensures id in Ids(range) <==> id in PendingOf(s, org) && now <= s.invites[id].expires {
      KeyInRange(s, org, now, U64_MAX, id);
    }
    assert UnexpiredOf(s, org, now) <= Ids(range);
    SubsetSize(UnexpiredOf(s, org, now), Ids(range));
    if id :| id in PendingOf(s, org) && s.invites[id].expires == now {
      assert id in Ids(range) && id !in UnexpiredOf(s, org, now);
    } else {
      assert Ids(range) == UnexpiredOf(s, org, now);
    }
  }

  // A sweep removes the organisation's expired pending invites and nothing else.
  lemma SweptIs(s: State, org: OrgId, now: Time)
    requires Mirrored(s)
    ensures Mirrored(Sweep(s, org, now))
    ensures var r := Sweep(s, org, now);
            && r.members == s.members && r.acceptedBy == s.acceptedBy
            && forall id :: id in r.invites <==>
               id in s.invites && !(id in PendingOf(s, org) && s.invites[id].expires <= now)
    ensures forall id :: id in Sweep(s, org, now).invites ==> Sweep(s, org, now).invites[id] == s.invites[id]
  {
    var expired, r := PendingRange(s.orgIndex, org, 0, now), Sweep(s, org, now);
    forall id ensures id in r.invites <==>
      id in s.invites && !(id in PendingOf(s, org) && s.invites[id].expires <= now) {
      KeyInRange(s, org, 0, now, id);
    }
    SweepKeepsMirror(s, expired);
  }

  lemma SweepKeepsMirror(s: State, expired: set<OrgKey>)
    requires Mirrored(s) && expired <= s.orgIndex
    ensures Mirrored(s.(invites := s.invites - Ids(expired), orgIndex := s.orgIndex - expired,
            statusIndex := s.statusIndex - StatusKeys(expired)))
  {
    var invites := s.invites - Ids(expired);
    forall k: OrgKey
      ensures k in s.orgIndex - expired <==> k.key.id in invites && k == OrgKeyOf(invites[k.key.id], k.key.id)
    {
      if k.key.id in Ids(expired) {
        var e :| e in expired && e.key.id == k.key.id;
        assert e == OrgKeyOf(s.invites[e.key.id], e.key.id);
        assert k in s.orgIndex ==> k == e;
      } else {
        assert k !in expired;
      }
    }
    forall k: StatusKey
      ensures k in s.statusIndex - StatusKeys(expired) <==> k.id in invites && k == StatusKeyOf(invites[k.id], k.id)
    {
      if k.id in Ids(expired) {
        var e :| e in expired && e.key.id == k.id;
        assert e == OrgKeyOf(s.invites[e.key.id], e.key.id);
        assert k in s.statusIndex ==> k == e.key;
      } else {
        assert k !in StatusKeys(expired);
      }
    }
  }

  // After the sweep the counted window is all the pending invites that are left, none expired.
  lemma SweptCountIsDirect(s: State, org: OrgId, now: Time)
    requires Mirrored(s) && Bounded(s)
    ensures CountPending(Sweep(s, org, now), org, now) == |PendingOf(Sweep(s, org, now), org)| ==
            |UnexpiredOf(s, org, now)|
  {
    var r := Sweep(s, org, now);
    SweptIs(s, org, now);
    hide Sweep, Mirrored;
    CountIsUnexpiredIff(r, org, now);
    assert PendingOf(r, org) == UnexpiredOf(r, org, now) == UnexpiredOf(s, org, now);
  }

  // --- Preservation ---

  lemma InsertKeepsMirror(s: State, id: InviteId, i: Invite)
    requires Mirrored(s) && id !in s.invites
    ensures Mirrored(Insert(s, id, i))
  {
  }

  lemma UpdateKeepsMirror(s: State, id: InviteId, i: Invite)
    requires Mirrored(s) && id in s.invites
    ensures Mirrored(Update(s, id, i))
  {
  }

  lemma FewerPending(s: State, r: State)
    requires Capped(s)
    requires forall id :: id in r.invites && r.invites[id].status == Pending ==>
             id in s.invites && s.invites[id] == r.invites[id]
    ensures Capped(r)
  {
    forall org: OrgId ensures |PendingOf(r, org)| <= MAX_PENDING_PER_ORG {
      assert |PendingOf(s, org)| <= MAX_PENDING_PER_ORG;
      SubsetSize(PendingOf(r, org), PendingOf(s, org));
    }
  }

  lemma SweepKeeps(s: State, org: OrgId, now: Time)
    requires Sound(s)
    ensures Sound(Sweep(s, org, now))
  {
    var swept := Sweep(s, org, now);
    SweptIs(s, org, now);
    hide Sweep, Mirrored;
    FewerPending(s, swept);
    StillInvited(s, swept);
  }

  lemma OneMorePending(s: State, r: State, id: InviteId, i: Invite, org: OrgId)
    requires id !in s.invites && i.status == Pending && r.invites == s.invites[id := i]
    ensures org == i.org ==> |PendingOf(r, org)| == |PendingOf(s, org)| + 1
    ensures org != i.org ==> |PendingOf(r, org)| == |PendingOf(s, org)|
  {
    if org == i.org {
      assert PendingOf(r, org) == PendingOf(s, org) + {id};
    } else {
      assert PendingOf(r, org) == PendingOf(s, org);
    }
  }

  lemma InsertKeeps(s: State, id: InviteId, i: Invite)
    requires Sound(s) && id !in s.invites && i.status == Pending && i.expires <= U64_MAX
    requires |PendingOf(s, i.org)| < MAX_PENDING_PER_ORG
    ensures Sound(Insert(s, id, i))
  {
    var r := Insert(s, id, i);
    InsertKeepsMirror(s, id, i);
    assert r.invites == s.invites[id := i] && r.members == s.members && r.acceptedBy == s.acceptedBy;
    hide Mirrored, Insert;
    StillInvited(s, r);
    hide MembersInvited;
    forall org: OrgId ensures |PendingOf(r, org)| <= MAX_PENDING_PER_ORG {
      assert |PendingOf(s, org)| <= MAX_PENDING_PER_ORG;
      OneMorePending(s, r, id, i, org);
      hide PendingOf;
    }
  }

  lemma CreateKeeps(s: State, c: Call)
    requires Sound(s) && c.Create? && Fresh(s, c)
    ensures Sound(Apply(s, c).0)
  {
    SweepKeeps(s, c.org, c.now);
    SweptCountIsDirect(s, c.org, c.now);
    hide Sweep, Mirrored, Bounded, Capped, MembersInvited, CountPending, PendingOf, UnexpiredOf, Insert;
    if Apply(s, c).1 {
      InsertKeeps(Sweep(s, c.org, c.now), c.id, NewInvite(c));
    }
  }

  lemma SetStatusKeeps(s: State, id: InviteId, status: Status)
    requires Sound(s) && id in s.invites && s.invites[id].status == Pending && status != Pending
    ensures Sound(SetStatus(s, id, status))
  {
    var r := SetStatus(s, id, status);
    UpdateKeepsMirror(s, id, s.invites[id].(status := status));
    hide Mirrored;
    FewerPending(s, r);
    StillInvited(s, r);
  }

  lemma StepKeepsSound(s: State, c: Call)
    requires Sound(s) && Fresh(s, c)
    ensures Sound(Apply(s, c).0)
  {
    if c.Create? {
      hide Sound, Apply;
      CreateKeeps(s, c);
    } else if Apply(s, c).1 {
      var status := if c.Accept? then Accepted else if c.Decline? then Declined else Revoked;
      SetStatusKeeps(s, c.id, status);
      hide Mirrored, Bounded, Capped, MembersInvited, SetStatus;
      if c.Accept? {
        AcceptKeeps(s, c.id, c.caller.user, c.isMember);
      }
    }
  }

  // The accepted invite serves the new membership; it cannot have served another, for it was pending.
  lemma AcceptKeeps(s: State, id: InviteId, user: UserId, isMember: bool)
    requires Sound(s) && id in s.invites && s.invites[id].status == Pending
    requires s.invites[id].target.ByUser? ==> s.invites[id].target.user == user
    ensures var accepted := SetStatus(s, id, Accepted).(acceptedBy := s.acceptedBy[id := user]);
            && Sound(accepted)
            && (!isMember ==> Sound(accepted.(members := s.members + {(s.invites[id].org, user)})))
  {
    SetStatusKeeps(s, id, Accepted);
    var r := SetStatus(s, id, Accepted);
    var accepted := r.(acceptedBy := s.acceptedBy[id := user]);
    var joined := accepted.(members := s.members + {(s.invites[id].org, user)});
    assert r.invites == s.invites[id := s.invites[id].(status := Accepted)] && r.members == s.members;
    hide Mirrored, Bounded, SetStatus;
    FewerPending(r, accepted);
    FewerPending(r, joined);
    StillInvited(s, accepted);
    forall m | m in joined.members ensures exists i :: AcceptedFor(joined, i, m) {
      if m == (s.invites[id].org, user) {
        assert AcceptedFor(joined, id, m);
      } else {
        var i :| AcceptedFor(accepted, i, m);
        assert AcceptedFor(joined, i, m);
      }
    }
  }

  // Memberships keep their invites as long as accepted invites stay as they are.
  lemma StillInvited(s: State, r: State)
    requires MembersInvited(s) && r.members == s.members
    requires forall id :: id in AcceptedIds(s) ==> id in r.invites && r.invites[id] == s.invites[id]
    requires forall id :: id in AcceptedIds(s) && id in s.acceptedBy ==>
             id in r.acceptedBy && r.acceptedBy[id] == s.acceptedBy[id]
    ensures MembersInvited(r)
  {
    forall m | m in r.members ensures exists id :: AcceptedFor(r, id, m) {
      var id :| AcceptedFor(s, id, m);
      assert AcceptedFor(r, id, m);
    }
  }

  // Different memberships have different invites, so there are at least as many accepted invites.
  lemma {:induction false} MembersAreCounted(s: State, ms: set<(OrgId, UserId)>) returns (ids: set<InviteId>)
    requires MembersInvited(s) && ms <= s.members
    ensures ids <= AcceptedIds(s) && |ids| == |ms|
    ensures forall id :: id in ids ==> exists m :: m in ms && AcceptedFor(s, id, m)
    decreases ms
  {
    if ms == {} {
      ids := {};
    } else {
      var m :| m in ms;
      var id :| AcceptedFor(s, id, m);
      var rest := MembersAreCounted(s, ms - {m});
      hide AcceptedIds, MembersInvited;
      forall n | n in ms - {m} ensures !AcceptedFor(s, id, n) {
        assert n == (n.0, n.1) && m == (m.0, m.1);
      }
      assert ms == (ms - {m}) + {m};
      ids := rest + {id};
    }
  }

  // --- Runs ---

  ghost function Run(calls: seq<Call>): State {
    if calls == [] then EMPTY else Apply(Run(calls[..|calls| - 1]), calls[|calls| - 1]).0
  }

  ghost predicate FreshIds(calls: seq<Call>) {
    calls == [] || (FreshIds(calls[..|calls| - 1]) && Fresh(Run(calls[..|calls| - 1]), calls[|calls| - 1]))
  }

  // Over every run, whatever the clock says: both indexes mirror the map, no organisation stores more
  // than ten pending invites, and every membership has an invite to its organisation that its user
  // accepted.
  lemma {:induction false} RunKeepsSound(calls: seq<Call>)
    requires FreshIds(calls)
    ensures Sound(Run(calls))
  {
    if calls != [] {
      hide Sound, Apply, Fresh;
      RunKeepsSound(calls[..|calls| - 1]);
      StepKeepsSound(Run(calls[..|calls| - 1]), calls[|calls| - 1]);
    } else {
      assert Sound(EMPTY) by {
        forall org: OrgId ensures |PendingOf(EMPTY, org)| <= MAX_PENDING_PER_ORG {
          assert PendingOf(EMPTY, org) == {};
        }
      }
    }
  }

  // An invite that is no longer pending stays as it is.
  lemma DecidedStays(s: State, c: Call, id: InviteId)
    requires Mirrored(s) && Fresh(s, c) && id in s.invites && s.invites[id].status != Pending
    ensures id in Apply(s, c).0.invites && Apply(s, c).0.invites[id] == s.invites[id]
  {
    if c.Create? {
      SweptIs(s, c.org, c.now);
    }
    hide Mirrored, Sweep, CountPending;
  }

  lemma {:induction false} DecidedStaysForever(calls: seq<Call>, more: seq<Call>, id: InviteId)
    requires FreshIds(calls + more)
    requires id in Run(calls).invites && Run(calls).invites[id].status != Pending
    ensures id in Run(calls + more).invites && Run(calls + more).invites[id] == Run(calls).invites[id]
  {
    if more == [] {
      assert calls + more == calls;
    } else {
      var n := |more| - 1;
      assert (calls + more)[..|calls + more| - 1] == calls + more[..n];
      DecidedStaysForever(calls, more[..n], id);
      RunKeepsSound(calls + more[..n]);
      hide Apply;
      DecidedStays(Run(calls + more[..n]), more[n], id);
    }
  }
}

/** The invite store and the service on it. */
module InviteService {
  import opened Primitives
  import opened Invites

  class Service {
    var invites: map<InviteId, Invite>
    var organizationInviteIndex: set<OrgKey>
    var inviteStatusIndex: set<StatusKey>
    var members: set<(OrgId, UserId)>
    ghost var acceptedBy: map<InviteId, UserId>

    ghost function Current(): State
      reads this
    {
      State(invites, organizationInviteIndex, inviteStatusIndex, members, acceptedBy)
    }

    twostate predicate Did(c: Call, ok: bool)
      reads this
    {
      (Current(), ok) == Apply(old(Current()), c)
    }

    constructor ()
      ensures Current() == EMPTY
    {
      invites, organizationInviteIndex, inviteStatusIndex, members := map[], {}, {}, {};
      acceptedBy := map[];
    }

    method CreateInvite(i: Invite) returns (id: InviteId)
      modifies `invites, `organizationInviteIndex, `inviteStatusIndex
      ensures id !in old(invites) && Current() == Insert(old(Current()), id, i)
    {
      id := FreshId(invites.Keys);
      organizationInviteIndex := organizationInviteIndex + {OrgKeyOf(i, id)};
      inviteStatusIndex := inviteStatusIndex + {StatusKeyOf(i, id)};
      invites := invites[id := i];
    }

    method UpdateInvite(id: InviteId, i: Invite) returns (ok: bool)
      modifies `invites, `organizationInviteIndex, `inviteStatusIndex
      ensures ok <==> id in old(invites)
      ensures Current() == if ok then Update(old(Current()), id, i) else old(Current())
    {
      if id !in invites {
        return false;
      }
      var before := invites[id];
      organizationInviteIndex := organizationInviteIndex - {OrgKeyOf(before, id)};
      inviteStatusIndex := inviteStatusIndex - {StatusKeyOf(before, id)};
      organizationInviteIndex := organizationInviteIndex + {OrgKeyOf(i, id)};
      inviteStatusIndex := inviteStatusIndex + {StatusKeyOf(i, id)};
      invites := invites[id := i];
      ok := true;
    }

    method SweepExpiredOrgInvites(org: OrgId, now: Time)
      modifies `invites, `organizationInviteIndex, `inviteStatusIndex
      ensures Current() == Sweep(old(Current()), org, now)
    {
      var rest := PendingRange(organizationInviteIndex, org, 0, now);
      ghost var all, removed: set<OrgKey> := rest, {};
      assert Ids({}) == {} && StatusKeys({}) == {};
      while rest != {}
        invariant rest + removed == all
        invariant invites == old(invites) - Ids(removed)
        invariant organizationInviteIndex == old(organizationInviteIndex) - removed
        invariant inviteStatusIndex == old(inviteStatusIndex) - StatusKeys(removed)
        decreases rest
      {
        var k :| k in rest;
        assert Ids(removed + {k}) == Ids(removed) + {k.key.id} &&
          StatusKeys(removed + {k}) == StatusKeys(removed) + {k.key};
        rest, removed := rest - {k}, removed + {k};
        invites := invites - {k.key.id};
        organizationInviteIndex := organizationInviteIndex - {k};
        inviteStatusIndex := inviteStatusIndex - {k.key};
      }
      assert removed == all;
    }

    // The new id is an output, so the refusals are stated for every id.
    method CreateOrgInvite(org: OrgId, creator: UserId, authorized: bool, target: Target, alreadyMember: bool,
      now: Time)
      returns (r: Result<InviteId>)
      modifies `invites, `organizationInviteIndex, `inviteStatusIndex
      ensures r.Ok? ==> Did(Create(org, creator, authorized, target, alreadyMember, now, r.value), true)
      ensures r.Ok? ==> Fresh(old(Current()), Create(org, creator, authorized, target, alreadyMember, now, r.value))
      ensures r.Err? ==> forall id :: Did(Create(org, creator, authorized, target, alreadyMember, now, id), false)
    {
      if !authorized || (!target.ByEmail? && alreadyMember) {
        return Err;
      }
      hide Sweep;
      SweepExpiredOrgInvites(org, now);
      if |PendingRange(organizationInviteIndex, org, now, U64_MAX)| >= MAX_PENDING_PER_ORG {
        return Err;
      }
      var id := CreateInvite(Invite(org, creator, ExpiryAt(now), target, Pending));
      r := Ok(id);
    }

    method AcceptOrgInvite(caller: Caller, id: InviteId, now: Time, isMember: bool) returns (ok: bool)
      modifies this
      ensures Did(Accept(caller, id, now, isMember), ok)
    {
      if id !in invites || !Actionable(invites[id], caller, now) {
        return false;
      }
      var invite := invites[id];
      if !isMember {
        members := members + {(invite.org, caller.user)};
      }
      acceptedBy := acceptedBy[id := caller.user];
      ok := UpdateInvite(id, invite.(status := Accepted));
    }

    method DeclineOrgInvite(caller: Caller, id: InviteId, now: Time) returns (ok: bool)
      modifies `invites, `organizationInviteIndex, `inviteStatusIndex
      ensures Did(Decline(caller, id, now), ok)
    {
      if id !in invites || !Actionable(invites[id], caller, now) {
        return false;
      }
      ok := UpdateInvite(id, invites[id].(status := Declined));
    }

    method RevokeOrgInvite(user: UserId, isMember: bool, managesMembers: bool, id: InviteId) returns (ok: bool)
      modifies `invites, `organizationInviteIndex, `inviteStatusIndex
      ensures Did(Revoke(user, isMember, managesMembers, id), ok)
    {
      if id !in invites || !isMember || (invites[id].createdBy != user && !managesMembers) {
        return false;
      }
      if invites[id].status != Pending {
        return false;
      }
      ok := UpdateInvite(id, invites[id].(status := Revoked));
    }
  }
}
