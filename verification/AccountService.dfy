/** The account store and the services on it, one method for each message of `Accounts`. */
module AccountService {
  import opened Primitives
  import opened Accounts

  class Service {
    const rules: EmailRules
    const controllers: set<Principal>
    var profiles: Profiles
    var principalIndex: map<Principal, UserId>
    var idPrincipalIndex: set<(UserId, Principal)>
    var principalNames: map<(UserId, Principal), string>
    var verifiedEmailIndex: map<string, UserId>
    var stats: Stats
    var servicePermissions: map<Principal, StaffPermissions>
    var pendingLinkCodes: Codes
    ghost var history: seq<Event>

    ghost function Current(): Accounts
      reads this
    {
      Accounts(profiles, principalIndex, idPrincipalIndex, principalNames, verifiedEmailIndex, stats,
               servicePermissions, pendingLinkCodes, history)
    }

    // The state and the answer are those of `Apply`.
    twostate predicate Did(c: Call, ok: bool)
      reads this
    {
      (Current(), ok) == Apply(rules, controllers, old(Current()), c)
    }

    constructor (rules: EmailRules, controllers: set<Principal>)
      ensures this.rules == rules && this.controllers == controllers && Current() == EMPTY
    {
      this.rules, this.controllers := rules, controllers;
      profiles, principalIndex, idPrincipalIndex, principalNames := map[], map[], {}, map[];
      verifiedEmailIndex, stats, servicePermissions := map[], Stats(0, 0, 0), map[];
      pendingLinkCodes, history := map[], [];
    }

    function IsUnclaimed(p: Principal): bool
      reads `servicePermissions, `principalIndex
    {
      p !in servicePermissions && p !in principalIndex
    }

    // --- User profile repository ---

    method LinkPrincipalToUser(user: UserId, p: Principal) returns (ok: bool)
      modifies `principalIndex, `idPrincipalIndex
      ensures ok <==> user in profiles && p !in old(principalIndex)
      ensures Current() == if ok then LinkPrincipal(old(Current()), user, p) else old(Current())
    {
      if user !in profiles || p in principalIndex {
        return false;
      }
      principalIndex := principalIndex[p := user];
      idPrincipalIndex := idPrincipalIndex + {(user, p)};
      ok := true;
    }

    method UnlinkPrincipalFromUser(user: UserId, p: Principal) returns (ok: bool)
      modifies `principalIndex, `idPrincipalIndex, `principalNames
      ensures ok <==> old(MayUnlink(Current(), user, p))
      ensures Current() == if ok then UnlinkPrincipal(old(Current()), user, p) else old(Current())
    {
      if p !in principalIndex || principalIndex[p] != user {
        return false;
      }
      var mine := set l | l in idPrincipalIndex && l.0 == user;
      if |mine| <= 1 {
        return false;
      }
      principalIndex := principalIndex - {p};
      idPrincipalIndex := idPrincipalIndex - {(user, p)};
      principalNames := principalNames - {(user, p)};
      ok := true;
    }

    method ClaimVerifiedEmail(user: UserId, key: string) returns (ok: bool)
      modifies `verifiedEmailIndex
      ensures ok <==> (key in old(verifiedEmailIndex) ==> old(verifiedEmailIndex)[key] == user)
      ensures verifiedEmailIndex == if ok then old(verifiedEmailIndex)[key := user] else old(verifiedEmailIndex)
    {
      if key in verifiedEmailIndex {
        ok := verifiedEmailIndex[key] == user;
        assert ok ==> verifiedEmailIndex == verifiedEmailIndex[key := user];
      } else {
        verifiedEmailIndex := verifiedEmailIndex[key := user];
        ok := true;
      }
    }

    method ReleaseVerifiedEmail(user: UserId, email: string)
      modifies `verifiedEmailIndex
      ensures verifiedEmailIndex == ReleaseEmail(rules, old(verifiedEmailIndex), user, Some(email))
    {
      var key := KeyOf(rules, Some(email));
      if key.None? {
        return;
      }
      if key.value in verifiedEmailIndex && verifiedEmailIndex[key.value] == user {
        verifiedEmailIndex := verifiedEmailIndex - {key.value};
      }
    }

    method UpdateUserStatusCount(was: bool, active: bool)
      modifies `stats
      ensures stats == CountStatus(old(stats), was, active)
    {
      if was == active {
        return;
      }
      if active {
        stats := Stats(stats.total, stats.active + 1, stats.inactive - 1);
      } else {
        stats := Stats(stats.total, stats.active - 1, stats.inactive + 1);
      }
    }

    // First pass of the migration: group the verified users by address.
    method CollectClaimants() returns (claimants: map<string, set<UserId>>)
      ensures forall k :: k in claimants <==> Claimants(rules, profiles, k) != {}
      ensures forall k :: k in claimants ==> claimants[k] == Claimants(rules, profiles, k)
    {
      hide Claim;
      claimants := map[];
      var rest := profiles.Keys;
      while rest != {}
        invariant rest <= profiles.Keys
        invariant forall k :: k in claimants <==> Claimants(rules, profiles, k) - rest != {}
        invariant forall k :: k in claimants ==> claimants[k] == Claimants(rules, profiles, k) - rest
        decreases rest
      {
        var user :| user in rest;
        ghost var before := rest;
        rest := rest - {user};
        forall k ensures Claimants(rules, profiles, k) - rest ==
                         Claimants(rules, profiles, k) - before +
                         if Claim(rules, profiles[user]) == Some(k) then {user} else {} {
        }
        var claim := Claim(rules, profiles[user]);
        if claim.Some? {
          var others := if claim.value in claimants then claimants[claim.value] else {};
          claimants := claimants[claim.value := others + {user}];
        }
      }
    }

    method ResetVerified(users: set<UserId>)
      requires users <= profiles.Keys
      modifies `profiles
      ensures profiles ==
              map u | u in old(profiles) ::
                if u in users then old(profiles)[u].(verified := false) else old(profiles)[u]
    {
      var rest := users;
      while rest != {}
        invariant rest <= users
        invariant profiles == map u | u in old(profiles) ::
                    if u in users && u !in rest then old(profiles)[u].(verified := false) else old(profiles)[u]
        decreases rest
      {
        var user :| user in rest;
        rest := rest - {user};
        profiles := profiles[user := profiles[user].(verified := false)];
      }
    }

    // Second pass: index the addresses with one claimant, reset the users of the others.
    method MigrateVerifiedEmailIndex()
      modifies `profiles, `verifiedEmailIndex
      ensures profiles == MigratedProfiles(rules, old(profiles))
      ensures verifiedEmailIndex == MigratedEmails(rules, old(profiles), old(verifiedEmailIndex))
    {
      hide Claim, Claimants, MigratedEmails;
      ghost var before, index := profiles, verifiedEmailIndex;
      var claimants := CollectClaimants();
      var rest := claimants.Keys;
      while rest != {}
        invariant rest <= claimants.Keys
        invariant PartlyMigrated(rules, before, profiles, claimants.Keys - rest)
        invariant PartlyIndexed(rules, before, index, verifiedEmailIndex, claimants.Keys - rest)
        decreases rest
      {
        var key :| key in rest;
        ghost var done := claimants.Keys - rest;
        rest := rest - {key};
        assert claimants.Keys - rest == done + {key};
        ClaimantsExist(rules, before, key);
        if |claimants[key]| == 1 {
          var user :| user in claimants[key];
          SubsetSize({user}, claimants[key]);
          SoleStep(rules, before, profiles, index, verifiedEmailIndex, done, key, user);
          verifiedEmailIndex := verifiedEmailIndex[key := user];
        } else {
          SharedStep(rules, before, profiles, index, verifiedEmailIndex, done, key);
          ResetVerified(claimants[key]);
        }
      }
      assert claimants.Keys - rest == claimants.Keys;
      FullyMigrated(rules, before, profiles, index, verifiedEmailIndex, claimants.Keys);
    }

    // --- Profiles ---

    method CreateMyUserProfile(caller: Principal) returns (r: Result<UserId>)
      modifies this
      ensures r.Ok? ==>
              Fresh(old(Current()), CreateProfile(caller, r.value)) && Did(CreateProfile(caller, r.value), true)
      ensures r.Err? ==> forall user :: Did(CreateProfile(caller, user), false)
    {
      if caller == ANONYMOUS || !IsUnclaimed(caller) {
        return Err;
      }
      var user := FreshId(profiles.Keys);
      profiles := profiles[user := NEW_PROFILE];
      principalIndex := principalIndex[caller := user];
      idPrincipalIndex := idPrincipalIndex + {(user, caller)};
      stats := Stats(stats.total + 1, stats.active, stats.inactive + 1);
      r := Ok(user);
    }

    method UpdateMyUserProfile(caller: Principal, email: Option<string>) returns (ok: bool)
      modifies `profiles, `verifiedEmailIndex
      ensures Did(UpdateEmail(caller, email), ok)
    {
      if caller !in principalIndex || principalIndex[caller] !in profiles {
        return false;
      }
      var user := principalIndex[caller];
      if email.None? {
        assert profiles == profiles[user := profiles[user]];
        return true;
      }
      var parsed := ParseEmail(rules, email.value);
      if parsed.None? {
        return false;
      }
      var profile := profiles[user];
      var changed := profile.email != Some(parsed.value);
      if changed && profile.verified {
        if profile.email.Some? {
          ReleaseVerifiedEmail(user, profile.email.value);
        }
        profiles := profiles[user := profile.(email := parsed, verified := false)];
      } else {
        profiles := profiles[user := profile.(email := parsed)];
      }
      ok := true;
    }

    // The index is claimed before the flag is set, so a collision leaves the profile alone.
    method VerifyMyEmail(caller: Principal, claimed: string, purposeOk: bool) returns (ok: bool)
      modifies `profiles, `verifiedEmailIndex
      ensures Did(VerifyEmail(caller, claimed, purposeOk), ok)
    {
      if !purposeOk || caller !in principalIndex || principalIndex[caller] !in profiles {
        return false;
      }
      var user := principalIndex[caller];
      var profile := profiles[user];
      if profile.email.None? {
        return false;
      }
      var profileEmail, claimEmail := ParseEmail(rules, profile.email.value), ParseEmail(rules, claimed);
      if profileEmail.None? || claimEmail.None? || profileEmail.value != claimEmail.value {
        return false;
      }
      ok := ClaimVerifiedEmail(user, profileEmail.value);
      if ok {
        profiles := profiles[user := profile.(verified := true)];
      }
    }

    method UpdateUserProfile(user: UserId, status: Option<bool>) returns (ok: bool)
      modifies `profiles, `stats
      ensures Did(SetStatus(user, status), ok)
    {
      if user !in profiles {
        return false;
      }
      if status.Some? && profiles[user].active != status.value {
        UpdateUserStatusCount(profiles[user].active, status.value);
        profiles := profiles[user := profiles[user].(active := status.value)];
      } else {
        assert status.Some? ==> profiles == profiles[user := profiles[user].(active := status.value)];
      }
      ok := true;
    }

    method SetStaffPermissions(user: UserId, staff: Option<StaffPermissions>) returns (ok: bool)
      modifies `profiles
      ensures Did(SetStaff(user, staff), ok)
    {
      if staff == Some({}) || user !in profiles {
        return false;
      }
      profiles := profiles[user := profiles[user].(staff := staff)];
      ok := true;
    }

    // --- Link codes ---

    method RegisterLinkCode(caller: Principal, code: string, target: Principal, now: nat) returns (r: Result<nat>)
      modifies `pendingLinkCodes, `history
      ensures Did(RegisterCode(caller, code, target, now), r.Ok?)
      ensures r.Ok? ==> r.value == SaturatingAdd(now, LINK_CODE_TTL)
    {
      if caller !in principalIndex || !ValidCode(code) || target == ANONYMOUS {
        return Err;
      }
      var user := principalIndex[caller];
      var expires := SaturatingAdd(now, LINK_CODE_TTL);
      pendingLinkCodes := Live(pendingLinkCodes, now);
      pendingLinkCodes := pendingLinkCodes[user := LinkCode(code, target, expires)];
      history := history + [Registered(user, LinkCode(code, target, expires))];
      r := Ok(expires);
    }

    // The first match in ascending order of user ids.
    method FindCode(code: string) returns (user: Option<UserId>)
      ensures user == First(pendingLinkCodes, code)
    {
      user := None;
      var rest := pendingLinkCodes.Keys;
      while rest != {}
        invariant rest <= pendingLinkCodes.Keys
        invariant user.None? ==> forall u :: u in pendingLinkCodes && u !in rest ==> pendingLinkCodes[u].code != code
        invariant user.Some? ==>
                    && user.value in pendingLinkCodes && pendingLinkCodes[user.value].code == code
                    && forall u :: u in pendingLinkCodes && u !in rest && u < user.value ==>
                       pendingLinkCodes[u].code != code
        decreases rest
      {
        var u :| u in rest;
        rest := rest - {u};
        if pendingLinkCodes[u].code == code && (user.None? || u < user.value) {
          user := Some(u);
        }
      }
      if user.Some? {
        FirstIs(pendingLinkCodes, code, user.value);
      }
    }

    method LinkMyPrincipal(caller: Principal, code: string, now: nat) returns (ok: bool)
      modifies `pendingLinkCodes, `principalIndex, `idPrincipalIndex, `history
      ensures Did(LinkWithCode(caller, code, now), ok)
    {
      hide First, Live;
      if caller == ANONYMOUS {
        return false;
      }
      pendingLinkCodes := Live(pendingLinkCodes, now);
      var user := FindCode(code);
      if user.Some? {
        FirstIsPending(pendingLinkCodes, code);
      }
      if user.None? || pendingLinkCodes[user.value].target != caller {
        return false;
      }
      pendingLinkCodes := pendingLinkCodes - {user.value};
      if !IsUnclaimed(caller) {
        return false;
      }
      ok := LinkPrincipalToUser(user.value, caller);
      if ok {
        history := history + [Linked(user.value, code, caller, now)];
      }
    }

    method GetMyPendingLinkCode(caller: Principal, now: nat) returns (r: Result<Option<LinkCode>>)
      modifies `pendingLinkCodes
      ensures Did(ShowCode(caller, now), r.Ok?)
      ensures r.Ok? && r.value.Some? ==> r.value.value.expires > now
    {
      if caller !in principalIndex {
        return Err;
      }
      pendingLinkCodes := Live(pendingLinkCodes, now);
      var user := principalIndex[caller];
      r := Ok(if user in pendingLinkCodes then Some(pendingLinkCodes[user]) else None);
    }

    method RevokeMyLinkCode(caller: Principal) returns (ok: bool)
      modifies `pendingLinkCodes
      ensures Did(RevokeCode(caller), ok)
    {
      if caller !in principalIndex || principalIndex[caller] !in pendingLinkCodes {
        return false;
      }
      pendingLinkCodes := pendingLinkCodes - {principalIndex[caller]};
      ok := true;
    }

    // --- Principals ---

    method UnlinkMyPrincipal(caller: Principal, p: Principal) returns (ok: bool)
      modifies `principalIndex, `idPrincipalIndex, `principalNames
      ensures Did(Unlink(caller, p), ok)
    {
      if caller !in principalIndex {
        return false;
      }
      ok := UnlinkPrincipalFromUser(principalIndex[caller], p);
    }

    method SetMyPrincipalName(caller: Principal, p: Principal, name: Option<string>) returns (ok: bool)
      modifies `principalNames
      ensures Did(SetName(caller, p, name), ok)
    {
      if caller !in principalIndex || (principalIndex[caller], p) !in idPrincipalIndex {
        return false;
      }
      var key := (principalIndex[caller], p);
      match name {
        case Some(value) => principalNames := principalNames[key := value];
        case None => principalNames := principalNames - {key};
      }
      ok := true;
    }

    // What is stored; the history is not.
    function Stored(): Accounts
      reads this
    {
      Accounts(profiles, principalIndex, idPrincipalIndex, principalNames, verifiedEmailIndex, stats,
               servicePermissions, pendingLinkCodes, [])
    }

    method AdminLinkPrincipalToUser(caller: Principal, user: UserId, p: Principal) returns (ok: bool)
      modifies `principalIndex, `idPrincipalIndex
      ensures Did(AdminLink(caller, user, p), ok)
    {
      var own := CallerStaff(Stored(), controllers, caller);
      if ManageUsers !in own || !(StaffOf(Stored(), user) <= own) {
        return false;
      }
      if p == ANONYMOUS || !IsUnclaimed(p) {
        return false;
      }
      ok := LinkPrincipalToUser(user, p);
    }

    method AdminUnlinkPrincipalFromUser(caller: Principal, user: UserId, p: Principal) returns (ok: bool)
      modifies `principalIndex, `idPrincipalIndex, `principalNames
      ensures Did(AdminUnlink(caller, user, p), ok)
    {
      if ManageUsers !in CallerStaff(Stored(), controllers, caller) {
        return false;
      }
      ok := UnlinkPrincipalFromUser(user, p);
    }

    method RecoverWithClaims(caller: Principal, claimed: string, purposeOk: bool) returns (ok: bool)
      modifies `principalIndex, `idPrincipalIndex
      ensures Did(Recover(caller, claimed, purposeOk), ok)
    {
      if caller == ANONYMOUS || !purposeOk {
        return false;
      }
      var email := ParseEmail(rules, claimed);
      if email.None? || email.value !in verifiedEmailIndex || !IsUnclaimed(caller) {
        return false;
      }
      ok := LinkPrincipalToUser(verifiedEmailIndex[email.value], caller);
    }

    // --- Service principals ---

    method GrantServicePrincipal(p: Principal, permissions: StaffPermissions) returns (ok: bool)
      modifies `servicePermissions
      ensures Did(Grant(p, permissions), ok)
    {
      if p == ANONYMOUS || p in principalIndex || permissions == {} {
        return false;
      }
      servicePermissions := servicePermissions[p := permissions];
      ok := true;
    }

    method RevokeServicePrincipal(p: Principal) returns (ok: bool)
      modifies `servicePermissions
      ensures Did(Revoke(p), ok)
    {
      if p == ANONYMOUS {
        return false;
      }
      servicePermissions := servicePermissions - {p};
      ok := true;
    }

    // An upgrade loses the codes, which live on the heap, and runs the migration.
    method PostUpgrade()
      modifies `pendingLinkCodes, `profiles, `verifiedEmailIndex
      ensures Did(Upgrade, true)
    {
      pendingLinkCodes := map[];
      MigrateVerifiedEmailIndex();
    }
  }

  // --- The migration, address by address ---

  // Exactly the claimants of the addresses in `done` have their final profile.
  ghost predicate PartlyMigrated(e: EmailRules, before: Profiles, now: Profiles, done: set<string>) {
    && now.Keys == before.Keys
    && forall u :: u in before ==>
         now[u] ==
         if Claim(e, before[u]).Some? && Claim(e, before[u]).value in done then MigratedProfile(e, before, u)
         else before[u]
  }

  ghost predicate HasSole(e: EmailRules, before: Profiles, key: string) {
    exists u :: Sole(e, before, key, u)
  }

  ghost predicate PartlyIndexed(e: EmailRules, before: Profiles, index: map<string, UserId>, now: map<string, UserId>,
    done: set<string>) {
    && (forall k :: k in done && HasSole(e, before, k) ==> k in now && Sole(e, before, k, now[k]))
    && (forall k :: !(k in done && HasSole(e, before, k)) ==>
         (k in now <==> k in index) && (k in now ==> now[k] == index[k]))
  }

  lemma SoleStep(e: EmailRules, before: Profiles, profiles: Profiles, index: map<string, UserId>,
    emails: map<string, UserId>, done: set<string>, key: string, user: UserId)
    requires PartlyMigrated(e, before, profiles, done) && PartlyIndexed(e, before, index, emails, done)
    requires Claimants(e, before, key) == {user}
    ensures PartlyMigrated(e, before, profiles, done + {key})
    ensures PartlyIndexed(e, before, index, emails[key := user], done + {key})
  {
    assert Sole(e, before, key, user);
    forall u | u in before && Claim(e, before[u]) == Some(key) ensures MigratedProfile(e, before, u) == before[u] {
      assert u in Claimants(e, before, key);
    }
  }

  lemma SharedStep(e: EmailRules, before: Profiles, profiles: Profiles, index: map<string, UserId>,
    emails: map<string, UserId>, done: set<string>, key: string)
    requires PartlyMigrated(e, before, profiles, done) && PartlyIndexed(e, before, index, emails, done)
    requires key !in done && |Claimants(e, before, key)| != 1
    ensures var users := Claimants(e, before, key);
            var after := map u | u in profiles :: if u in users then profiles[u].(verified := false) else profiles[u];
            users <= profiles.Keys && PartlyMigrated(e, before, after, done + {key})
    ensures PartlyIndexed(e, before, index, emails, done + {key})
  {
    assert !HasSole(e, before, key);
    forall u | u in before && Claim(e, before[u]) == Some(key)
      ensures u in Claimants(e, before, key) && Claimants(e, before, key) != {u}
    {
    }
  }

  lemma ClaimantsExist(e: EmailRules, profiles: Profiles, key: string)
    ensures Claimants(e, profiles, key) <= profiles.Keys
  {
  }

  lemma FullyMigrated(e: EmailRules, before: Profiles, profiles: Profiles, index: map<string, UserId>,
    emails: map<string, UserId>, keys: set<string>)
    requires PartlyMigrated(e, before, profiles, keys) && PartlyIndexed(e, before, index, emails, keys)
    requires forall k :: k in keys <==> Claimants(e, before, k) != {}
    ensures profiles == MigratedProfiles(e, before) && emails == MigratedEmails(e, before, index)
  {
    forall u | u in before ensures profiles[u] == MigratedProfiles(e, before)[u] {
      var claim := Claim(e, before[u]);
      assert claim.Some? ==> u in Claimants(e, before, claim.value);
    }
    var after := MigratedEmails(e, before, index);
    hide MigratedEmails, Claim;
    forall k ensures (k in emails <==> k in after) && (k in emails ==> emails[k] == after[k]) {
      if HasSole(e, before, k) {
        assert k in keys;
        assert Sole(e, before, k, emails[k]) && Sole(e, before, k, after[k]);
        assert emails[k] in {after[k]};
      }
    }
  }
}
