/** What an accepted message does to every link, profile, claim and code, and what every claim rests on. */
module AccountEffects {
  import opened Primitives
  import opened Accounts

  ghost predicate Accepted(e: EmailRules, controllers: set<Principal>, s: Accounts, c: Call) {
    Apply(e, controllers, s, c).1
  }

  ghost function After(e: EmailRules, controllers: set<Principal>, s: Accounts, c: Call): Accounts {
    Apply(e, controllers, s, c).0
  }

  // The sender is a principal of the user.
  predicate SentBy(s: Accounts, caller: Principal, user: UserId) {
    caller in s.principals && s.principals[caller] == user
  }

  // --- Addresses ---

  // The message changes the stored address of the user.
  predicate ChangesAddress(e: EmailRules, s: Accounts, c: Call, user: UserId) {
    && c.UpdateEmail? && SentBy(s, c.caller, user) && c.email.Some?
    && user in s.profiles && ParseEmail(e, c.email.value) != s.profiles[user].email
  }

  // The message proves that the user receives mail at the address `k`.
  predicate Proves(e: EmailRules, s: Accounts, c: Call, user: UserId, k: string) {
    c.VerifyEmail? && SentBy(s, c.caller, user) && c.purposeOk && ParseEmail(e, c.claimed) == Some(k)
  }

  ghost predicate Claims(emails: map<string, UserId>, k: string, user: UserId) {
    k in emails && emails[k] == user
  }

  // An address belongs to whoever proved it, until they change their address.
  lemma ClaimIff(e: EmailRules, controllers: set<Principal>, s: Accounts, c: Call, k: string, user: UserId)
    requires EmailsExact(e, s.profiles, s.emails) && Proper(e)
    ensures Claims(After(e, controllers, s, c).emails, k, user) <==>
            || (Accepted(e, controllers, s, c) && Proves(e, s, c, user, k))
            || (Claims(s.emails, k, user) && !(Accepted(e, controllers, s, c) && ChangesAddress(e, s, c, user)))
  {
    hide EmailsExact, ApplyToCodes, ApplyToLinks, ApplyToProfile, Proper;
    if c.UpdateEmail? {
      AddressChanged(e, s, c, k, user);
    } else if c.VerifyEmail? {
      AddressProved(e, s, c, k, user);
    } else if IsProfileCall(c) {
      StatusFrame(e, s, c);
    } else if IsCodeCall(c) {
      CodeCallFrame(s, c);
    } else if IsLinkCall(c) {
      LinkCallFrame(e, controllers, s, c);
    } else if c.Upgrade? {
      MigrationChangesNothing(e, s.profiles, s.emails);
    }
  }

  lemma StatusFrame(e: EmailRules, s: Accounts, c: Call)
    requires c.CreateProfile? || c.SetStatus? || c.SetStaff?
    ensures ApplyToProfile(e, s, c).0.emails == s.emails
  {
    hide Unclaimed, CountStatus;
  }

  lemma AddressChanged(e: EmailRules, s: Accounts, c: Call, k: string, user: UserId)
    requires EmailsExact(e, s.profiles, s.emails) && c.UpdateEmail?
    ensures var (s', ok) := ApplyToProfile(e, s, c);
            Claims(s'.emails, k, user) <==> Claims(s.emails, k, user) && !(ok && ChangesAddress(e, s, c, user))
  {
    ClaimHolds(e, s, k, user);
    hide EmailsExact, ParseEmail;
    if c.caller in s.principals && s.principals[c.caller] in s.profiles {
      var sender := s.principals[c.caller];
      var key := KeyOf(e, s.profiles[sender].email);
      if key.Some? {
        ClaimHeld(e, s, key.value, sender);
      }
    }
  }

  lemma ClaimHolds(e: EmailRules, s: Accounts, k: string, user: UserId)
    requires EmailsExact(e, s.profiles, s.emails)
    ensures Claims(s.emails, k, user) ==> user in s.profiles && Claim(e, s.profiles[user]) == Some(k)
  {
  }

  lemma ClaimHeld(e: EmailRules, s: Accounts, k: string, user: UserId)
    requires EmailsExact(e, s.profiles, s.emails)
    ensures user in s.profiles && Claim(e, s.profiles[user]) == Some(k) ==> Claims(s.emails, k, user)
  {
  }

  lemma AddressProved(e: EmailRules, s: Accounts, c: Call, k: string, user: UserId)
    requires EmailsExact(e, s.profiles, s.emails) && c.VerifyEmail?
    ensures var (s', ok) := ApplyToProfile(e, s, c);
            Claims(s'.emails, k, user) <==> Claims(s.emails, k, user) || (ok && Proves(e, s, c, user, k))
  {
    hide EmailsExact, ParseEmail;
  }

  // A proof is accepted exactly when it is for the stored address and nobody else holds that.
  lemma ProofAcceptedIff(e: EmailRules, controllers: set<Principal>, s: Accounts, c: Call, user: UserId)
    requires StatePrincipalsSound(s) && c.VerifyEmail? && SentBy(s, c.caller, user)
    ensures Accepted(e, controllers, s, c) <==>
            && c.purposeOk && s.profiles[user].email.Some?
            && exists k ::
                 && ParseEmail(e, s.profiles[user].email.value) == Some(k) && ParseEmail(e, c.claimed) == Some(k)
                 && forall other :: Claims(s.emails, k, other) ==> other == user
    ensures Accepted(e, controllers, s, c) ==>
              After(e, controllers, s, c).profiles == s.profiles[user := s.profiles[user].(verified := true)]
  {
    assert user in s.profiles;
    hide StatePrincipalsSound, ParseEmail;
    var email := s.profiles[user].email;
    if email.Some? && ParseEmail(e, email.value).Some? && ParseEmail(e, c.claimed) == ParseEmail(e, email.value) {
      var k := ParseEmail(e, email.value).value;
      if k in s.emails {
        assert Claims(s.emails, k, s.emails[k]);
      }
    }
  }

  // --- Links ---

  // The message links the principal to the user, and on whose word.
  ghost predicate Attaches(e: EmailRules, s: Accounts, c: Call, user: UserId, p: Principal) {
    || (c.CreateProfile? && c.user == user && c.caller == p)
    || (c.AdminLink? && c.user == user && c.principal == p)
    || (c.Recover? && c.caller == p && exists k :: ParseEmail(e, c.claimed) == Some(k) && Claims(s.emails, k, user))
    || (c.LinkWithCode? && c.caller == p && First(Live(s.codes, c.now), c.code) == Some(user))
  }

  predicate Detaches(s: Accounts, c: Call, user: UserId, p: Principal) {
    || (c.Unlink? && SentBy(s, c.caller, user) && c.principal == p)
    || (c.AdminUnlink? && c.user == user && c.principal == p)
  }

  // In both indexes: a principal belongs to the user it was linked to, until it is unlinked.
  lemma LinkedIff(e: EmailRules, controllers: set<Principal>, s: Accounts, c: Call, user: UserId, p: Principal)
    requires StatePrincipalsSound(s)
    ensures var s' := After(e, controllers, s, c);
            && ((user, p) in s'.links <==>
                  || (Accepted(e, controllers, s, c) && Attaches(e, s, c, user, p))
                  || ((user, p) in s.links && !(Accepted(e, controllers, s, c) && Detaches(s, c, user, p))))
            && (SentBy(s', p, user) <==> (user, p) in s'.links)
  {
    hide StatePrincipalsSound, ApplyToCodes, ApplyToLinks, ApplyToProfile, First, Live;
    StepKeepsPrincipals(e, controllers, s, c);
    Inverse(After(e, controllers, s, c), user, p);
    if IsProfileCall(c) {
      ProfileLinks(e, s, c, user, p);
    } else if IsCodeCall(c) {
      CodeLinks(s, c, user, p);
    } else if IsLinkCall(c) {
      MessageLinks(e, controllers, s, c, user, p);
    }
  }

  lemma Inverse(s: Accounts, user: UserId, p: Principal)
    requires StatePrincipalsSound(s)
    ensures SentBy(s, p, user) <==> (user, p) in s.links
  {
  }

  lemma ProfileLinks(e: EmailRules, s: Accounts, c: Call, user: UserId, p: Principal)
    requires IsProfileCall(c)
    ensures var (s', ok) := ApplyToProfile(e, s, c);
            (user, p) in s'.links <==>
            (user, p) in s.links || (ok && c.CreateProfile? && c.user == user && c.caller == p)
  {
    hide ParseEmail, ReleaseEmail, CountStatus, Unclaimed;
  }

  lemma CodeLinks(s: Accounts, c: Call, user: UserId, p: Principal)
    requires IsCodeCall(c)
    ensures var (s', ok) := ApplyToCodes(s, c);
            (user, p) in s'.links <==>
            || (user, p) in s.links
            || (ok && c.LinkWithCode? && c.caller == p && First(Live(s.codes, c.now), c.code) == Some(user))
  {
    hide First, Live, Unclaimed, ValidCode;
  }

  lemma MessageLinks(
    e: EmailRules, controllers: set<Principal>, s: Accounts, c: Call, user: UserId, p: Principal)
    requires IsLinkCall(c)
    ensures var (s', ok) := ApplyToLinks(e, controllers, s, c);
            (user, p) in s'.links <==>
            || (ok && (c.AdminLink? || c.Recover?) && Attaches(e, s, c, user, p))
            || ((user, p) in s.links && !(ok && Detaches(s, c, user, p)))
  {
    hide ParseEmail, CallerStaff, StaffOf, Unclaimed, LinksOf;
  }

  // --- Profiles ---

  // The profile after a message: a new one is empty and inactive; an existing one changes exactly where
  // an accepted message for it says so.
  ghost predicate ProfileFollows(e: EmailRules, s: Accounts, c: Call, ok: bool, user: UserId, p: Profile, p': Profile) {
    && p'.email == (if ok && ChangesAddress(e, s, c, user) then ParseEmail(e, c.email.value) else p.email)
    && p'.verified ==
       (if ok && ChangesAddress(e, s, c, user) then false
        else p.verified || (ok && c.VerifyEmail? && SentBy(s, c.caller, user)))
    && p'.active == (if ok && c.SetStatus? && c.user == user && c.status.Some? then c.status.value else p.active)
    && p'.staff == (if ok && c.SetStaff? && c.user == user then c.staff else p.staff)
  }

  lemma ProfileIs(e: EmailRules, controllers: set<Principal>, s: Accounts, c: Call, user: UserId)
    requires EmailsExact(e, s.profiles, s.emails) && Fresh(s, c)
    ensures var s', ok := After(e, controllers, s, c), Accepted(e, controllers, s, c);
            && (user in s'.profiles <==> user in s.profiles || (ok && c.CreateProfile? && c.user == user))
            && (user in s'.profiles ==>
                  ProfileFollows(e, s, c, ok, user, if user in s.profiles then s.profiles[user] else NEW_PROFILE,
                                 s'.profiles[user]))
  {
    hide EmailsExact, ApplyToCodes, ApplyToLinks, ApplyToProfile;
    if IsProfileCall(c) {
      ProfileWritten(e, s, c, user);
    } else if IsCodeCall(c) {
      CodeCallFrame(s, c);
    } else if IsLinkCall(c) {
      LinkCallFrame(e, controllers, s, c);
    } else if c.Upgrade? {
      MigrationChangesNothing(e, s.profiles, s.emails);
    }
  }

  lemma ProfileWritten(e: EmailRules, s: Accounts, c: Call, user: UserId)
    requires IsProfileCall(c) && Fresh(s, c)
    ensures var (s', ok) := ApplyToProfile(e, s, c);
            && (user in s'.profiles <==> user in s.profiles || (ok && c.CreateProfile? && c.user == user))
            && (user in s'.profiles ==>
                  ProfileFollows(e, s, c, ok, user, if user in s.profiles then s.profiles[user] else NEW_PROFILE,
                                 s'.profiles[user]))
  {
    hide ParseEmail, ReleaseEmail, CountStatus, Unclaimed;
  }

  // --- Names and service principals ---

  function Lookup<K, V>(m: map<K, V>, k: K): Option<V> {
    if k in m then Some(m[k]) else None
  }

  // A name is the last one given to the link, until it is cleared or the principal is unlinked.
  lemma NameIs(e: EmailRules, controllers: set<Principal>, s: Accounts, c: Call, user: UserId, p: Principal)
    ensures var s', ok := After(e, controllers, s, c), Accepted(e, controllers, s, c);
            Lookup(s'.names, (user, p)) ==
            if ok && c.SetName? && SentBy(s, c.caller, user) && c.principal == p then c.name
            else if ok && Detaches(s, c, user, p) then None
            else Lookup(s.names, (user, p))
  {
    hide ApplyToCodes, ApplyToLinks, ApplyToProfile;
    if IsProfileCall(c) {
      NamesKept(e, s, c);
    } else if IsCodeCall(c) {
      NamesKeptByCodes(s, c);
    } else if IsLinkCall(c) {
      NameWritten(e, controllers, s, c, user, p);
    }
  }

  lemma NamesKept(e: EmailRules, s: Accounts, c: Call)
    requires IsProfileCall(c)
    ensures ApplyToProfile(e, s, c).0.names == s.names && ApplyToProfile(e, s, c).0.services == s.services
  {
    hide ParseEmail, ReleaseEmail, CountStatus, Unclaimed;
  }

  lemma NamesKeptByCodes(s: Accounts, c: Call)
    requires IsCodeCall(c)
    ensures ApplyToCodes(s, c).0.names == s.names
  {
    hide First, Live, Unclaimed, ValidCode;
  }

  lemma NameWritten(
    e: EmailRules, controllers: set<Principal>, s: Accounts, c: Call, user: UserId, p: Principal)
    requires IsLinkCall(c)
    ensures var (s', ok) := ApplyToLinks(e, controllers, s, c);
            Lookup(s'.names, (user, p)) ==
            if ok && c.SetName? && SentBy(s, c.caller, user) && c.principal == p then c.name
            else if ok && Detaches(s, c, user, p) then None
            else Lookup(s.names, (user, p))
    ensures ApplyToLinks(e, controllers, s, c).0.services == s.services
  {
    hide ParseEmail, CallerStaff, StaffOf, Unclaimed, LinksOf;
  }

  // A service principal holds what it was last granted, until it is revoked.
  lemma ServiceIs(e: EmailRules, controllers: set<Principal>, s: Accounts, c: Call, p: Principal)
    ensures var s', ok := After(e, controllers, s, c), Accepted(e, controllers, s, c);
            Lookup(s'.services, p) ==
            if ok && c.Grant? && c.principal == p then Some(c.permissions)
            else if ok && c.Revoke? && c.principal == p then None
            else Lookup(s.services, p)
  {
    hide ApplyToCodes, ApplyToLinks, ApplyToProfile;
    if IsProfileCall(c) {
      NamesKept(e, s, c);
    } else if IsCodeCall(c) {
      CodeCallFrame(s, c);
    } else if IsLinkCall(c) {
      NameWritten(e, controllers, s, c, 0, 0);
    }
  }

  // --- Link codes ---

  // The message registers a code for the user.
  predicate Registers(s: Accounts, c: Call, user: UserId) {
    c.RegisterCode? && SentBy(s, c.caller, user)
  }

  // The message presents the code of the user as its target, or ends it otherwise.
  ghost predicate Spends(s: Accounts, c: Call, user: UserId) {
    && c.LinkWithCode? && c.caller != ANONYMOUS && First(Live(s.codes, c.now), c.code) == Some(user)
    && user in s.codes && s.codes[user].target == c.caller
  }

  ghost predicate Drops(s: Accounts, c: Call, ok: bool, user: UserId) {
    || Spends(s, c, user) || c.Upgrade? || (ok && c.RevokeCode? && SentBy(s, c.caller, user))
    || (&& user in s.codes && (ok || c.LinkWithCode?) && (c.RegisterCode? || c.ShowCode? || c.LinkWithCode?)
        && (c.LinkWithCode? ==> c.caller != ANONYMOUS) && s.codes[user].expires <= c.now)
  }

  // A pending code is the one its user registered last; it is gone once it is presented by its target,
  // even if that is refused, once it is revoked, seen to be expired, or the canister is upgraded.
  lemma CodeIs(e: EmailRules, controllers: set<Principal>, s: Accounts, c: Call, user: UserId)
    ensures var s', ok := After(e, controllers, s, c), Accepted(e, controllers, s, c);
            Lookup(s'.codes, user) ==
            if ok && Registers(s, c, user) then
              Some(LinkCode(c.code, c.target, SaturatingAdd(c.now, LINK_CODE_TTL)))
            else if Drops(s, c, ok, user) then None
            else Lookup(s.codes, user)
  {
    hide ApplyToCodes, ApplyToLinks, ApplyToProfile, First, Live;
    if IsProfileCall(c) {
      ProfileCallFrame(e, s, c);
    } else if IsCodeCall(c) {
      CodeWritten(s, c, user);
    } else if IsLinkCall(c) {
      LinkCallFrame(e, controllers, s, c);
    }
  }

  lemma CodeWritten(s: Accounts, c: Call, user: UserId)
    requires IsCodeCall(c)
    ensures var (s', ok) := ApplyToCodes(s, c);
            Lookup(s'.codes, user) ==
            if ok && Registers(s, c, user) then
              Some(LinkCode(c.code, c.target, SaturatingAdd(c.now, LINK_CODE_TTL)))
            else if Drops(s, c, ok, user) then None
            else Lookup(s.codes, user)
  {
    hide First, Unclaimed, ValidCode;
    if c.LinkWithCode? && First(Live(s.codes, c.now), c.code).Some? {
      FirstIsPending(Live(s.codes, c.now), c.code);
    }
  }

  // --- When a message is accepted ---

  ghost predicate Linked(s: Accounts, user: UserId, p: Principal) {
    (user, p) in s.links
  }

  // The principal belongs to nobody: no user, no service, and it is somebody.
  ghost predicate Free(s: Accounts, p: Principal) {
    p != ANONYMOUS && p !in s.services && forall user :: !Linked(s, user, p)
  }

  ghost predicate LinkedBesides(s: Accounts, user: UserId, p: Principal) {
    Linked(s, user, p) && exists q :: q != p && Linked(s, user, q)
  }

  ghost predicate Allowed(e: EmailRules, controllers: set<Principal>, s: Accounts, c: Call) {
    match c
    case CreateProfile(caller, _) => Free(s, caller)
    case UpdateEmail(caller, email) =>
      (exists user :: Linked(s, user, caller)) && (email.Some? ==> ParseEmail(e, email.value).Some?)
    case VerifyEmail(caller, claimed, purposeOk) =>
      && purposeOk
      && exists user, k ::
           && Linked(s, user, caller) && user in s.profiles && s.profiles[user].email.Some?
           && ParseEmail(e, s.profiles[user].email.value) == Some(k) && ParseEmail(e, claimed) == Some(k)
           && forall other :: Claims(s.emails, k, other) ==> other == user
    case SetStatus(user, _) => user in s.profiles
    case SetStaff(user, staff) => user in s.profiles && staff != Some({})
    case RegisterCode(caller, code, target, _) =>
      (exists user :: Linked(s, user, caller)) && ValidCode(code) && target != ANONYMOUS
    case LinkWithCode(caller, code, now) => Free(s, caller) && exists user :: Redeemable(s, user, caller, code, now)
    case ShowCode(caller, _) => exists user :: Linked(s, user, caller)
    case RevokeCode(caller) => exists user :: Linked(s, user, caller) && user in s.codes
    case Unlink(caller, p) => exists user :: Linked(s, user, caller) && LinkedBesides(s, user, p)
    case SetName(caller, p, _) => exists user :: Linked(s, user, caller) && Linked(s, user, p)
    case AdminLink(caller, user, p) =>
      && ManageUsers in CallerStaff(s, controllers, caller) && StaffOf(s, user) <= CallerStaff(s, controllers, caller)
      && user in s.profiles && Free(s, p)
    case AdminUnlink(caller, user, p) =>
      ManageUsers in CallerStaff(s, controllers, caller) && LinkedBesides(s, user, p)
    case Recover(caller, claimed, purposeOk) =>
      && purposeOk && Free(s, caller)
      && exists user, k :: ParseEmail(e, claimed) == Some(k) && Claims(s.emails, k, user)
    case Grant(p, permissions) => p != ANONYMOUS && permissions != {} && forall user :: !Linked(s, user, p)
    case Revoke(p) => p != ANONYMOUS
    case Upgrade => true
  }

  // The user's pending code is this one, bound to the caller and not expired, and no user with a smaller
  // id has the same one.
  ghost predicate Redeemable(s: Accounts, user: UserId, caller: Principal, code: string, now: nat) {
    && user in s.codes && s.codes[user].code == code && s.codes[user].target == caller && now < s.codes[user].expires
    && forall u :: u in s.codes && u < user ==> s.codes[u].code != code || s.codes[u].expires <= now
  }

  // A message is accepted exactly when it is allowed.
  lemma AcceptedIff(e: EmailRules, controllers: set<Principal>, s: Accounts, c: Call)
    requires Sound(e, s)
    ensures Accepted(e, controllers, s, c) <==> Allowed(e, controllers, s, c)
  {
    hide Sound, ApplyToCodes, ApplyToLinks, ApplyToProfile, Allowed;
    Parts(e, s);
    if IsProfileCall(c) {
      ProfileAccepted(e, controllers, s, c);
    } else if IsCodeCall(c) {
      CodeAccepted(e, controllers, s, c);
    } else if IsLinkCall(c) {
      LinkAccepted(e, controllers, s, c);
    } else {
      OtherAccepted(e, controllers, s, c);
    }
  }

  lemma Parts(e: EmailRules, s: Accounts)
    requires Sound(e, s)
    ensures StatePrincipalsSound(s) && EmailsExact(e, s.profiles, s.emails)
    ensures forall u :: u in s.codes ==> u in s.profiles
  {
  }

  // The caller's user is the one it is linked to.
  lemma SenderIff(s: Accounts, p: Principal)
    requires StatePrincipalsSound(s)
    ensures p in s.principals <==> exists user :: Linked(s, user, p)
    ensures forall user :: Linked(s, user, p) <==> SentBy(s, p, user)
    ensures p in s.principals ==> s.principals[p] in s.profiles
    ensures Free(s, p) <==> p != ANONYMOUS && Unclaimed(s, p)
  {
    forall user ensures Linked(s, user, p) <==> SentBy(s, p, user) {
      Inverse(s, user, p);
    }
    if p in s.principals {
      assert Linked(s, s.principals[p], p);
    }
  }

  lemma ProfileAccepted(e: EmailRules, controllers: set<Principal>, s: Accounts, c: Call)
    requires StatePrincipalsSound(s) && IsProfileCall(c)
    ensures ApplyToProfile(e, s, c).1 <==> Allowed(e, controllers, s, c)
  {
    hide StatePrincipalsSound, ParseEmail, ReleaseEmail, CountStatus, Unclaimed, Free, Linked;
    if c.CreateProfile? || c.UpdateEmail? {
      SenderIff(s, c.caller);
    } else if c.VerifyEmail? {
      SenderIff(s, c.caller);
      ProofAllowed(e, controllers, s, c);
    }
  }

  lemma ProofAllowed(e: EmailRules, controllers: set<Principal>, s: Accounts, c: Call)
    requires StatePrincipalsSound(s) && c.VerifyEmail?
    ensures ApplyToProfile(e, s, c).1 <==> Allowed(e, controllers, s, c)
  {
    hide StatePrincipalsSound, ParseEmail, Linked;
    SenderIff(s, c.caller);
    if c.caller in s.principals {
      ProofAcceptedIff(e, controllers, s, c, s.principals[c.caller]);
    }
  }

  lemma CodeAccepted(e: EmailRules, controllers: set<Principal>, s: Accounts, c: Call)
    requires StatePrincipalsSound(s) && IsCodeCall(c)
    requires forall u :: u in s.codes ==> u in s.profiles
    ensures ApplyToCodes(s, c).1 <==> Allowed(e, controllers, s, c)
  {
    hide StatePrincipalsSound, First, Live, Unclaimed, ValidCode, Free, Linked, Redeemable;
    SenderIff(s, c.caller);
    if c.LinkWithCode? {
      RedeemedIff(s, c.caller, c.code, c.now);
    }
  }

  lemma RedeemedIff(s: Accounts, caller: Principal, code: string, now: nat)
    requires forall u :: u in s.codes ==> u in s.profiles
    ensures Redeem(s, caller, code, now).1 <==>
            Unclaimed(s, caller) && exists user :: Redeemable(s, user, caller, code, now)
  {
    hide First, IsFirst;
    var live := Live(s.codes, now);
    if First(live, code).Some? {
      var first := First(live, code).value;
      FirstIsPending(live, code);
      assert first in live && live[first].code == code by { FirstHasCode(live, code, first); }
      FirstIff(s.codes, first, now);
    }
    if user: UserId :| Redeemable(s, user, caller, code, now) {
      FirstIff(s.codes, user, now);
      FirstIs(live, code, user);
    }
    if Redeem(s, caller, code, now).1 {
      assert Redeemable(s, First(live, code).value, caller, code, now);
    }
  }

  lemma FirstHasCode(codes: Codes, code: string, user: UserId)
    requires IsFirst(codes, code, user)
    ensures user in codes && codes[user].code == code
  {
  }

  lemma LinkAccepted(e: EmailRules, controllers: set<Principal>, s: Accounts, c: Call)
    requires StatePrincipalsSound(s) && EmailsExact(e, s.profiles, s.emails) && IsLinkCall(c)
    ensures ApplyToLinks(e, controllers, s, c).1 <==> Allowed(e, controllers, s, c)
  {
    hide StatePrincipalsSound, EmailsExact, ParseEmail, CallerStaff, StaffOf, Unclaimed, MayUnlink, Free, LinkedBesides;
    match c
    case Unlink(caller, p) =>
      SenderIff(s, caller);
      if caller in s.principals {
        UnlinkableIff(s, s.principals[caller], p);
      }
    case SetName(caller, p, _) =>
      SenderIff(s, caller);
    case AdminLink(caller, user, p) =>
      SenderIff(s, p);
    case AdminUnlink(caller, user, p) =>
      UnlinkableIff(s, user, p);
    case Recover(caller, claimed, purposeOk) =>
      SenderIff(s, caller);
      if ParseEmail(e, claimed).Some? && ParseEmail(e, claimed).value in s.emails {
        var k := ParseEmail(e, claimed).value;
        ClaimHolds(e, s, k, s.emails[k]);
        assert Claims(s.emails, k, s.emails[k]);
      }
  }

  lemma UnlinkableIff(s: Accounts, user: UserId, p: Principal)
    requires StatePrincipalsSound(s)
    ensures MayUnlink(s, user, p) <==> LinkedBesides(s, user, p)
  {
    Inverse(s, user, p);
    hide StatePrincipalsSound;
    var mine := LinksOf(s, user);
    if (user, p) in s.links {
      assert (user, p) in mine;
      if q: Principal :| q != p && Linked(s, user, q) {
        assert {(user, p), (user, q)} <= mine;
        SubsetSize({(user, p), (user, q)}, mine);
      } else {
        assert forall l :: l in mine ==> l == (l.0, l.1) && Linked(s, user, l.1);
        assert mine == {(user, p)};
      }
    }
  }

  lemma OtherAccepted(e: EmailRules, controllers: set<Principal>, s: Accounts, c: Call)
    requires StatePrincipalsSound(s) && (c.Grant? || c.Revoke? || c.Upgrade?)
    ensures Accepted(e, controllers, s, c) <==> Allowed(e, controllers, s, c)
  {
    hide StatePrincipalsSound, Free;
    if c.Grant? {
      SenderIff(s, c.principal);
    }
  }

  // --- Over whole runs ---

  ghost predicate AcceptedAt(e: EmailRules, controllers: set<Principal>, calls: seq<Call>, i: nat)
    requires i < |calls|
  {
    Accepted(e, controllers, Run(e, controllers, calls[..i]), calls[i])
  }

  // Which messages of a run prove an address for the user, and which change the user's address.
  ghost function ProvesAt(
    e: EmailRules, controllers: set<Principal>, calls: seq<Call>, user: UserId, k: string): seq<bool>
  {
    seq(|calls|, i requires 0 <= i < |calls| =>
      AcceptedAt(e, controllers, calls, i) && Proves(e, Run(e, controllers, calls[..i]), calls[i], user, k))
  }

  ghost function ChangesAt(e: EmailRules, controllers: set<Principal>, calls: seq<Call>, user: UserId): seq<bool> {
    seq(|calls|, i requires 0 <= i < |calls| =>
      AcceptedAt(e, controllers, calls, i) && ChangesAddress(e, Run(e, controllers, calls[..i]), calls[i], user))
  }

  lemma ProofStep(e: EmailRules, controllers: set<Principal>, calls: seq<Call>, user: UserId, k: string)
    requires calls != []
    ensures var n := |calls| - 1;
            var s, accepted := Run(e, controllers, calls[..n]), AcceptedAt(e, controllers, calls, n);
            && ProvesAt(e, controllers, calls, user, k) ==
               ProvesAt(e, controllers, calls[..n], user, k) + [accepted && Proves(e, s, calls[n], user, k)]
            && ChangesAt(e, controllers, calls, user) ==
               ChangesAt(e, controllers, calls[..n], user) + [accepted && ChangesAddress(e, s, calls[n], user)]
  {
    hide Accepted, Run, Proves, ChangesAddress;
    var n := |calls| - 1;
    assert forall i :: 0 <= i < n ==> calls[..n][i] == calls[i] && calls[..n][..i] == calls[..i];
  }

  // In every reachable state an address belongs to a user exactly when one of the user's principals
  // proved it and the user has not changed their address since.
  lemma {:induction false} ClaimsAreProved(
    e: EmailRules, controllers: set<Principal>, calls: seq<Call>, user: UserId, k: string)
    requires Proper(e) && FreshIds(e, controllers, calls)
    ensures Claims(Run(e, controllers, calls).emails, k, user) <==>
            Standing(ProvesAt(e, controllers, calls, user, k), ChangesAt(e, controllers, calls, user))
  {
    hide Accepted, Sound, Proves, ChangesAddress, Standing, Proper, Apply, Fresh;
    if calls != [] {
      var n := |calls| - 1;
      var init, c := calls[..n], calls[n];
      var s := Run(e, controllers, init);
      ClaimsAreProved(e, controllers, init, user, k);
      RunKeepsSound(e, controllers, init);
      Parts(e, s);
      ClaimIff(e, controllers, s, c, k, user);
      ProofStep(e, controllers, calls, user, k);
      var accepted := Accepted(e, controllers, s, c);
      StandingStep(ProvesAt(e, controllers, init, user, k), ChangesAt(e, controllers, init, user),
                   accepted && Proves(e, s, c, user, k), accepted && ChangesAddress(e, s, c, user));
    } else {
      NothingStands();
      assert ProvesAt(e, controllers, calls, user, k) == [] && ChangesAt(e, controllers, calls, user) == [];
    }
  }

  // The messages by which a principal comes to a user, and by which it leaves.
  ghost function AttachesAt(
    e: EmailRules, controllers: set<Principal>, calls: seq<Call>, user: UserId, p: Principal): seq<bool>
  {
    seq(|calls|, i requires 0 <= i < |calls| =>
      AcceptedAt(e, controllers, calls, i) && Attaches(e, Run(e, controllers, calls[..i]), calls[i], user, p))
  }

  ghost function DetachesAt(
    e: EmailRules, controllers: set<Principal>, calls: seq<Call>, user: UserId, p: Principal): seq<bool>
  {
    seq(|calls|, i requires 0 <= i < |calls| =>
      AcceptedAt(e, controllers, calls, i) && Detaches(Run(e, controllers, calls[..i]), calls[i], user, p))
  }

  lemma AttachStep(e: EmailRules, controllers: set<Principal>, calls: seq<Call>, user: UserId, p: Principal)
    requires calls != []
    ensures var n := |calls| - 1;
            var s, accepted := Run(e, controllers, calls[..n]), AcceptedAt(e, controllers, calls, n);
            && AttachesAt(e, controllers, calls, user, p) ==
               AttachesAt(e, controllers, calls[..n], user, p) + [accepted && Attaches(e, s, calls[n], user, p)]
            && DetachesAt(e, controllers, calls, user, p) ==
               DetachesAt(e, controllers, calls[..n], user, p) + [accepted && Detaches(s, calls[n], user, p)]
  {
    hide Accepted, Run, Attaches, Detaches;
    var n := |calls| - 1;
    assert forall i :: 0 <= i < n ==> calls[..n][i] == calls[i] && calls[..n][..i] == calls[..i];
  }

  // In every reachable state the principals of a user are exactly those that an accepted message attached
  // and no later one detached.
  lemma {:induction false} LinksAreHistory(
    e: EmailRules, controllers: set<Principal>, calls: seq<Call>, user: UserId, p: Principal)
    requires Proper(e) && FreshIds(e, controllers, calls)
    ensures (user, p) in Run(e, controllers, calls).links <==>
            Standing(AttachesAt(e, controllers, calls, user, p), DetachesAt(e, controllers, calls, user, p))
  {
    hide Accepted, Sound, Attaches, Detaches, Standing, Proper, Apply, Fresh;
    if calls != [] {
      var n := |calls| - 1;
      var init, c := calls[..n], calls[n];
      var s := Run(e, controllers, init);
      LinksAreHistory(e, controllers, init, user, p);
      RunKeepsSound(e, controllers, init);
      Parts(e, s);
      LinkedIff(e, controllers, s, c, user, p);
      AttachStep(e, controllers, calls, user, p);
      var accepted := Accepted(e, controllers, s, c);
      StandingStep(AttachesAt(e, controllers, init, user, p), DetachesAt(e, controllers, init, user, p),
                   accepted && Attaches(e, s, c, user, p), accepted && Detaches(s, c, user, p));
    } else {
      NothingStands();
      assert AttachesAt(e, controllers, calls, user, p) == [] && DetachesAt(e, controllers, calls, user, p) == [];
    }
  }

  // Behind every claim there is a proof: an accepted message by a principal that was the user's then, with
  // a token for that address, and no change of address since.
  lemma ClaimWasProved(e: EmailRules, controllers: set<Principal>, calls: seq<Call>, user: UserId, k: string)
    returns (i: nat)
    requires Proper(e) && FreshIds(e, controllers, calls) && Claims(Run(e, controllers, calls).emails, k, user)
    ensures i < |calls| && AcceptedAt(e, controllers, calls, i) && calls[i].VerifyEmail? && calls[i].purposeOk
    ensures ParseEmail(e, calls[i].claimed) == Some(k)
    ensures SentBy(Run(e, controllers, calls[..i]), calls[i].caller, user)
    ensures forall j :: i < j < |calls| && AcceptedAt(e, controllers, calls, j) ==>
              !ChangesAddress(e, Run(e, controllers, calls[..j]), calls[j], user)
  {
    hide Run, FreshIds, Accepted, Standing, ChangesAddress, Proper;
    ClaimsAreProved(e, controllers, calls, user, k);
    var proofs, changes := ProvesAt(e, controllers, calls, user, k), ChangesAt(e, controllers, calls, user);
    i := StandingSince(proofs, changes);
    assert proofs[i];
    forall j | i < j < |calls| && AcceptedAt(e, controllers, calls, j)
      ensures !ChangesAddress(e, Run(e, controllers, calls[..j]), calls[j], user)
    {
      assert !changes[j];
    }
  }

  // A recovered account was proved: the caller joins a user one of whose principals proved the claimed
  // address, with no change of address since.
  lemma RecoveryIsProved(e: EmailRules, controllers: set<Principal>, calls: seq<Call>, c: Call)
    returns (i: nat, user: UserId)
    requires Proper(e) && FreshIds(e, controllers, calls) && c.Recover?
    requires Accepted(e, controllers, Run(e, controllers, calls), c)
    ensures SentBy(After(e, controllers, Run(e, controllers, calls), c), c.caller, user)
    ensures i < |calls| && AcceptedAt(e, controllers, calls, i) && calls[i].VerifyEmail? && calls[i].purposeOk
    ensures ParseEmail(e, calls[i].claimed) == ParseEmail(e, c.claimed)
    ensures SentBy(Run(e, controllers, calls[..i]), calls[i].caller, user)
    ensures forall j :: i < j < |calls| && AcceptedAt(e, controllers, calls, j) ==>
              !ChangesAddress(e, Run(e, controllers, calls[..j]), calls[j], user)
  {
    hide Run, FreshIds, Accepted, After, ChangesAddress, Proper;
    user := RecoveredUser(e, controllers, Run(e, controllers, calls), c);
    i := ClaimWasProved(e, controllers, calls, user, ParseEmail(e, c.claimed).value);
  }

  lemma StandingSince(puts: seq<bool>, takes: seq<bool>) returns (i: nat)
    requires |puts| == |takes| && Standing(puts, takes)
    ensures i < |puts| && puts[i] && forall j :: i < j < |takes| ==> !takes[j]
  {
    i :| 0 <= i < |puts| && puts[i] && forall j :: i < j < |takes| ==> !takes[j];
  }

  lemma RecoveredUser(e: EmailRules, controllers: set<Principal>, s: Accounts, c: Call) returns (user: UserId)
    requires c.Recover? && Accepted(e, controllers, s, c)
    ensures ParseEmail(e, c.claimed).Some? && Claims(s.emails, ParseEmail(e, c.claimed).value, user)
    ensures SentBy(After(e, controllers, s, c), c.caller, user)
  {
    hide ApplyToProfile, ApplyToCodes, Unclaimed, ParseEmail;
    user := s.emails[ParseEmail(e, c.claimed).value];
  }

  // A pending code was registered by its user, and nothing has ended it since.
  lemma {:induction false} PendingWasRegistered(e: EmailRules, controllers: set<Principal>, calls: seq<Call>,
    user: UserId)
    returns (i: nat)
    requires FreshIds(e, controllers, calls) && user in Run(e, controllers, calls).codes
    ensures i < |calls| && AcceptedAt(e, controllers, calls, i)
    ensures Registers(Run(e, controllers, calls[..i]), calls[i], user)
    ensures Run(e, controllers, calls).codes[user] ==
            LinkCode(calls[i].code, calls[i].target, SaturatingAdd(calls[i].now, LINK_CODE_TTL))
    ensures forall j :: i < j < |calls| ==>
              var s, accepted := Run(e, controllers, calls[..j]), AcceptedAt(e, controllers, calls, j);
              !(accepted && Registers(s, calls[j], user)) && !Drops(s, calls[j], accepted, user)
  {
    hide Accepted, Apply, Fresh, Registers, Drops;
    var n := |calls| - 1;
    var init, c := calls[..n], calls[n];
    var s := Run(e, controllers, init);
    CodeIs(e, controllers, s, c, user);
    if Accepted(e, controllers, s, c) && Registers(s, c, user) {
      i := n;
    } else {
      i := PendingWasRegistered(e, controllers, init, user);
      assert forall j :: 0 <= j < n ==> init[j] == calls[j] && init[..j] == calls[..j];
    }
  }
}
