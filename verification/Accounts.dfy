/** User accounts: principals, verified emails, link codes and service principals. */
module Accounts {
  import opened Primitives

  datatype StaffPermission = ReadAllOrgs | WriteBilling | ManageUsers | ReadMetrics
  type StaffPermissions = set<StaffPermission>

  const ALL_STAFF_PERMISSIONS: StaffPermissions := {ReadAllOrgs, WriteBilling, ManageUsers, ReadMetrics}

  // The anonymous principal is the single byte 4.
  const ANONYMOUS: Principal := 4
  const LINK_CODE_TTL: nat := 15 * 60 * 1_000_000_000
  const LINK_CODE_LEN := 8

  // Trimming and lower-casing, and the shape check that follows it.
  datatype EmailRules = EmailRules(normalize: string -> string, wellFormed: string -> bool)

  // The shape check refuses the empty address.
  ghost predicate Proper(e: EmailRules) {
    !e.wellFormed("")
  }

  datatype Profile = Profile(email: Option<string>, verified: bool, active: bool, staff: Option<StaffPermissions>)

  const NEW_PROFILE := Profile(None, false, false, None)

  // Unsigned in the source; `StatsExact` shows that they never go below zero.
  datatype Stats = Stats(total: int, active: int, inactive: int)

  datatype LinkCode = LinkCode(code: string, target: Principal, expires: nat)

  // What happened to link codes: the history is not stored, it is what the proofs refer to.
  datatype Event =
    | Registered(user: UserId, entry: LinkCode)
    | Linked(user: UserId, code: string, principal: Principal, at: nat)

  type Profiles = map<UserId, Profile>
  type Codes = map<UserId, LinkCode>

  datatype Accounts = Accounts(
    profiles: Profiles,
    principals: map<Principal, UserId>,
    links: set<(UserId, Principal)>,
    names: map<(UserId, Principal), string>,
    emails: map<string, UserId>,
    stats: Stats,
    services: map<Principal, StaffPermissions>,
    codes: Codes,
    history: seq<Event>)

  const EMPTY := Accounts(map[], map[], {}, map[], map[], Stats(0, 0, 0), map[], map[], [])

  // --- Emails ---

  // The index key of a stored address; an address that normalises to nothing has none.
  function KeyOf(e: EmailRules, email: Option<string>): Option<string> {
    if email.Some? && e.normalize(email.value) != "" then Some(e.normalize(email.value)) else None
  }

  // `Email::try_from`.
  function ParseEmail(e: EmailRules, raw: string): Option<string> {
    if e.wellFormed(e.normalize(raw)) then Some(e.normalize(raw)) else None
  }

  function Claim(e: EmailRules, p: Profile): Option<string> {
    if p.verified then KeyOf(e, p.email) else None
  }

  function ReleaseEmail(e: EmailRules, emails: map<string, UserId>, user: UserId, email: Option<string>)
    : map<string, UserId>
  {
    var key := KeyOf(e, email);
    if key.Some? && key.value in emails && emails[key.value] == user then emails - {key.value} else emails
  }

  function Claimants(e: EmailRules, profiles: Profiles, key: string): set<UserId> {
    set u | u in profiles && Claim(e, profiles[u]) == Some(key)
  }

  // The migration: an address with one claimant is indexed, one with several is taken from all.
  function MigratedProfile(e: EmailRules, profiles: Profiles, u: UserId): Profile
    requires u in profiles
  {
    var claim := Claim(e, profiles[u]);
    if claim.Some? && Claimants(e, profiles, claim.value) != {u} then profiles[u].(verified := false) else profiles[u]
  }

  function MigratedProfiles(e: EmailRules, profiles: Profiles): Profiles {
    map u | u in profiles :: MigratedProfile(e, profiles, u)
  }

  ghost predicate Sole(e: EmailRules, profiles: Profiles, key: string, user: UserId) {
    Claimants(e, profiles, key) == {user}
  }

  // The index after the migration, key by key.
  ghost predicate IsMigratedIndex(e: EmailRules, profiles: Profiles, emails: map<string, UserId>,
    after: map<string, UserId>)
  {
    && (forall k :: k in after <==> k in emails || exists u :: Sole(e, profiles, k, u))
    && (forall k :: k in after ==>
          if exists u :: Sole(e, profiles, k, u) then Sole(e, profiles, k, after[k])
          else k in emails && after[k] == emails[k])
  }

  ghost function MigratedEmails(e: EmailRules, profiles: Profiles, emails: map<string, UserId>)
    : (after: map<string, UserId>)
    ensures IsMigratedIndex(e, profiles, emails, after)
  {
    var users := set u | u in profiles && Claim(e, profiles[u]).Some? &&
      Sole(e, profiles, Claim(e, profiles[u]).value, u);
    assert forall k, u :: Sole(e, profiles, k, u) ==> u in Claimants(e, profiles, k) && u in users;
    assert forall u :: u in users ==> Sole(e, profiles, Claim(e, profiles[u]).value, u);
    var claimed := map k | k in (set u | u in users :: Claim(e, profiles[u]).value) :: SoleClaimant(e, profiles, k);
    emails + claimed
  }

  ghost function SoleClaimant(e: EmailRules, profiles: Profiles, key: string): (u: UserId)
    requires exists u :: Sole(e, profiles, key, u)
    ensures Sole(e, profiles, key, u)
  {
    var u :| Sole(e, profiles, key, u); u
  }

  // The index maps a key to a user exactly when that user's profile is verified with that key.
  ghost predicate EmailsExact(e: EmailRules, profiles: Profiles, emails: map<string, UserId>) {
    forall k, u :: k in emails && emails[k] == u <==> u in profiles && Claim(e, profiles[u]) == Some(k)
  }

  // --- Principals ---

  predicate Unclaimed(s: Accounts, p: Principal) {
    p !in s.services && p !in s.principals
  }

  function LinkPrincipal(s: Accounts, user: UserId, p: Principal): Accounts {
    s.(principals := s.principals[p := user], links := s.links + {(user, p)})
  }

  function UnlinkPrincipal(s: Accounts, user: UserId, p: Principal): Accounts {
    s.(principals := s.principals - {p}, links := s.links - {(user, p)}, names := s.names - {(user, p)})
  }

  function LinksOf(s: Accounts, user: UserId): set<(UserId, Principal)> {
    set l | l in s.links && l.0 == user
  }

  predicate MayUnlink(s: Accounts, user: UserId, p: Principal) {
    p in s.principals && s.principals[p] == user && |LinksOf(s, user)| > 1
  }

  function CallerStaff(s: Accounts, controllers: set<Principal>, caller: Principal): StaffPermissions {
    if caller == ANONYMOUS then {}
    else if caller in controllers then ALL_STAFF_PERMISSIONS
    else if caller in s.services then s.services[caller]
    else if caller in s.principals && s.principals[caller] in s.profiles && s.profiles[s.principals[caller]].active
    then StaffOf(s, s.principals[caller])
    else {}
  }

  function StaffOf(s: Accounts, user: UserId): StaffPermissions {
    if user in s.profiles && s.profiles[user].staff.Some? then s.profiles[user].staff.value else {}
  }

  // --- Link codes ---

  predicate ValidCode(code: string) {
    |code| == LINK_CODE_LEN && forall i :: 0 <= i < |code| ==> 'A' <= code[i] <= 'Z' || '0' <= code[i] <= '9'
  }

  function Live(codes: Codes, now: nat): Codes {
    map u | u in codes && codes[u].expires > now :: codes[u]
  }

  // The pending entry with the code whose user id is smallest.
  predicate IsFirst(codes: Codes, code: string, user: UserId) {
    user in codes && codes[user].code == code && forall u :: u in codes && u < user ==> codes[u].code != code
  }

  ghost function First(codes: Codes, code: string): Option<UserId> {
    if u :| IsFirst(codes, code, u) then Some(u) else None
  }

  // --- Messages ---

  datatype Call =
    | CreateProfile(caller: Principal, user: UserId)
    | UpdateEmail(caller: Principal, email: Option<string>)
    | VerifyEmail(caller: Principal, claimed: string, purposeOk: bool)
    | SetStatus(user: UserId, status: Option<bool>)
    | SetStaff(user: UserId, staff: Option<StaffPermissions>)
    | RegisterCode(caller: Principal, code: string, target: Principal, now: nat)
    | LinkWithCode(caller: Principal, code: string, now: nat)
    | ShowCode(caller: Principal, now: nat)
    | RevokeCode(caller: Principal)
    | Unlink(caller: Principal, principal: Principal)
    | SetName(caller: Principal, principal: Principal, name: Option<string>)
    | AdminLink(caller: Principal, user: UserId, principal: Principal)
    | AdminUnlink(caller: Principal, user: UserId, principal: Principal)
    | Recover(caller: Principal, claimed: string, purposeOk: bool)
    | Grant(principal: Principal, permissions: StaffPermissions)
    | Revoke(principal: Principal)
    | Upgrade

  function NewUser(s: Accounts, caller: Principal, user: UserId): Accounts {
    var linked := LinkPrincipal(s, user, caller);
    linked.(profiles := s.profiles[user := NEW_PROFILE],
            stats := Stats(s.stats.total + 1, s.stats.active, s.stats.inactive + 1))
  }

  function ChangeEmail(e: EmailRules, s: Accounts, user: UserId, email: string): Accounts
    requires user in s.profiles
  {
    var p := s.profiles[user];
    if p.email != Some(email) && p.verified
    then s.(profiles := s.profiles[user := p.(email := Some(email), verified := false)],
            emails := ReleaseEmail(e, s.emails, user, p.email))
    else s.(profiles := s.profiles[user := p.(email := Some(email))])
  }

  function CountStatus(stats: Stats, was: bool, active: bool): Stats {
    if was == active then stats
    else if active then Stats(stats.total, stats.active + 1, stats.inactive - 1)
    else Stats(stats.total, stats.active - 1, stats.inactive + 1)
  }

  // Redeeming a code: it is spent before the caller's principal is checked.
  ghost function Redeem(s: Accounts, caller: Principal, code: string, now: nat): (Accounts, bool) {
    var live := s.(codes := Live(s.codes, now));
    var first := First(live.codes, code);
    if first.None? || live.codes[first.value].target != caller then (live, false)
    else
      var spent := live.(codes := live.codes - {first.value});
      if !Unclaimed(spent, caller) || first.value !in spent.profiles then (spent, false)
      else
        (LinkPrincipal(spent, first.value, caller).(history := s.history + [Linked(first.value, code, caller, now)]),
          true)
  }

  // The state after a message, and whether it was accepted.
  ghost function Apply(e: EmailRules, controllers: set<Principal>, s: Accounts, c: Call): (Accounts, bool) {
    if IsProfileCall(c) then ApplyToProfile(e, s, c)
    else if IsCodeCall(c) then ApplyToCodes(s, c)
    else if IsLinkCall(c) then ApplyToLinks(e, controllers, s, c)
    else
      match c
      case Grant(p, permissions) =>
        if p == ANONYMOUS || p in s.principals || permissions == {} then (s, false)
        else (s.(services := s.services[p := permissions]), true)
      case Revoke(p) =>
        if p == ANONYMOUS then (s, false) else (s.(services := s.services - {p}), true)
      case Upgrade =>
        (s.(codes := map[], profiles := MigratedProfiles(e, s.profiles),
          emails := MigratedEmails(e, s.profiles, s.emails)), true)
  }

  predicate IsProfileCall(c: Call) {
    c.CreateProfile? || c.UpdateEmail? || c.VerifyEmail? || c.SetStatus? || c.SetStaff?
  }

  predicate IsCodeCall(c: Call) {
    c.RegisterCode? || c.LinkWithCode? || c.ShowCode? || c.RevokeCode?
  }

  predicate IsLinkCall(c: Call) {
    c.Unlink? || c.SetName? || c.AdminLink? || c.AdminUnlink? || c.Recover?
  }

  ghost function ApplyToProfile(e: EmailRules, s: Accounts, c: Call): (Accounts, bool)
    requires IsProfileCall(c)
  {
    match c
    case CreateProfile(caller, user) =>
      if caller == ANONYMOUS || !Unclaimed(s, caller) then (s, false) else (NewUser(s, caller, user), true)
    case UpdateEmail(caller, email) =>
      if caller !in s.principals || s.principals[caller] !in s.profiles then (s, false)
      else if email.None? then (s, true)
      else if ParseEmail(e, email.value).None? then (s, false)
      else (ChangeEmail(e, s, s.principals[caller], ParseEmail(e, email.value).value), true)
    case VerifyEmail(caller, claimed, purposeOk) =>
      if !purposeOk || caller !in s.principals || s.principals[caller] !in s.profiles then (s, false)
      else
        var user := s.principals[caller];
        var p := s.profiles[user];
        if p.email.None? || ParseEmail(e, p.email.value).None? || ParseEmail(e, claimed) != ParseEmail(e, p.email.value)
        then (s, false)
        else
          var key := ParseEmail(e, p.email.value).value;
          if key in s.emails && s.emails[key] != user then (s, false)
          else (s.(profiles := s.profiles[user := p.(verified := true)], emails := s.emails[key := user]), true)
    case SetStatus(user, status) =>
      if user !in s.profiles then (s, false)
      else if status.None? then (s, true)
      else (s.(profiles := s.profiles[user := s.profiles[user].(active := status.value)],
               stats := CountStatus(s.stats, s.profiles[user].active, status.value)), true)
    case SetStaff(user, staff) =>
      if user !in s.profiles || staff == Some({}) then (s, false)
      else (s.(profiles := s.profiles[user := s.profiles[user].(staff := staff)]), true)
  }

  ghost function ApplyToCodes(s: Accounts, c: Call): (Accounts, bool)
    requires IsCodeCall(c)
  {
    match c
    case RegisterCode(caller, code, target, now) =>
      if caller !in s.principals || !ValidCode(code) || target == ANONYMOUS then (s, false)
      else
        var entry := LinkCode(code, target, SaturatingAdd(now, LINK_CODE_TTL));
        (s.(codes := Live(s.codes, now)[s.principals[caller] := entry],
            history := s.history + [Registered(s.principals[caller], entry)]), true)
    case LinkWithCode(caller, code, now) =>
      if caller == ANONYMOUS then (s, false) else Redeem(s, caller, code, now)
    case ShowCode(caller, now) =>
      if caller !in s.principals then (s, false) else (s.(codes := Live(s.codes, now)), true)
    case RevokeCode(caller) =>
      if caller !in s.principals || s.principals[caller] !in s.codes then (s, false)
      else (s.(codes := s.codes - {s.principals[caller]}), true)
  }

  ghost function ApplyToLinks(e: EmailRules, controllers: set<Principal>, s: Accounts, c: Call): (Accounts, bool)
    requires IsLinkCall(c)
  {
    match c
    case Unlink(caller, p) =>
      if caller !in s.principals || !MayUnlink(s, s.principals[caller], p) then (s, false)
      else (UnlinkPrincipal(s, s.principals[caller], p), true)
    case SetName(caller, p, name) =>
      if caller !in s.principals || (s.principals[caller], p) !in s.links then (s, false)
      else if name.Some? then (s.(names := s.names[(s.principals[caller], p) := name.value]), true)
      else (s.(names := s.names - {(s.principals[caller], p)}), true)
    case AdminLink(caller, user, p) =>
      if ManageUsers !in CallerStaff(s, controllers, caller) then (s, false)
      else if !(StaffOf(s, user) <= CallerStaff(s, controllers, caller)) then (s, false)
      else if p == ANONYMOUS || !Unclaimed(s, p) || user !in s.profiles then (s, false)
      else (LinkPrincipal(s, user, p), true)
    case AdminUnlink(caller, user, p) =>
      if ManageUsers !in CallerStaff(s, controllers, caller) || !MayUnlink(s, user, p) then (s, false)
      else (UnlinkPrincipal(s, user, p), true)
    case Recover(caller, claimed, purposeOk) =>
      if caller == ANONYMOUS || !purposeOk || ParseEmail(e, claimed).None? then (s, false)
      else
        var key := ParseEmail(e, claimed).value;
        if key !in s.emails || !Unclaimed(s, caller) || s.emails[key] !in s.profiles then (s, false)
        else (LinkPrincipal(s, s.emails[key], caller), true)
  }

  ghost predicate Fresh(s: Accounts, c: Call) {
    c.CreateProfile? ==> c.user !in s.profiles
  }


  // --- What every state keeps ---

  ghost predicate HasPrincipal(links: set<(UserId, Principal)>, user: UserId) {
    exists p :: (user, p) in links
  }

  // The two principal indexes are inverse, every user has a principal, only linked principals have
  // names, and no principal belongs to a user and a service.
  ghost predicate PrincipalsSound(
    users: set<UserId>, principals: map<Principal, UserId>, links: set<(UserId, Principal)>,
    names: map<(UserId, Principal), string>, services: map<Principal, StaffPermissions>)
  {
    && (forall p, u :: p in principals && principals[p] == u <==> (u, p) in links)
    && (forall p :: p in principals ==> principals[p] in users)
    && (forall u :: u in users ==> HasPrincipal(links, u))
    && names.Keys <= links
    && services.Keys !! principals.Keys
    && ANONYMOUS !in services && ANONYMOUS !in principals
  }

  function ActiveUsers(profiles: Profiles): set<UserId> {
    set u | u in profiles && profiles[u].active
  }

  ghost predicate StatsExact(profiles: Profiles, stats: Stats) {
    stats == Stats(|profiles|, |ActiveUsers(profiles)|, |profiles.Keys - ActiveUsers(profiles)|)
  }

  // The last event of the user.
  function LastEvent(history: seq<Event>, user: UserId): Option<Event> {
    if history == [] then None
    else if history[|history| - 1].user == user then Some(history[|history| - 1])
    else LastEvent(history[..|history| - 1], user)
  }

  // A pending code is the user's last event: nothing has been linked with it yet.
  ghost predicate CodesPending(users: set<UserId>, codes: Codes, history: seq<Event>) {
    forall u :: u in codes ==> u in users && LastEvent(history, u) == Some(Registered(u, codes[u]))
  }

  // Every link redeems the registration that is the user's last event before it: same code, only
  // the bound principal, and before it expires.
  ghost predicate LinkIsCovered(history: seq<Event>, i: nat)
    requires i < |history|
  {
    history[i].Linked? ==>
      var prior := LastEvent(history[..i], history[i].user);
      && prior.Some? && prior.value.Registered?
      && prior.value.entry.code == history[i].code && prior.value.entry.target == history[i].principal
      && history[i].at < prior.value.entry.expires
  }

  ghost predicate HistorySound(history: seq<Event>) {
    forall i :: 0 <= i < |history| ==> LinkIsCovered(history, i)
  }

  ghost predicate Sound(e: EmailRules, s: Accounts) {
    && StatePrincipalsSound(s)
    && EmailsExact(e, s.profiles, s.emails)
    && StatsExact(s.profiles, s.stats)
    && CodesPending(s.profiles.Keys, s.codes, s.history) && HistorySound(s.history)
  }

  // --- Principals ---

  lemma NewPrincipal(users: set<UserId>, user: UserId, p: Principal, s: Accounts)
    requires PrincipalsSound(users, s.principals, s.links, s.names, s.services)
    requires Unclaimed(s, p) && p != ANONYMOUS
    ensures var s' := LinkPrincipal(s, user, p);
            PrincipalsSound(users + {user}, s'.principals, s'.links, s.names, s.services)
  {
    var links := LinkPrincipal(s, user, p).links;
    forall u | u in users + {user} ensures HasPrincipal(links, u) {
      if u == user {
        assert (u, p) in links;
      } else {
        assert HasPrincipal(s.links, u);
        var q :| (u, q) in s.links;
        assert (u, q) in links;
      }
    }
  }

  lemma UnlinkKeeps(users: set<UserId>, user: UserId, p: Principal, s: Accounts)
    requires PrincipalsSound(users, s.principals, s.links, s.names, s.services) && MayUnlink(s, user, p)
    ensures var s' := UnlinkPrincipal(s, user, p);
            PrincipalsSound(users, s'.principals, s'.links, s'.names, s.services)
  {
    var links := UnlinkPrincipal(s, user, p).links;
    var mine := LinksOf(s, user);
    if mine <= {(user, p)} {
      SubsetSize(mine, {(user, p)});
    }
    var other :| other in mine && other != (user, p);
    assert other == (user, other.1) && (user, other.1) in links;
    forall u | u in users ensures HasPrincipal(links, u) {
      if u != user {
        assert HasPrincipal(s.links, u);
        var q :| (u, q) in s.links;
        assert (u, q) in links;
      }
    }
  }

  // Linking to a user that exists already.
  lemma LinkKeeps(users: set<UserId>, user: UserId, p: Principal, s: Accounts)
    requires PrincipalsSound(users, s.principals, s.links, s.names, s.services)
    requires Unclaimed(s, p) && p != ANONYMOUS && user in users
    ensures var s' := LinkPrincipal(s, user, p);
            PrincipalsSound(users, s'.principals, s'.links, s.names, s.services)
  {
    hide PrincipalsSound;
    NewPrincipal(users, user, p, s);
    assert users + {user} == users;
  }

  lemma NamesAndServicesKeep(users: set<UserId>, s: Accounts, p: Principal, l: (UserId, Principal), name: string,
    permissions: StaffPermissions)
    requires PrincipalsSound(users, s.principals, s.links, s.names, s.services)
    ensures l in s.links ==> PrincipalsSound(users, s.principals, s.links, s.names[l := name], s.services)
    ensures PrincipalsSound(users, s.principals, s.links, s.names - {l}, s.services)
    ensures PrincipalsSound(users, s.principals, s.links, s.names, s.services - {p})
    ensures p != ANONYMOUS && p !in s.principals ==>
              PrincipalsSound(users, s.principals, s.links, s.names, s.services[p := permissions])
  {
  }

  ghost predicate StatePrincipalsSound(s: Accounts) {
    PrincipalsSound(s.profiles.Keys, s.principals, s.links, s.names, s.services)
  }

  lemma StepKeepsPrincipals(e: EmailRules, controllers: set<Principal>, s: Accounts, c: Call)
    requires StatePrincipalsSound(s)
    ensures StatePrincipalsSound(Apply(e, controllers, s, c).0)
  {
    hide PrincipalsSound, ApplyToProfile, ApplyToCodes, ApplyToLinks;
    if IsProfileCall(c) {
      ProfileCallKeepsPrincipals(e, s, c);
    } else if c.LinkWithCode? {
      RedeemKeepsPrincipals(s, c.caller, c.code, c.now);
    } else if IsCodeCall(c) {
      CodeCallFrame(s, c);
    } else if IsLinkCall(c) {
      LinkCallKeepsPrincipals(e, controllers, s, c);
    } else if c.Upgrade? {
      MigrationKeepsStatuses(e, s.profiles);
    } else {
      NamesAndServicesKeep(s.profiles.Keys, s, c.principal, (0, 0), "", if c.Grant? then c.permissions else {});
    }
  }

  lemma ProfileCallKeepsPrincipals(e: EmailRules, s: Accounts, c: Call)
    requires StatePrincipalsSound(s) && IsProfileCall(c)
    ensures StatePrincipalsSound(ApplyToProfile(e, s, c).0)
  {
    hide PrincipalsSound, ParseEmail, ReleaseEmail, CountStatus, LinkPrincipal, Unclaimed, NewUser;
    if c.CreateProfile? {
      if ApplyToProfile(e, s, c).1 {
        NewPrincipal(s.profiles.Keys, c.user, c.caller, s);
        NewUserPrincipals(s, c.caller, c.user);
      }
    } else {
      assert ApplyToProfile(e, s, c).0.profiles.Keys == s.profiles.Keys;
    }
  }

  lemma LinkCallKeepsPrincipals(e: EmailRules, controllers: set<Principal>, s: Accounts, c: Call)
    requires StatePrincipalsSound(s) && IsLinkCall(c)
    ensures StatePrincipalsSound(ApplyToLinks(e, controllers, s, c).0)
  {
    hide PrincipalsSound, ParseEmail, CallerStaff, StaffOf, LinkPrincipal, UnlinkPrincipal, MayUnlink, Unclaimed;
    var ok, users := ApplyToLinks(e, controllers, s, c).1, s.profiles.Keys;
    if ok {
      match c
      case AdminLink(caller, user, p) =>
        LinkKeeps(users, user, p, s);
        LinkFrame(s, user, p);
      case Recover(caller, claimed, purposeOk) =>
        var user := s.emails[ParseEmail(e, claimed).value];
        LinkKeeps(users, user, caller, s);
        LinkFrame(s, user, caller);
      case Unlink(caller, p) =>
        UnlinkKeeps(users, s.principals[caller], p, s);
        UnlinkFrame(s, s.principals[caller], p);
      case AdminUnlink(caller, user, p) =>
        UnlinkKeeps(users, user, p, s);
        UnlinkFrame(s, user, p);
      case SetName(caller, p, name) =>
        NamesAndServicesKeep(users, s, p, (s.principals[caller], p), if name.Some? then name.value else "", {});
    }
  }

  // Messages about codes leave profiles, emails and counters alone, and unless one is redeemed
  // the principals as well.
  lemma CodeCallFrame(s: Accounts, c: Call)
    requires IsCodeCall(c)
    ensures var s' := ApplyToCodes(s, c).0;
            && s'.profiles == s.profiles && s'.emails == s.emails && s'.stats == s.stats && s'.services == s.services
            && (!c.LinkWithCode? ==> s'.principals == s.principals && s'.links == s.links && s'.names == s.names)
  {
    hide Redeem, Live, ValidCode;
    if c.LinkWithCode? {
      RedeemFrame(s, c.caller, c.code, c.now);
    }
  }

  // Messages about links leave everything but the principals alone.
  lemma LinkCallFrame(e: EmailRules, controllers: set<Principal>, s: Accounts, c: Call)
    requires IsLinkCall(c)
    ensures var s' := ApplyToLinks(e, controllers, s, c).0;
            && s'.profiles == s.profiles && s'.emails == s.emails && s'.stats == s.stats
            && s'.codes == s.codes && s'.history == s.history
  {
    hide ParseEmail, CallerStaff, StaffOf, MayUnlink, Unclaimed;
  }

  lemma NewUserPrincipals(s: Accounts, caller: Principal, user: UserId)
    ensures var s', l := NewUser(s, caller, user), LinkPrincipal(s, user, caller);
            && s'.profiles.Keys == s.profiles.Keys + {user} && s'.principals == l.principals && s'.links == l.links
            && s'.names == s.names && s'.services == s.services
  {
  }

  lemma LinkFrame(s: Accounts, user: UserId, p: Principal)
    ensures var s' := LinkPrincipal(s, user, p);
            s'.profiles == s.profiles && s'.names == s.names && s'.services == s.services
  {
  }

  lemma UnlinkFrame(s: Accounts, user: UserId, p: Principal)
    ensures var s' := UnlinkPrincipal(s, user, p); s'.profiles == s.profiles && s'.services == s.services
  {
  }

  lemma RedeemKeepsPrincipals(s: Accounts, caller: Principal, code: string, now: nat)
    requires StatePrincipalsSound(s)
    ensures StatePrincipalsSound(ApplyToCodes(s, LinkWithCode(caller, code, now)).0)
  {
    hide PrincipalsSound, First, Live;
    if caller != ANONYMOUS && Redeem(s, caller, code, now).1 {
      LinkKeeps(s.profiles.Keys, First(Live(s.codes, now), code).value, caller, s);
    }
  }

  // --- Emails ---

  lemma StepKeepsEmails(e: EmailRules, controllers: set<Principal>, s: Accounts, c: Call)
    requires EmailsExact(e, s.profiles, s.emails) && Proper(e) && Fresh(s, c)
    ensures var s' := Apply(e, controllers, s, c).0; EmailsExact(e, s'.profiles, s'.emails)
  {
    hide EmailsExact, ApplyToProfile, ApplyToCodes, ApplyToLinks;
    if IsProfileCall(c) {
      ProfileCallKeepsEmails(e, s, c);
    } else if IsCodeCall(c) {
      CodeCallFrame(s, c);
    } else if IsLinkCall(c) {
      LinkCallFrame(e, controllers, s, c);
    } else if c.Upgrade? {
      MigrationChangesNothing(e, s.profiles, s.emails);
    }
  }

  lemma ProfileCallKeepsEmails(e: EmailRules, s: Accounts, c: Call)
    requires EmailsExact(e, s.profiles, s.emails) && Proper(e) && Fresh(s, c) && IsProfileCall(c)
    ensures var s' := ApplyToProfile(e, s, c).0; EmailsExact(e, s'.profiles, s'.emails)
  {
    hide EmailsExact, Unclaimed, CountStatus, ChangeEmail;
    var s' := ApplyToProfile(e, s, c).0;
    match c
    case CreateProfile(_, user) =>
      SameClaims(e, s.profiles, s'.profiles, s.emails);
    case UpdateEmail(caller, email) =>
      if s' != s {
        ChangeEmailKeeps(e, s, s.principals[caller], ParseEmail(e, email.value).value);
      }
    case VerifyEmail(caller, claimed, purposeOk) =>
      if s' != s {
        VerifyKeeps(e, s.profiles, s.emails, s.principals[caller],
          ParseEmail(e, s.profiles[s.principals[caller]].email.value).value);
      }
    case SetStatus(_, _) => SameClaims(e, s.profiles, s'.profiles, s.emails);
    case SetStaff(_, _) => SameClaims(e, s.profiles, s'.profiles, s.emails);
  }

  ghost function ClaimOf(e: EmailRules, profiles: Profiles, u: UserId): Option<string> {
    if u in profiles then Claim(e, profiles[u]) else None
  }

  lemma SameClaims(e: EmailRules, before: Profiles, after: Profiles, emails: map<string, UserId>)
    requires EmailsExact(e, before, emails)
    requires forall u :: ClaimOf(e, after, u) == ClaimOf(e, before, u)
    ensures EmailsExact(e, after, emails)
  {
    hide Claim;
    forall k, u ensures k in emails && emails[k] == u <==> u in after && Claim(e, after[u]) == Some(k) {
      assert ClaimOf(e, after, u) == ClaimOf(e, before, u);
    }
  }

  lemma ChangeEmailKeeps(e: EmailRules, s: Accounts, user: UserId, email: string)
    requires EmailsExact(e, s.profiles, s.emails) && user in s.profiles
    ensures var s' := ChangeEmail(e, s, user, email); EmailsExact(e, s'.profiles, s'.emails)
  {
    var s' := ChangeEmail(e, s, user, email);
    var p := s.profiles[user];
    if p.email != Some(email) && p.verified {
      var key := KeyOf(e, p.email);
      assert Claim(e, p) == key && Claim(e, s'.profiles[user]) == None;
      assert s'.emails ==
        if key.Some? && key.value in s.emails && s.emails[key.value] == user then s.emails - {key.value} else s.emails;
      hide KeyOf, ReleaseEmail, ChangeEmail, Claim;
      forall k, u ensures k in s'.emails && s'.emails[k] == u <==>
        u in s'.profiles && Claim(e, s'.profiles[u]) == Some(k) {
        assert k in s.emails && s.emails[k] == u <==> u in s.profiles && Claim(e, s.profiles[u]) == Some(k);
        assert k in s.emails && s.emails[k] == user <==> Claim(e, p) == Some(k);
      }
    } else {
      SameClaims(e, s.profiles, s'.profiles, s.emails);
    }
  }

  lemma VerifyKeeps(e: EmailRules, profiles: Profiles, emails: map<string, UserId>, user: UserId, key: string)
    requires EmailsExact(e, profiles, emails) && user in profiles
    requires KeyOf(e, profiles[user].email) == Some(key) && (key in emails ==> emails[key] == user)
    ensures EmailsExact(e, profiles[user := profiles[user].(verified := true)], emails[key := user])
  {
    var after, index := profiles[user := profiles[user].(verified := true)], emails[key := user];
    assert Claim(e, after[user]) == Some(key);
    forall k, u ensures k in index && index[k] == u <==> u in after && Claim(e, after[u]) == Some(k) {
      assert k in emails && emails[k] == u <==> u in profiles && Claim(e, profiles[u]) == Some(k);
      if u == user {
        assert Claim(e, profiles[user]) in {None, Some(key)};
      }
    }
  }

  // --- The migration ---

  lemma ClaimAfterMigration(e: EmailRules, profiles: Profiles, u: UserId, k: string)
    requires u in profiles
    ensures Claim(e, MigratedProfiles(e, profiles)[u]) == Some(k) <==> Sole(e, profiles, k, u)
  {
    assert u in Claimants(e, profiles, k) <==> Claim(e, profiles[u]) == Some(k);
  }

  // From any profiles and an empty index, the migration makes the index exact; it only takes the
  // flag from users who share an address.
  lemma MigrationEstablishes(e: EmailRules, profiles: Profiles)
    ensures EmailsExact(e, MigratedProfiles(e, profiles), MigratedEmails(e, profiles, map[]))
    ensures forall u :: u in profiles ==>
              var p, p' := profiles[u], MigratedProfiles(e, profiles)[u];
              && p' == p.(verified := p'.verified)
              && (p.verified != p'.verified <==>
                    p.verified && Claim(e, p).Some? &&
                    exists v :: v != u && v in profiles && Claim(e, profiles[v]) == Claim(e, p))
  {
    var after, index := MigratedProfiles(e, profiles), MigratedEmails(e, profiles, map[]);
    forall k, u ensures k in index && index[k] == u <==> u in after && Claim(e, after[u]) == Some(k) {
      if u in profiles {
        ClaimAfterMigration(e, profiles, u, k);
      } else if k in index {
        assert Sole(e, profiles, k, index[k]) && index[k] in Claimants(e, profiles, k);
      }
    }
    forall u | u in profiles
      ensures var p, p' := profiles[u], after[u];
              && p' == p.(verified := p'.verified)
              && (p.verified != p'.verified <==>
                    p.verified && Claim(e, p).Some? &&
                    exists v :: v != u && v in profiles && Claim(e, profiles[v]) == Claim(e, p))
    {
      SharedClaim(e, profiles, u);
    }
  }

  lemma SharedClaim(e: EmailRules, profiles: Profiles, u: UserId)
    requires u in profiles
    ensures var claim := Claim(e, profiles[u]);
            claim.Some? ==> (Claimants(e, profiles, claim.value) != {u} <==>
                               exists v :: v != u && v in profiles && Claim(e, profiles[v]) == claim)
  {
    var claim := Claim(e, profiles[u]);
    if claim.Some? {
      var all := Claimants(e, profiles, claim.value);
      assert u in all;
      assert forall v :: v in profiles && Claim(e, profiles[v]) == claim <==> v in all;
      if all != {u} {
        var v :| v in all && v != u;
        assert v in profiles && Claim(e, profiles[v]) == claim;
      } else {
        assert forall v :: v in all ==> v == u;
      }
    }
  }

  // Repeating the migration on an exact index changes neither the index nor a profile.
  lemma MigrationChangesNothing(e: EmailRules, profiles: Profiles, emails: map<string, UserId>)
    requires EmailsExact(e, profiles, emails)
    ensures MigratedProfiles(e, profiles) == profiles && MigratedEmails(e, profiles, emails) == emails
  {
    forall k, u | u in Claimants(e, profiles, k) ensures Sole(e, profiles, k, u) && k in emails && emails[k] == u {
      forall v | v in Claimants(e, profiles, k) ensures v == u {
        assert emails[k] == v && emails[k] == u;
      }
      assert Claimants(e, profiles, k) == {u};
    }
    forall u | u in profiles ensures MigratedProfiles(e, profiles)[u] == profiles[u] {
      var claim := Claim(e, profiles[u]);
      assert claim.Some? ==> u in Claimants(e, profiles, claim.value) && Sole(e, profiles, claim.value, u);
    }
    var after := MigratedEmails(e, profiles, emails);
    forall k ensures k in after <==> k in emails
      ensures k in emails ==> after[k] == emails[k]
    {
      if u :| Sole(e, profiles, k, u) {
        assert u in Claimants(e, profiles, k);
        assert Sole(e, profiles, k, after[k]);
        assert after[k] in Claimants(e, profiles, k);
      }
    }
  }

  // --- Counters ---

  lemma StepKeepsStats(e: EmailRules, controllers: set<Principal>, s: Accounts, c: Call)
    requires StatsExact(s.profiles, s.stats) && Fresh(s, c)
    ensures var s' := Apply(e, controllers, s, c).0; StatsExact(s'.profiles, s'.stats)
  {
    hide StatsExact, ApplyToProfile, ApplyToCodes, ApplyToLinks, MigratedEmails;
    if IsProfileCall(c) {
      ProfileCallKeepsStats(e, s, c);
    } else if IsCodeCall(c) {
      CodeCallFrame(s, c);
    } else if IsLinkCall(c) {
      LinkCallFrame(e, controllers, s, c);
    } else if c.Upgrade? {
      MigrationKeepsStatuses(e, s.profiles);
      SameStatuses(s.profiles, MigratedProfiles(e, s.profiles), s.stats);
    }
  }

  lemma MigrationKeepsStatuses(e: EmailRules, profiles: Profiles)
    ensures MigratedProfiles(e, profiles).Keys == profiles.Keys
    ensures forall u :: u in profiles ==> MigratedProfiles(e, profiles)[u].active == profiles[u].active
  {
    hide Claim, Claimants;
  }

  lemma ProfileCallKeepsStats(e: EmailRules, s: Accounts, c: Call)
    requires StatsExact(s.profiles, s.stats) && Fresh(s, c) && IsProfileCall(c)
    ensures var s' := ApplyToProfile(e, s, c).0; StatsExact(s'.profiles, s'.stats)
  {
    hide StatsExact, CountStatus, Unclaimed, ParseEmail, ReleaseEmail;
    if c.CreateProfile? {
      NewUserCounts(s.profiles, s.stats, c.user);
    } else if c.SetStatus? {
      if c.user in s.profiles && c.status.Some? {
        StatusChangeKeeps(s.profiles, s.stats, c.user, c.status.value);
      }
    } else {
      OtherProfileCalls(e, s, c);
      hide ApplyToProfile;
      SameStatuses(s.profiles, ApplyToProfile(e, s, c).0.profiles, s.stats);
    }
  }

  lemma OtherProfileCalls(e: EmailRules, s: Accounts, c: Call)
    requires c.UpdateEmail? || c.VerifyEmail? || c.SetStaff?
    ensures var s' := ApplyToProfile(e, s, c).0;
            && s'.stats == s.stats && s'.profiles.Keys == s.profiles.Keys
            && forall u :: u in s.profiles ==> s'.profiles[u].active == s.profiles[u].active
  {
    hide ParseEmail, ReleaseEmail;
  }

  lemma RedeemFrame(s: Accounts, caller: Principal, code: string, now: nat)
    ensures var s' := Redeem(s, caller, code, now).0;
            s'.profiles == s.profiles && s'.stats == s.stats && s'.emails == s.emails && s'.services == s.services
  {
    hide First, Live;
  }

  lemma SameStatuses(before: Profiles, after: Profiles, stats: Stats)
    requires StatsExact(before, stats) && after.Keys == before.Keys
    requires forall u :: u in before ==> after[u].active == before[u].active
    ensures StatsExact(after, stats)
  {
    assert ActiveUsers(after) == ActiveUsers(before);
    assert |after| == |after.Keys| && |before| == |before.Keys|;
  }

  lemma NewUserCounts(profiles: Profiles, stats: Stats, user: UserId)
    requires StatsExact(profiles, stats) && user !in profiles
    ensures StatsExact(profiles[user := NEW_PROFILE], Stats(stats.total + 1, stats.active, stats.inactive + 1))
  {
    var after := profiles[user := NEW_PROFILE];
    hide ActiveUsers, NEW_PROFILE;
    NewUserInactive(profiles, user);
    assert after.Keys == profiles.Keys + {user} && |after| == |after.Keys| && |profiles| == |profiles.Keys|;
    AddedOutside(profiles.Keys, ActiveUsers(profiles), user);
  }

  lemma NewUserInactive(profiles: Profiles, user: UserId)
    requires user !in profiles
    ensures ActiveUsers(profiles[user := NEW_PROFILE]) == ActiveUsers(profiles) <= profiles.Keys
  {
  }

  lemma AddedOutside(all: set<UserId>, some: set<UserId>, user: UserId)
    requires user !in all && some <= all
    ensures |all + {user}| == |all| + 1 && |all + {user} - some| == |all - some| + 1
  {
    assert all + {user} - some == all - some + {user};
  }

  lemma StatusChangeKeeps(profiles: Profiles, stats: Stats, user: UserId, active: bool)
    requires StatsExact(profiles, stats) && user in profiles
    ensures StatsExact(profiles[user := profiles[user].(active := active)],
            CountStatus(stats, profiles[user].active, active))
  {
    var after := profiles[user := profiles[user].(active := active)];
    var was, now := ActiveUsers(profiles), ActiveUsers(after);
    assert after.Keys == profiles.Keys && |after| == |after.Keys| && |profiles| == |profiles.Keys|;
    if active == profiles[user].active {
      assert after == profiles;
    } else if active {
      MoveOne(profiles.Keys, was, user);
      assert now == was + {user};
    } else {
      MoveOne(profiles.Keys, now, user);
      assert was == now + {user};
    }
  }

  lemma MoveOne<T>(all: set<T>, part: set<T>, x: T)
    requires x in all && x !in part
    ensures |part + {x}| == |part| + 1 && |all - part| == |all - (part + {x})| + 1
  {
    assert all - part == (all - (part + {x})) + {x};
  }

  // --- Link codes ---

  lemma StepKeepsCodes(e: EmailRules, controllers: set<Principal>, s: Accounts, c: Call)
    requires StatePrincipalsSound(s) && CodesPending(s.profiles.Keys, s.codes, s.history) && HistorySound(s.history)
    ensures var s' := Apply(e, controllers, s, c).0;
            CodesPending(s'.profiles.Keys, s'.codes, s'.history) && HistorySound(s'.history)
  {
    hide StatePrincipalsSound, CodesPending, HistorySound, ApplyToProfile, ApplyToCodes, ApplyToLinks, MigratedEmails;
    if IsProfileCall(c) {
      ProfileCallFrame(e, s, c);
      MoreUsers(s.profiles.Keys, ApplyToProfile(e, s, c).0.profiles.Keys, s.codes, s.history);
    } else if IsCodeCall(c) {
      CodeCallKeepsCodes(s, c);
      CodeCallFrame(s, c);
    } else if IsLinkCall(c) {
      LinkCallFrame(e, controllers, s, c);
    } else if c.Upgrade? {
      FewerCodes(s.profiles.Keys, s.codes, map[], s.history);
      MigrationKeepsStatuses(e, s.profiles);
    }
  }

  lemma ProfileCallFrame(e: EmailRules, s: Accounts, c: Call)
    requires IsProfileCall(c)
    ensures var s' := ApplyToProfile(e, s, c).0;
            s'.codes == s.codes && s'.history == s.history && s.profiles.Keys <= s'.profiles.Keys
  {
    hide Unclaimed, CountStatus, ParseEmail, ReleaseEmail;
  }

  lemma CodeCallKeepsCodes(s: Accounts, c: Call)
    requires StatePrincipalsSound(s) && CodesPending(s.profiles.Keys, s.codes, s.history) && HistorySound(s.history) &&
             IsCodeCall(c)
    ensures var s' := ApplyToCodes(s, c).0;
            CodesPending(s.profiles.Keys, s'.codes, s'.history) && HistorySound(s'.history)
  {
    hide StatePrincipalsSound, CodesPending, HistorySound, Redeem, ValidCode;
    match c
    case RegisterCode(caller, code, target, now) =>
      if caller in s.principals {
        PrincipalHasProfile(s, caller);
        RegisterKeeps(s.profiles.Keys, s.codes, s.history, s.principals[caller],
                      LinkCode(code, target, SaturatingAdd(now, LINK_CODE_TTL)), now);
      }
    case LinkWithCode(caller, code, now) => RedeemKeeps(s, caller, code, now);
    case ShowCode(caller, now) => FewerCodes(s.profiles.Keys, s.codes, Live(s.codes, now), s.history);
    case RevokeCode(caller) =>
      if caller in s.principals {
        FewerCodes(s.profiles.Keys, s.codes, s.codes - {s.principals[caller]}, s.history);
      }
  }

  lemma PrincipalHasProfile(s: Accounts, p: Principal)
    requires StatePrincipalsSound(s) && p in s.principals
    ensures s.principals[p] in s.profiles
  {
  }

  lemma MoreUsers(users: set<UserId>, users': set<UserId>, codes: Codes, history: seq<Event>)
    requires CodesPending(users, codes, history) && users <= users'
    ensures CodesPending(users', codes, history)
  {
  }

  lemma FewerCodes(users: set<UserId>, codes: Codes, codes': Codes, history: seq<Event>)
    requires CodesPending(users, codes, history)
    requires codes'.Keys <= codes.Keys && forall u :: u in codes' ==> codes'[u] == codes[u]
    ensures CodesPending(users, codes', history)
  {
  }

  lemma RegisterKeeps(users: set<UserId>, codes: Codes, history: seq<Event>, user: UserId, entry: LinkCode, now: nat)
    requires CodesPending(users, codes, history) && HistorySound(history) && user in users
    ensures var history' := history + [Registered(user, entry)];
            CodesPending(users, Live(codes, now)[user := entry], history') && HistorySound(history')
  {
    hide HistorySound;
    var event := Registered(user, entry);
    AppendEvent(history, event);
    forall u ensures LastEvent(history + [event], u) == if u == user then Some(event) else LastEvent(history, u) {
      LastAfterAppend(history, event, u);
    }
  }

  lemma LastAfterAppend(history: seq<Event>, event: Event, u: UserId)
    ensures LastEvent(history + [event], u) == if event.user == u then Some(event) else LastEvent(history, u)
  {
    assert (history + [event])[..|history|] == history;
  }

  lemma AppendEvent(history: seq<Event>, event: Event)
    requires HistorySound(history)
    requires event.Linked? ==>
               var prior := LastEvent(history, event.user);
               && prior.Some? && prior.value.Registered? && prior.value.entry.code == event.code
               && prior.value.entry.target == event.principal && event.at < prior.value.entry.expires
    ensures HistorySound(history + [event])
  {
    var all := history + [event];
    assert all[..|history|] == history;
    forall i | 0 <= i < |all| ensures LinkIsCovered(all, i) {
      if i < |history| {
        assert all[..i] == history[..i] && LinkIsCovered(history, i);
      }
    }
  }

  lemma RedeemKeeps(s: Accounts, caller: Principal, code: string, now: nat)
    requires CodesPending(s.profiles.Keys, s.codes, s.history) && HistorySound(s.history)
    ensures var s' := Redeem(s, caller, code, now).0;
            CodesPending(s.profiles.Keys, s'.codes, s'.history) && HistorySound(s'.history)
  {
    hide HistorySound;
    var live := Live(s.codes, now);
    var (s', ok) := Redeem(s, caller, code, now);
    if ok {
      var user := First(live, code).value;
      var event := Linked(user, code, caller, now);
      assert LastEvent(s.history, user) == Some(Registered(user, s.codes[user]));
      AppendEvent(s.history, event);
      forall u ensures LastEvent(s'.history, u) == if u == user then Some(event) else LastEvent(s.history, u) {
        LastAfterAppend(s.history, event, u);
      }
    }
  }

  // --- Runs ---

  lemma StepKeepsSound(e: EmailRules, controllers: set<Principal>, s: Accounts, c: Call)
    requires Proper(e) && Sound(e, s) && Fresh(s, c)
    ensures Sound(e, Apply(e, controllers, s, c).0)
  {
    hide Proper, StatePrincipalsSound, EmailsExact, StatsExact, CodesPending, HistorySound, Apply, Fresh;
    StepKeepsPrincipals(e, controllers, s, c);
    StepKeepsEmails(e, controllers, s, c);
    StepKeepsStats(e, controllers, s, c);
    StepKeepsCodes(e, controllers, s, c);
  }

  ghost function Run(e: EmailRules, controllers: set<Principal>, calls: seq<Call>): Accounts {
    if calls == [] then EMPTY
    else Apply(e, controllers, Run(e, controllers, calls[..|calls| - 1]), calls[|calls| - 1]).0
  }

  ghost predicate FreshIds(e: EmailRules, controllers: set<Principal>, calls: seq<Call>) {
    calls == [] ||
    (FreshIds(e, controllers, calls[..|calls| - 1]) &&
      Fresh(Run(e, controllers, calls[..|calls| - 1]), calls[|calls| - 1]))
  }

  // Over every run the principal indexes stay inverse and disjoint from the service principals,
  // every user keeps a principal, the email index and the counters stay exact, and link codes are
  // redeemed only as they were registered.
  lemma {:induction false} RunKeepsSound(e: EmailRules, controllers: set<Principal>, calls: seq<Call>)
    requires Proper(e) && FreshIds(e, controllers, calls)
    ensures Sound(e, Run(e, controllers, calls))
  {
    if calls == [] {
      assert Sound(e, EMPTY);
    } else {
      hide Proper, Sound, Apply, Fresh;
      RunKeepsSound(e, controllers, calls[..|calls| - 1]);
      StepKeepsSound(e, controllers, Run(e, controllers, calls[..|calls| - 1]), calls[|calls| - 1]);
    }
  }

  // The caller is linked to an active user who holds the flag.
  ghost predicate HoldsAsUser(s: Accounts, caller: Principal, flag: StaffPermission) {
    exists user :: (user, caller) in s.links && user in s.profiles && s.profiles[user].active &&
      s.profiles[user].staff.Some? && flag in s.profiles[user].staff.value
  }

  // In every sound state a caller's staff flags are the union of what they hold as controller, as
  // service principal and as active user: since users and services are disjoint, the order in which
  // the three are consulted does not matter, and the principals of an inactive user hold nothing.
  lemma StaffAuthorityIs(s: Accounts, controllers: set<Principal>, caller: Principal)
    requires StatePrincipalsSound(s)
    ensures forall flag :: flag in CallerStaff(s, controllers, caller) <==>
              && caller != ANONYMOUS
              && (|| caller in controllers
                  || (caller in s.services && flag in s.services[caller])
                  || HoldsAsUser(s, caller, flag))
    ensures forall user | (user, caller) in s.links && user in s.profiles && !s.profiles[user].active ::
              caller !in controllers ==> CallerStaff(s, controllers, caller) == {}
  {
    forall flag
      ensures HoldsAsUser(s, caller, flag) <==>
              && caller in s.principals && s.profiles[s.principals[caller]].active
              && flag in StaffOf(s, s.principals[caller])
    {
      if caller in s.principals {
        assert (s.principals[caller], caller) in s.links;
      }
    }
    forall flag: StaffPermission ensures flag in ALL_STAFF_PERMISSIONS {
      match flag
      case ReadAllOrgs =>
      case WriteBilling =>
      case ManageUsers =>
      case ReadMetrics =>
    }
    assert caller in s.services ==> caller !in s.principals;
  }

  lemma {:induction false} LastEventIs(history: seq<Event>, user: UserId)
    requires LastEvent(history, user).Some?
    ensures exists k :: 0 <= k < |history| && history[k] == LastEvent(history, user).value && history[k].user == user
                        && forall i :: k < i < |history| ==> history[i].user != user
  {
    var n := |history| - 1;
    if history[n].user != user {
      LastEventIs(history[..n], user);
      var k :| 0 <= k < n && history[..n][k] == LastEvent(history, user).value && history[..n][k].user == user
               && forall i :: k < i < n ==> history[..n][i].user != user;
      assert history[k] == history[..n][k];
      forall i | k < i < |history| ensures history[i].user != user {
        assert i < n ==> history[i] == history[..n][i];
      }
    } else {
      assert history[n].user == user;
    }
  }

  // Every link made with a code redeems one registration of its user: with the same code, by the
  // bound principal, before expiry, and with no other link or registration of the user in between.
  // So a registration links at most once.
  lemma EachCodeLinksAtMostOnce(e: EmailRules, controllers: set<Principal>, calls: seq<Call>, i: nat)
    requires Proper(e) && FreshIds(e, controllers, calls)
    requires i < |Run(e, controllers, calls).history| && Run(e, controllers, calls).history[i].Linked?
    ensures var h := Run(e, controllers, calls).history;
            exists k :: 0 <= k < i && h[k].Registered? && h[k].user == h[i].user && h[k].entry.code == h[i].code
                        && h[k].entry.target == h[i].principal && h[i].at < h[k].entry.expires
                        && forall j :: k < j < i ==> h[j].user != h[i].user
  {
    RunKeepsSound(e, controllers, calls);
    var h := Run(e, controllers, calls).history;
    hide Run, FreshIds, PrincipalsSound, EmailsExact, StatsExact, CodesPending;
    assert LinkIsCovered(h, i);
    LastEventIs(h[..i], h[i].user);
    var k :| 0 <= k < i && h[..i][k] == LastEvent(h[..i], h[i].user).value && h[..i][k].user == h[i].user
             && forall j :: k < j < i ==> h[..i][j].user != h[i].user;
    assert h[k] == h[..i][k];
    forall j | k < j < i ensures h[j].user != h[i].user {
      assert h[j] == h[..i][j];
    }
  }

  // A pending code can be redeemed by its target exactly when it has not expired, no user with a
  // smaller id has the same code pending, and the target is still unclaimed.
  lemma RedeemableIff(e: EmailRules, controllers: set<Principal>, s: Accounts, user: UserId, now: nat)
    requires Sound(e, s) && user in s.codes && s.codes[user].target != ANONYMOUS
    ensures var entry := s.codes[user];
            var (s', ok) := Apply(e, controllers, s, LinkWithCode(entry.target, entry.code, now));
            (ok && (user, entry.target) in s'.links && entry.target !in s.principals) <==>
              && now < entry.expires && Unclaimed(s, entry.target)
              && forall u :: u in s.codes && u < user ==> s.codes[u].code != entry.code || s.codes[u].expires <= now
  {
    hide EmailsExact, StatsExact, HistorySound;
    var entry := s.codes[user];
    var live := Live(s.codes, now);
    FirstIff(s.codes, user, now);
    if IsFirst(live, entry.code, user) {
      FirstIs(live, entry.code, user);
    } else {
      assert First(live, entry.code) != Some(user);
      assert entry.target !in s.principals ==> (user, entry.target) !in s.links;
    }
  }

  lemma FirstIff(codes: Codes, user: UserId, now: nat)
    requires user in codes
    ensures IsFirst(Live(codes, now), codes[user].code, user) <==>
              && now < codes[user].expires
              && forall u :: u in codes && u < user ==> codes[u].code != codes[user].code || codes[u].expires <= now
  {
    var live := Live(codes, now);
    assert forall u :: u in live <==> u in codes && codes[u].expires > now;
  }

  lemma FirstIsPending(codes: Codes, code: string)
    requires First(codes, code).Some?
    ensures IsFirst(codes, code, First(codes, code).value)
  {
  }

  lemma FirstIs(codes: Codes, code: string, user: UserId)
    requires IsFirst(codes, code, user)
    ensures First(codes, code) == Some(user)
  {
    var other := First(codes, code).value;
    assert IsFirst(codes, code, other);
  }
}
