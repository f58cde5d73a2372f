/** Organisations, teams and projects: their indexes, and every message that changes them. */
module Workspace {
  import opened Primitives

  datatype OrgPermission = OrgAdmin | MemberManage | TeamManage | ProjectCreate | BillingManage
  type OrgPermissions = set<OrgPermission>

  datatype ProjectPermission =
    | ProjectAdmin | CanisterManage | ProposalCreate | ProposalApprove
    | CanisterOperate | CanisterRead | ApprovalPolicyManage | ProjectSettings
  type ProjectPermissions = set<ProjectPermission>

  const ALL_ORG_PERMISSIONS: OrgPermissions := {OrgAdmin, MemberManage, TeamManage, ProjectCreate, BillingManage}
  const ALL_PROJECT_PERMISSIONS: ProjectPermissions :=
    {ProjectAdmin, CanisterManage, ProposalCreate, ProposalApprove,
     CanisterOperate, CanisterRead, ApprovalPolicyManage, ProjectSettings}

  const MAX_ORGS_PER_USER := 20
  const MAX_TEAMS_PER_ORG := 50
  const MAX_PROJECTS_PER_ORG := 50

  type Links = set<(nat, nat)>

  datatype Orgs = Orgs(orgs: set<OrgId>, orgUsers: Links, userOrgs: Links)

  datatype Teams = Teams(
    teams: map<TeamId, OrgId>, teamUsers: Links, userTeams: Links, orgTeams: map<(OrgId, TeamId), OrgPermissions>)

  datatype Projects = Projects(
    projects: map<ProjectId, OrgId>, orgProjects: Links,
    projectTeams: map<(ProjectId, TeamId), ProjectPermissions>,
    teamProjects: map<(TeamId, ProjectId), ProjectPermissions>)

  // `invited` holds the organisations that an invite was ever created for.
  datatype State = State(o: Orgs, t: Teams, p: Projects, invited: set<OrgId>)

  const EMPTY_ORGS := Orgs({}, {}, {})
  const EMPTY_TEAMS := Teams(map[], {}, {}, map[])
  const EMPTY_PROJECTS := Projects(map[], {}, map[], map[])
  const EMPTY := State(EMPTY_ORGS, EMPTY_TEAMS, EMPTY_PROJECTS, {})

  function Flip(links: Links): (r: Links)
    ensures forall a, b :: (b, a) in r <==> (a, b) in links
  {
    set e | e in links :: (e.1, e.0)
  }

  // The entries of an index whose first component is `id`: the source's range queries.
  function From(links: Links, id: nat): (r: Links)
    ensures forall a, b :: (a, b) in r <==> a == id && (a, b) in links
  {
    set e | e in links && e.0 == id
  }

  function Pairs(id: nat, others: set<nat>): (r: Links)
    ensures forall a, b :: (a, b) in r <==> a == id && b in others
  {
    set other | other in others :: (id, other)
  }

  function Constant<K, V>(keys: set<K>, value: V): (r: map<K, V>)
    ensures r.Keys == keys && forall k :: k in keys ==> r[k] == value
  {
    map k | k in keys :: value
  }

  // --- Organisation repository ---

  function AddOrg(o: Orgs, org: OrgId, user: UserId): Orgs {
    AddMember(o.(orgs := o.orgs + {org}), org, user)
  }

  function AddMember(o: Orgs, org: OrgId, user: UserId): Orgs {
    o.(orgUsers := o.orgUsers + {(org, user)}, userOrgs := o.userOrgs + {(user, org)})
  }

  function RemoveOrg(o: Orgs, org: OrgId): Orgs {
    var members := From(o.orgUsers, org);
    Orgs(o.orgs - {org}, o.orgUsers - members, o.userOrgs - Flip(members))
  }

  // --- Team repository ---

  function AddTeam(t: Teams, team: TeamId, user: UserId, org: OrgId, permissions: OrgPermissions): Teams {
    Teams(t.teams[team := org], t.teamUsers + {(team, user)}, t.userTeams + {(user, team)},
          t.orgTeams[(org, team) := permissions])
  }

  function RemoveTeam(t: Teams, team: TeamId, org: OrgId): Teams {
    var members := From(t.teamUsers, team);
    Teams(t.teams - {team}, t.teamUsers - members, t.userTeams - Flip(members), t.orgTeams - {(org, team)})
  }

  function TeamsOf(t: Teams, org: OrgId): Links {
    From(t.orgTeams.Keys, org)
  }

  function Targets(links: Links): set<nat> {
    set k | k in links :: k.1
  }

  function MembersOf(teamUsers: Links, teams: set<TeamId>): Links {
    set e | e in teamUsers && e.0 in teams
  }

  function RemoveOrgTeams(t: Teams, org: OrgId): Teams {
    var gone := Targets(TeamsOf(t, org));
    var members := MembersOf(t.teamUsers, gone);
    Teams(t.teams - gone, t.teamUsers - members, t.userTeams - Flip(members), t.orgTeams - TeamsOf(t, org))
  }

  function AddToTeam(t: Teams, user: UserId, team: TeamId): Teams {
    t.(teamUsers := t.teamUsers + {(team, user)}, userTeams := t.userTeams + {(user, team)})
  }

  function RemoveFromTeam(t: Teams, user: UserId, team: TeamId): Teams {
    t.(teamUsers := t.teamUsers - {(team, user)}, userTeams := t.userTeams - {(user, team)})
  }

  function SetOrgTeamPermissions(t: Teams, org: OrgId, team: TeamId, permissions: OrgPermissions): Teams {
    if (org, team) in t.orgTeams then t.(orgTeams := t.orgTeams[(org, team) := permissions]) else t
  }

  predicate IsMember(t: Teams, user: UserId, team: TeamId) {
    (team, user) in t.teamUsers
  }

  // Some team of the organisation other than `excluded` holds ORG_ADMIN and has a member.
  predicate PopulatedWithoutTeam(t: Teams, org: OrgId, excluded: TeamId) {
    exists k :: k in t.orgTeams && k.0 == org && k.1 != excluded && OrgAdmin in t.orgTeams[k]
             && exists m :: m in t.teamUsers && m.0 == k.1
  }

  // Some team of the organisation holds ORG_ADMIN and has a member even without `user` in `team`.
  predicate PopulatedWithoutMember(t: Teams, org: OrgId, team: TeamId, user: UserId) {
    exists k :: k in t.orgTeams && k.0 == org && OrgAdmin in t.orgTeams[k]
             && exists m :: m in t.teamUsers && m.0 == k.1 && m != (team, user)
  }

  // The user holds the flag through one of their teams in the organisation.
  ghost predicate Holds(t: Teams, user: UserId, org: OrgId, flag: OrgPermission) {
    exists team :: (user, team) in t.userTeams && (org, team) in t.orgTeams && flag in t.orgTeams[(org, team)]
  }

  ghost predicate HoldsAll(t: Teams, user: UserId, org: OrgId, flags: OrgPermissions) {
    forall flag :: flag in flags ==> Holds(t, user, org, flag)
  }

  function UserTeamsIn(t: Teams, user: UserId, org: OrgId): set<TeamId> {
    set e | e in t.userTeams && e.0 == user && (org, e.1) in t.orgTeams :: e.1
  }

  // --- Project repository ---

  function AddProject(p: Projects, project: ProjectId, org: OrgId): Projects {
    p.(projects := p.projects[project := org], orgProjects := p.orgProjects + {(org, project)})
  }

  function LinkTeam(p: Projects, team: TeamId, project: ProjectId, permissions: ProjectPermissions): Projects {
    p.(projectTeams := p.projectTeams[(project, team) := permissions],
       teamProjects := p.teamProjects[(team, project) := permissions])
  }

  function LinkTeams(p: Projects, teams: set<TeamId>, project: ProjectId): Projects {
    p.(projectTeams := p.projectTeams + Constant(Pairs(project, teams), ALL_PROJECT_PERMISSIONS),
       teamProjects := p.teamProjects + Constant(Flip(Pairs(project, teams)), ALL_PROJECT_PERMISSIONS))
  }

  function UnlinkTeam(p: Projects, team: TeamId, project: ProjectId): Projects {
    p.(projectTeams := p.projectTeams - {(project, team)}, teamProjects := p.teamProjects - {(team, project)})
  }

  function RemoveProject(p: Projects, project: ProjectId, org: OrgId): Projects {
    var links := From(p.projectTeams.Keys, project);
    Projects(p.projects - {project}, p.orgProjects - {(org, project)}, p.projectTeams - links,
      p.teamProjects - Flip(links))
  }

  function RemoveTeamLinks(p: Projects, team: TeamId): Projects {
    var links := From(p.teamProjects.Keys, team);
    p.(projectTeams := p.projectTeams - Flip(links), teamProjects := p.teamProjects - links)
  }

  function SetProjectTeamPermissions(
    p: Projects, project: ProjectId, team: TeamId, permissions: ProjectPermissions): Projects
  {
    if (project, team) in p.projectTeams then LinkTeam(p, team, project, permissions) else p
  }

  ghost predicate HoldsOnProject(t: Teams, p: Projects, user: UserId, project: ProjectId, flag: ProjectPermission) {
    exists team :: (user, team) in t.userTeams && (project, team) in p.projectTeams &&
      flag in p.projectTeams[(project, team)]
  }

  ghost predicate HoldsAllOnProject(t: Teams, p: Projects, user: UserId, project: ProjectId,
    flags: ProjectPermissions) {
    forall flag :: flag in flags ==> HoldsOnProject(t, p, user, project, flag)
  }

  ghost predicate HasLink(t: Teams, p: Projects, user: UserId, project: ProjectId) {
    exists team :: (user, team) in t.userTeams && (project, team) in p.projectTeams
  }

  // --- Access control ---

  ghost predicate OrgAuth(s: State, user: UserId, org: OrgId, needed: OrgPermissions) {
    (org, user) in s.o.orgUsers && HoldsAll(s.t, user, org, needed)
  }

  ghost predicate TeamAuth(s: State, user: UserId, team: TeamId, needed: OrgPermissions) {
    team in s.t.teams && OrgAuth(s, user, s.t.teams[team], needed)
  }

  ghost predicate ProjectAuth(s: State, user: UserId, project: ProjectId, needed: ProjectPermissions) {
    && project in s.p.projects && (s.p.projects[project], user) in s.o.orgUsers
    && HasLink(s.t, s.p, user, project) && HoldsAllOnProject(s.t, s.p, user, project, needed)
  }

  // --- Messages ---

  // Fresh ids are part of the call that draws them.
  datatype Call =
    | CreateProfile(user: UserId, org: OrgId, team: TeamId, project: ProjectId)
    | CreateOrganization(user: UserId, org: OrgId, team: TeamId, project: ProjectId)
    | DeleteOrganization(user: UserId, org: OrgId)
    | Invite(user: UserId, org: OrgId)
    | AcceptInvite(user: UserId, org: OrgId)
    | CreateTeam(user: UserId, org: OrgId, team: TeamId)
    | DeleteTeam(user: UserId, team: TeamId)
    | AddUserToTeam(user: UserId, target: UserId, team: TeamId)
    | RemoveUserFromTeam(user: UserId, target: UserId, team: TeamId)
    | UpdateTeamOrgPermissions(user: UserId, team: TeamId, orgPermissions: OrgPermissions)
    | CreateProject(user: UserId, org: OrgId, project: ProjectId)
    | DeleteProject(user: UserId, project: ProjectId, hasCanisters: bool)
    | AddTeamToProject(user: UserId, project: ProjectId, team: TeamId)
    | RemoveTeamFromProject(user: UserId, project: ProjectId, team: TeamId)
    | UpdateTeamProjectPermissions(user: UserId, project: ProjectId, team: TeamId,
      projectPermissions: ProjectPermissions)

  ghost predicate Fresh(s: State, c: Call) {
    && (c.CreateProfile? || c.CreateOrganization? ==> c.org !in s.o.orgs)
    && (c.CreateProfile? || c.CreateOrganization? || c.CreateTeam? ==> c.team !in s.t.teams)
    && (c.CreateProfile? || c.CreateOrganization? || c.CreateProject? ==> c.project !in s.p.projects)
  }

  // A new organisation starts with a default team holding every permission and a default project.
  function Bootstrap(s: State, user: UserId, org: OrgId, team: TeamId, project: ProjectId): State {
    State(
      AddOrg(s.o, org, user),
      AddTeam(s.t, team, user, org, ALL_ORG_PERMISSIONS),
      LinkTeam(AddProject(s.p, project, org), team, project, ALL_PROJECT_PERMISSIONS),
      s.invited)
  }

  ghost function Apply(s: State, c: Call): Result<State> {
    match c
    case CreateProfile(user, org, team, project) => Ok(Bootstrap(s, user, org, team, project))
    case CreateOrganization(user, org, team, project) =>
      if |From(s.o.userOrgs, user)| >= MAX_ORGS_PER_USER then Err else Ok(Bootstrap(s, user, org, team, project))
    case DeleteOrganization(user, org) =>
      if !OrgAuth(s, user, org, {OrgAdmin}) then Err
      else if |From(s.o.userOrgs, user)| < 2 then Err
      else if From(s.p.orgProjects, org) != {} then Err
      else Ok(s.(o := RemoveOrg(s.o, org), t := RemoveOrgTeams(s.t, org)))
    case Invite(user, org) =>
      if !OrgAuth(s, user, org, {MemberManage}) then Err else Ok(s.(invited := s.invited + {org}))
    case AcceptInvite(user, org) =>
      if org !in s.invited then Err
      else if (org, user) in s.o.orgUsers then Ok(s)
      else Ok(s.(o := AddMember(s.o, org, user)))
    case CreateTeam(user, org, team) =>
      if !OrgAuth(s, user, org, {TeamManage}) then Err
      else if |TeamsOf(s.t, org)| >= MAX_TEAMS_PER_ORG then Err
      else Ok(s.(t := AddTeam(s.t, team, user, org, ALL_ORG_PERMISSIONS)))
    case DeleteTeam(user, team) =>
      if !TeamAuth(s, user, team, {TeamManage}) then Err
      else
        var org := s.t.teams[team];
        if |TeamsOf(s.t, org)| < 2 then Err
        else if From(s.p.teamProjects.Keys, team) != {} then Err
        else if !PopulatedWithoutTeam(s.t, org, team) then Err
        else Ok(s.(p := RemoveTeamLinks(s.p, team), t := RemoveTeam(s.t, team, org)))
    case AddUserToTeam(user, target, team) =>
      if !TeamAuth(s, user, team, {MemberManage}) then Err
      else
        var org := s.t.teams[team];
        if (org, target) !in s.o.orgUsers then Err
        else if !HoldsAll(s.t, user, org, if (org, team) in s.t.orgTeams then s.t.orgTeams[(org, team)] else {})
          then Err
        else if IsMember(s.t, target, team) then Ok(s)
        else Ok(s.(t := AddToTeam(s.t, target, team)))
    case RemoveUserFromTeam(user, target, team) =>
      if !TeamAuth(s, user, team, {MemberManage}) then Err
      else if !IsMember(s.t, target, team) then Ok(s)
      else if !PopulatedWithoutMember(s.t, s.t.teams[team], team, target) then Err
      else Ok(s.(t := RemoveFromTeam(s.t, target, team)))
    case UpdateTeamOrgPermissions(user, team, permissions) =>
      if !TeamAuth(s, user, team, {OrgAdmin}) then Err
      else
        var org := s.t.teams[team];
        if !HoldsAll(s.t, user, org, permissions) then Err
        else if OrgAdmin !in permissions && !PopulatedWithoutTeam(s.t, org, team) then Err
        else Ok(s.(t := SetOrgTeamPermissions(s.t, org, team, permissions)))
    case CreateProject(user, org, project) =>
      if !OrgAuth(s, user, org, {ProjectCreate}) then Err
      else if |From(s.p.orgProjects, org)| >= MAX_PROJECTS_PER_ORG then Err
      else Ok(s.(p := LinkTeams(AddProject(s.p, project, org), UserTeamsIn(s.t, user, org), project)))
    case DeleteProject(user, project, hasCanisters) =>
      if !ProjectAuth(s, user, project, {ProjectAdmin}) then Err
      else if |From(s.p.orgProjects, s.p.projects[project])| < 2 then Err
      else if hasCanisters then Err
      else Ok(s.(p := RemoveProject(s.p, project, s.p.projects[project])))
    case AddTeamToProject(user, project, team) =>
      if !ProjectAuth(s, user, project, {ProjectAdmin}) then Err
      else if !(team in s.t.teams && s.t.teams[team] == s.p.projects[project]) then Err
      else if (project, team) in s.p.projectTeams then Ok(s)
      else Ok(s.(p := LinkTeam(s.p, team, project, ALL_PROJECT_PERMISSIONS)))
    case RemoveTeamFromProject(user, project, team) =>
      if !ProjectAuth(s, user, project, {ProjectAdmin}) then Err
      else if (project, team) !in s.p.projectTeams then Ok(s)
      else if |From(s.p.projectTeams.Keys, project)| < 2 then Err
      else Ok(s.(p := UnlinkTeam(s.p, team, project)))
    case UpdateTeamProjectPermissions(user, project, team, permissions) =>
      if !ProjectAuth(s, user, project, {ProjectAdmin}) then Err
      else if !(team in s.t.teams && s.t.teams[team] == s.p.projects[project]) then Err
      else if (project, team) !in s.p.projectTeams then Err
      else if !HoldsAllOnProject(s.t, s.p, user, project, permissions) then Err
      else Ok(s.(p := SetProjectTeamPermissions(s.p, project, team, permissions)))
  }

  // A refused message changes nothing: every guard comes before the first write.
  ghost function Next(s: State, c: Call): State {
    match Apply(s, c)
    case Ok(s') => s'
    case Err => s
  }

  ghost function Run(calls: seq<Call>): State {
    if calls == [] then EMPTY else Next(Run(calls[..|calls| - 1]), calls[|calls| - 1])
  }

  // Every call of the run draws ids that are not in use when it is made.
  ghost predicate FreshIds(calls: seq<Call>) {
    calls == [] || (FreshIds(calls[..|calls| - 1]) && Fresh(Run(calls[..|calls| - 1]), calls[|calls| - 1]))
  }

  // --- What every state keeps ---

  ghost predicate OrgsSound(o: Orgs, invited: set<OrgId>) {
    && invited <= o.orgs
    && (forall org, user :: (org, user) in o.orgUsers <==> (user, org) in o.userOrgs)
    && (forall org, user :: (org, user) in o.orgUsers ==> org in o.orgs)
  }

  // The two membership indexes mirror each other, the permission index lists every team exactly
  // under its own organisation, and a team's members are members of its organisation.
  ghost predicate TeamsSound(o: Orgs, t: Teams) {
    && (forall team, user :: (team, user) in t.teamUsers <==> (user, team) in t.userTeams)
    && (forall org, team :: (org, team) in t.orgTeams <==> team in t.teams && t.teams[team] == org)
    && (forall team :: team in t.teams ==> t.teams[team] in o.orgs)
    && (forall team, user :: (team, user) in t.teamUsers ==> team in t.teams && (t.teams[team], user) in o.orgUsers)
  }

  // The two permission indexes mirror each other, the project index lists every project exactly
  // under its own organisation, and a project's teams belong to its organisation.
  ghost predicate ProjectsSound(orgs: set<OrgId>, teams: map<TeamId, OrgId>, p: Projects) {
    && (forall project, team :: (project, team) in p.projectTeams <==> (team, project) in p.teamProjects)
    && (forall project, team :: (project, team) in p.projectTeams ==>
          p.projectTeams[(project, team)] == p.teamProjects[(team, project)])
    && (forall org, project :: (org, project) in p.orgProjects <==> project in p.projects && p.projects[project] == org)
    && (forall project :: project in p.projects ==> p.projects[project] in orgs)
    && (forall project, team :: (project, team) in p.projectTeams ==>
          project in p.projects && team in teams && teams[team] == p.projects[project])
  }

  ghost predicate Administers(t: Teams, org: OrgId, team: TeamId, user: UserId) {
    (org, team) in t.orgTeams && OrgAdmin in t.orgTeams[(org, team)] && (team, user) in t.teamUsers
  }

  ghost predicate Administered(t: Teams, org: OrgId) {
    exists team, user :: Administers(t, org, team, user)
  }

  ghost predicate HasProject(p: Projects, org: OrgId) {
    exists project :: (org, project) in p.orgProjects
  }

  ghost predicate HasTeam(p: Projects, project: ProjectId) {
    exists team :: (project, team) in p.projectTeams
  }

  ghost predicate AllAdministered(orgs: set<OrgId>, t: Teams) {
    forall org :: org in orgs ==> Administered(t, org)
  }

  ghost predicate AllStaffed(orgs: set<OrgId>, p: Projects) {
    && (forall org :: org in orgs ==> HasProject(p, org))
    && (forall project :: project in p.projects ==> HasTeam(p, project))
  }

  ghost predicate Sound(s: State) {
    && OrgsSound(s.o, s.invited) && TeamsSound(s.o, s.t) && ProjectsSound(s.o.orgs, s.t.teams, s.p)
    && AllAdministered(s.o.orgs, s.t) && AllStaffed(s.o.orgs, s.p)
  }

  // --- Preservation, component by component ---

  // Nothing that refers to organisations or teams minds more of them.
  lemma MoreOrgs(o: Orgs, o': Orgs, t: Teams, p: Projects)
    requires TeamsSound(o, t) && ProjectsSound(o.orgs, t.teams, p)
    requires o.orgs <= o'.orgs && o.orgUsers <= o'.orgUsers
    ensures TeamsSound(o', t) && ProjectsSound(o'.orgs, t.teams, p)
  {
  }

  lemma MoreTeams(orgs: set<OrgId>, t: Teams, p: Projects, team: TeamId, org: OrgId)
    requires ProjectsSound(orgs, t.teams, p) && team !in t.teams
    ensures ProjectsSound(orgs, t.teams[team := org], p)
  {
  }

  lemma StillAdministered(orgs: set<OrgId>, t: Teams, t': Teams)
    requires AllAdministered(orgs, t) && t.teamUsers <= t'.teamUsers
    requires forall k :: k in t.orgTeams ==>
             k in t'.orgTeams && (OrgAdmin in t.orgTeams[k] ==> OrgAdmin in t'.orgTeams[k])
    ensures AllAdministered(orgs, t')
  {
    forall org | org in orgs ensures Administered(t', org) {
      assert Administered(t, org);
      var team, user :| Administers(t, org, team, user);
      assert Administers(t', org, team, user);
    }
  }

  // Only `home` lost anything, and it has another populated team.
  lemma AdministeredElsewhere(orgs: set<OrgId>, t: Teams, t': Teams, home: OrgId, team: TeamId, user: UserId)
    requires AllAdministered(orgs, t) && Administers(t', home, team, user)
    requires forall org, other, member :: org != home && Administers(t, org, other, member) ==>
             Administers(t', org, other, member)
    ensures AllAdministered(orgs, t')
  {
    forall org | org in orgs ensures Administered(t', org) {
      assert Administered(t, org);
      var other, member :| Administers(t, org, other, member);
      assert org != home ==> Administers(t', org, other, member);
    }
  }

  // The team is added to an organisation of `orgs` or to the one that has just been created.
  lemma AddTeamKeeps(orgs: set<OrgId>, o: Orgs, t: Teams, team: TeamId, user: UserId, org: OrgId)
    requires TeamsSound(o, t) && AllAdministered(orgs, t) && team !in t.teams
    requires o.orgs == orgs + {org} && (org, user) in o.orgUsers
    ensures var t' := AddTeam(t, team, user, org, ALL_ORG_PERMISSIONS);
            TeamsSound(o, t') && AllAdministered(o.orgs, t') && t'.teams == t.teams[team := org]
  {
    var t' := AddTeam(t, team, user, org, ALL_ORG_PERMISSIONS);
    AddTeamSound(o, t, team, user, org);
    hide TeamsSound;
    StillAdministered(orgs, t, t');
    assert Administers(t', org, team, user);
  }

  lemma AddTeamSound(o: Orgs, t: Teams, team: TeamId, user: UserId, org: OrgId)
    requires TeamsSound(o, t) && team !in t.teams && org in o.orgs && (org, user) in o.orgUsers
    ensures TeamsSound(o, AddTeam(t, team, user, org, ALL_ORG_PERMISSIONS))
    ensures (org, team) !in t.orgTeams
  {
  }

  lemma RemoveTeamKeeps(o: Orgs, t: Teams, team: TeamId, org: OrgId)
    requires TeamsSound(o, t) && AllAdministered(o.orgs, t) && team in t.teams && t.teams[team] == org
    requires PopulatedWithoutTeam(t, org, team)
    ensures var t' := RemoveTeam(t, team, org); TeamsSound(o, t') && AllAdministered(o.orgs, t')
  {
    var t' := RemoveTeam(t, team, org);
    RemoveTeamSound(o, t, team, org);
    var k, m := PopulatedWitness(t, org, team);
    assert (k.0, k.1) == k && (m.0, m.1) == m;
    AdministeredElsewhere(o.orgs, t, t', org, k.1, m.1) by {
      hide AllAdministered;
      assert Administers(t', org, k.1, m.1);
      forall o', other, member | o' != org && Administers(t, o', other, member)
        ensures Administers(t', o', other, member)
      {
        assert other != team;
      }
    }
  }

  lemma RemoveTeamSound(o: Orgs, t: Teams, team: TeamId, org: OrgId)
    requires TeamsSound(o, t) && team in t.teams && t.teams[team] == org
    ensures TeamsSound(o, RemoveTeam(t, team, org))
  {
  }

  lemma PopulatedWitness(t: Teams, org: OrgId, excluded: TeamId) returns (k: (nat, nat), m: (nat, nat))
    requires PopulatedWithoutTeam(t, org, excluded)
    ensures k in t.orgTeams && k.0 == org && k.1 != excluded && OrgAdmin in t.orgTeams[k]
    ensures m in t.teamUsers && m.0 == k.1
  {
    k :| k in t.orgTeams && k.0 == org && k.1 != excluded && OrgAdmin in t.orgTeams[k]
         && exists m :: m in t.teamUsers && m.0 == k.1;
    m :| m in t.teamUsers && m.0 == k.1;
  }

  lemma AddToTeamKeeps(o: Orgs, t: Teams, user: UserId, team: TeamId)
    requires TeamsSound(o, t) && AllAdministered(o.orgs, t)
    requires team in t.teams && (t.teams[team], user) in o.orgUsers
    ensures TeamsSound(o, AddToTeam(t, user, team)) && AllAdministered(o.orgs, AddToTeam(t, user, team))
  {
    StillAdministered(o.orgs, t, AddToTeam(t, user, team)) by { hide TeamsSound; }
  }

  lemma RemoveFromTeamKeeps(o: Orgs, t: Teams, user: UserId, team: TeamId)
    requires TeamsSound(o, t) && AllAdministered(o.orgs, t) && team in t.teams
    requires PopulatedWithoutMember(t, t.teams[team], team, user)
    ensures TeamsSound(o, RemoveFromTeam(t, user, team)) && AllAdministered(o.orgs, RemoveFromTeam(t, user, team))
  {
    hide TeamsSound, AllAdministered;
    RemoveFromTeamSound(o, t, user, team);
    var t', home := RemoveFromTeam(t, user, team), t.teams[team];
    var k :| k in t.orgTeams && k.0 == home && OrgAdmin in t.orgTeams[k]
             && exists m :: m in t.teamUsers && m.0 == k.1 && m != (team, user);
    var m :| m in t.teamUsers && m.0 == k.1 && m != (team, user);
    assert (k.0, k.1) == k && (m.0, m.1) == m;
    forall org, other, member | org != home && Administers(t, org, other, member)
      ensures Administers(t', org, other, member)
    {
      OwnOrg(o, t, org, other);
    }
    AdministeredElsewhere(o.orgs, t, t', home, k.1, m.1);
  }

  lemma RemoveFromTeamSound(o: Orgs, t: Teams, user: UserId, team: TeamId)
    requires TeamsSound(o, t)
    ensures TeamsSound(o, RemoveFromTeam(t, user, team))
  {
  }

  lemma OwnOrg(o: Orgs, t: Teams, org: OrgId, team: TeamId)
    requires TeamsSound(o, t) && (org, team) in t.orgTeams
    ensures team in t.teams && t.teams[team] == org
  {
  }

  lemma SetPermissionsKeeps(o: Orgs, t: Teams, team: TeamId, permissions: OrgPermissions)
    requires TeamsSound(o, t) && AllAdministered(o.orgs, t) && team in t.teams
    requires OrgAdmin in permissions || PopulatedWithoutTeam(t, t.teams[team], team)
    ensures var t' := SetOrgTeamPermissions(t, t.teams[team], team, permissions);
            TeamsSound(o, t') && AllAdministered(o.orgs, t')
  {
    var home := t.teams[team];
    var t' := SetOrgTeamPermissions(t, home, team, permissions);
    SetPermissionsSound(o, t, team, permissions);
    hide TeamsSound, AllAdministered, PopulatedWithoutTeam;
    if OrgAdmin in permissions {
      StillAdministered(o.orgs, t, t');
    } else {
      var k, m := PopulatedWitness(t, home, team);
      assert (k.0, k.1) == k && (m.0, m.1) == m;
      AdministeredElsewhere(o.orgs, t, t', home, k.1, m.1);
    }
  }

  lemma SetPermissionsSound(o: Orgs, t: Teams, team: TeamId, permissions: OrgPermissions)
    requires TeamsSound(o, t) && team in t.teams
    ensures TeamsSound(o, SetOrgTeamPermissions(t, t.teams[team], team, permissions))
  {
  }

  // `org` has a project and `project` a team; everything else only gained links.
  lemma StillStaffed(before: set<OrgId>, orgs: set<OrgId>, p: Projects, p': Projects, org: OrgId, project: ProjectId)
    requires AllStaffed(before, p) && orgs <= before + {org} && HasProject(p', org) && HasTeam(p', project)
    requires p.orgProjects <= p'.orgProjects && p'.projects.Keys <= p.projects.Keys + {project}
    requires forall q, team :: q != project && (q, team) in p.projectTeams ==> (q, team) in p'.projectTeams
    ensures AllStaffed(orgs, p')
  {
    forall o | o in orgs ensures HasProject(p', o) {
      if o != org {
        assert HasProject(p, o);
        var q :| (o, q) in p.orgProjects;
        assert (o, q) in p'.orgProjects;
      }
    }
    forall q | q in p'.projects ensures HasTeam(p', q) {
      if q != project {
        assert HasTeam(p, q);
        var team :| (q, team) in p.projectTeams;
        assert (q, team) in p'.projectTeams;
      }
    }
  }

  lemma AddProjectKeeps(before: set<OrgId>, orgs: set<OrgId>, teams: map<TeamId, OrgId>, p: Projects,
                        project: ProjectId, org: OrgId, linked: set<TeamId>)
    requires ProjectsSound(orgs, teams, p) && AllStaffed(before, p)
    requires project !in p.projects && orgs == before + {org}
    requires linked != {} && forall team :: team in linked ==> team in teams && teams[team] == org
    ensures var p' := LinkTeams(AddProject(p, project, org), linked, project);
            ProjectsSound(orgs, teams, p') && AllStaffed(orgs, p')
  {
    var p' := LinkTeams(AddProject(p, project, org), linked, project);
    AddProjectSound(orgs, teams, p, project, org, linked);
    LinkTeamsLookup(AddProject(p, project, org), linked, project);
    hide ProjectsSound, LinkTeams, AllStaffed;
    var first :| first in linked;
    assert (project, first) in p'.projectTeams && (org, project) in p'.orgProjects;
    StillStaffed(before, orgs, p, p', org, project);
  }

  lemma AddProjectSound(orgs: set<OrgId>, teams: map<TeamId, OrgId>, p: Projects,
                        project: ProjectId, org: OrgId, linked: set<TeamId>)
    requires ProjectsSound(orgs, teams, p) && project !in p.projects && org in orgs
    requires forall team :: team in linked ==> team in teams && teams[team] == org
    ensures ProjectsSound(orgs, teams, LinkTeams(AddProject(p, project, org), linked, project))
  {
    hide LinkTeams;
    LinkTeamsLookup(AddProject(p, project, org), linked, project);
  }

  lemma LinkTeamsLookup(p: Projects, linked: set<TeamId>, project: ProjectId)
    ensures var p' := LinkTeams(p, linked, project);
            && p'.projects == p.projects && p'.orgProjects == p.orgProjects
            && (forall q, team :: (q, team) in p'.projectTeams <==>
                 (q, team) in p.projectTeams || (q == project && team in linked))
            && (forall q, team :: (team, q) in p'.teamProjects <==>
                 (team, q) in p.teamProjects || (q == project && team in linked))
            && (forall q, team :: (q, team) in p'.projectTeams ==> (p'.projectTeams[(q, team)] ==
                  if q == project && team in linked then ALL_PROJECT_PERMISSIONS else p.projectTeams[(q, team)]))
            && (forall q, team :: (team, q) in p'.teamProjects ==> (p'.teamProjects[(team, q)] ==
                  if q == project && team in linked then ALL_PROJECT_PERMISSIONS else p.teamProjects[(team, q)]))
  {
  }

  lemma LinkTeamKeeps(orgs: set<OrgId>, teams: map<TeamId, OrgId>, p: Projects,
                      team: TeamId, project: ProjectId, permissions: ProjectPermissions)
    requires ProjectsSound(orgs, teams, p) && AllStaffed(orgs, p)
    requires project in p.projects && team in teams && teams[team] == p.projects[project]
    ensures var p' := LinkTeam(p, team, project, permissions); ProjectsSound(orgs, teams, p') && AllStaffed(orgs, p')
  {
    var p' := LinkTeam(p, team, project, permissions);
    hide AllStaffed;
    assert ProjectsSound(orgs, teams, p');
    assert (project, team) in p'.projectTeams && (p.projects[project], project) in p'.orgProjects;
    hide ProjectsSound;
    StillStaffed(orgs, orgs, p, p', p.projects[project], project);
  }

  // A range with at least two entries has one besides any given one.
  lemma AnotherEntry(links: Links, id: nat, known: nat) returns (other: nat)
    requires |From(links, id)| >= 2
    ensures other != known && (id, other) in links
  {
    var mine := From(links, id);
    if mine <= {(id, known)} {
      SubsetSize(mine, {(id, known)});
    }
    var e :| e in mine && e != (id, known);
    other := e.1;
    assert e == (e.0, e.1);
  }

  lemma RemoveProjectKeeps(orgs: set<OrgId>, teams: map<TeamId, OrgId>, p: Projects, project: ProjectId)
    requires ProjectsSound(orgs, teams, p) && AllStaffed(orgs, p) && project in p.projects
    requires |From(p.orgProjects, p.projects[project])| >= 2
    ensures var p' := RemoveProject(p, project, p.projects[project]);
            ProjectsSound(orgs, teams, p') && AllStaffed(orgs, p')
  {
    var home := p.projects[project];
    var p' := RemoveProject(p, project, home);
    RemoveProjectSound(orgs, teams, p, project);
    RemoveProjectLeaves(p, project, home);
    var other := AnotherEntry(p.orgProjects, home, project);
    hide ProjectsSound, RemoveProject, AllStaffed, From;
    OthersStayStaffed(orgs, p, p', project, home, other);
  }

  lemma OthersStayStaffed(orgs: set<OrgId>, p: Projects, p': Projects, project: ProjectId, home: OrgId,
    other: ProjectId)
    requires AllStaffed(orgs, p) && (home, other) in p'.orgProjects
    requires p'.projects == p.projects - {project} && p'.orgProjects == p.orgProjects - {(home, project)}
    requires forall q, team :: q != project && (q, team) in p.projectTeams ==> (q, team) in p'.projectTeams
    ensures AllStaffed(orgs, p')
  {
    forall org | org in orgs ensures HasProject(p', org) {
      assert HasProject(p, org);
      if org != home {
        var q :| (org, q) in p.orgProjects;
        assert (org, q) in p'.orgProjects;
      }
    }
    forall q | q in p'.projects ensures HasTeam(p', q) {
      assert HasTeam(p, q);
      var team :| (q, team) in p.projectTeams;
      assert (q, team) in p'.projectTeams;
    }
  }

  lemma RemoveProjectLeaves(p: Projects, project: ProjectId, org: OrgId)
    ensures var p' := RemoveProject(p, project, org);
            && p'.projects == p.projects - {project} && p'.orgProjects == p.orgProjects - {(org, project)}
            && forall q, team :: q != project && (q, team) in p.projectTeams ==> (q, team) in p'.projectTeams
  {
  }

  lemma RemoveProjectSound(orgs: set<OrgId>, teams: map<TeamId, OrgId>, p: Projects, project: ProjectId)
    requires ProjectsSound(orgs, teams, p) && project in p.projects
    ensures ProjectsSound(orgs, teams, RemoveProject(p, project, p.projects[project]))
  {
  }

  lemma UnlinkTeamKeeps(orgs: set<OrgId>, teams: map<TeamId, OrgId>, p: Projects, team: TeamId, project: ProjectId)
    requires ProjectsSound(orgs, teams, p) && AllStaffed(orgs, p) && project in p.projects
    requires |From(p.projectTeams.Keys, project)| >= 2
    ensures var p' := UnlinkTeam(p, team, project); ProjectsSound(orgs, teams, p') && AllStaffed(orgs, p')
  {
    var p' := UnlinkTeam(p, team, project);
    hide AllStaffed;
    assert ProjectsSound(orgs, teams, p');
    assert (p.projects[project], project) in p'.orgProjects;
    hide ProjectsSound;
    var other := AnotherEntry(p.projectTeams.Keys, project, team);
    assert (project, other) in p'.projectTeams;
    StillStaffed(orgs, orgs, p, p', p.projects[project], project);
  }

  // Deleting a team without projects leaves the projects as they are.
  lemma UnlinkedTeam(orgs: set<OrgId>, teams: map<TeamId, OrgId>, p: Projects, team: TeamId)
    requires ProjectsSound(orgs, teams, p) && From(p.teamProjects.Keys, team) == {}
    ensures RemoveTeamLinks(p, team) == p && ProjectsSound(orgs, teams - {team}, p)
  {
    forall project ensures (project, team) !in p.projectTeams {
      assert (team, project) !in From(p.teamProjects.Keys, team);
    }
    assert Flip({}) == {};
  }

  lemma BootstrapKeeps(s: State, user: UserId, org: OrgId, team: TeamId, project: ProjectId)
    requires Sound(s) && org !in s.o.orgs && team !in s.t.teams && project !in s.p.projects
    ensures Sound(Bootstrap(s, user, org, team, project))
  {
    hide TeamsSound, ProjectsSound, AllAdministered, AllStaffed, AddTeam, AddProject, LinkTeam;
    var o, t := AddOrg(s.o, org, user), AddTeam(s.t, team, user, org, ALL_ORG_PERMISSIONS);
    MoreOrgs(s.o, o, s.t, s.p);
    hide OrgsSound;
    AddOrgSound(s.o, s.invited, org, user);
    AddTeamKeeps(s.o.orgs, o, s.t, team, user, org);
    MoreTeams(o.orgs, s.t, s.p, team, org);
    BootstrapProject(s.o.orgs, o.orgs, t.teams, s.p, project, org, team);
  }

  lemma AddOrgSound(o: Orgs, invited: set<OrgId>, org: OrgId, user: UserId)
    requires OrgsSound(o, invited)
    ensures OrgsSound(AddOrg(o, org, user), invited)
  {
  }

  lemma BootstrapProject(before: set<OrgId>, orgs: set<OrgId>, teams: map<TeamId, OrgId>, p: Projects,
                         project: ProjectId, org: OrgId, team: TeamId)
    requires ProjectsSound(orgs, teams, p) && AllStaffed(before, p) && project !in p.projects
    requires orgs == before + {org} && team in teams && teams[team] == org
    ensures var p' := LinkTeam(AddProject(p, project, org), team, project, ALL_PROJECT_PERMISSIONS);
            ProjectsSound(orgs, teams, p') && AllStaffed(orgs, p')
  {
    hide ProjectsSound, AllStaffed, LinkTeams, LinkTeam, AddProject;
    AddProjectKeeps(before, orgs, teams, p, project, org, {team});
    LinkOneTeam(AddProject(p, project, org), team, project);
  }

  lemma LinkOneTeam(p: Projects, team: TeamId, project: ProjectId)
    ensures LinkTeams(p, {team}, project) == LinkTeam(p, team, project, ALL_PROJECT_PERMISSIONS)
  {
    assert Pairs(project, {team}) == {(project, team)} && Flip({(project, team)}) == {(team, project)};
    AddOneKey(p.projectTeams, (project, team), ALL_PROJECT_PERMISSIONS);
    AddOneKey(p.teamProjects, (team, project), ALL_PROJECT_PERMISSIONS);
  }

  lemma AddOneKey<K, V>(m: map<K, V>, key: K, value: V)
    ensures m + Constant({key}, value) == m[key := value]
  {
  }

  // The guard that makes the organisation undeletable: it always has a project.
  lemma DeleteOrganizationRefused(s: State, user: UserId, org: OrgId)
    requires Sound(s)
    ensures Apply(s, DeleteOrganization(user, org)) == Err
  {
    hide TeamsSound, ProjectsSound, AllAdministered;
    if (org, user) in s.o.orgUsers {
      assert HasProject(s.p, org);
      var project :| (org, project) in s.p.orgProjects;
      assert (org, project) in From(s.p.orgProjects, org);
    }
  }

  // PROJECT_CREATE is held through a team of the organisation, so the new project gets a team.
  lemma CreatorHasTeam(o: Orgs, t: Teams, user: UserId, org: OrgId)
    requires TeamsSound(o, t) && HoldsAll(t, user, org, {ProjectCreate})
    ensures UserTeamsIn(t, user, org) != {}
    ensures forall team :: team in UserTeamsIn(t, user, org) ==> team in t.teams && t.teams[team] == org
  {
    assert Holds(t, user, org, ProjectCreate);
    var own :| (user, own) in t.userTeams && (org, own) in t.orgTeams && ProjectCreate in t.orgTeams[(org, own)];
    assert own in UserTeamsIn(t, user, org);
  }

  lemma TeamCallKeeps(s: State, c: Call)
    requires Sound(s) && Fresh(s, c) && Apply(s, c).Ok?
    requires c.CreateTeam? || c.DeleteTeam? || c.AddUserToTeam? || c.RemoveUserFromTeam? || c.UpdateTeamOrgPermissions?
    ensures Sound(Apply(s, c).value)
  {
    assert (c.CreateTeam? ==> c.org in s.o.orgs) by { hide TeamsSound, ProjectsSound, AllAdministered, AllStaffed; }
    hide OrgsSound, TeamsSound, ProjectsSound, AllAdministered, AllStaffed, AddTeam, RemoveTeam, AddToTeam,
      RemoveFromTeam, SetOrgTeamPermissions, PopulatedWithoutTeam, PopulatedWithoutMember, HoldsAll;
    match c
    case CreateTeam(user, org, team) =>
      assert s.o.orgs == s.o.orgs + {org};
      AddTeamKeeps(s.o.orgs, s.o, s.t, team, user, org);
      MoreTeams(s.o.orgs, s.t, s.p, team, org);
    case DeleteTeam(user, team) =>
      RemoveTeamKeeps(s.o, s.t, team, s.t.teams[team]);
      UnlinkedTeam(s.o.orgs, s.t.teams, s.p, team);
      RemoveTeamTeams(s.t, team, s.t.teams[team]);
    case AddUserToTeam(user, target, team) =>
      AddToTeamKeeps(s.o, s.t, target, team);
      MembershipTeams(s.t, target, team);
    case RemoveUserFromTeam(user, target, team) =>
      if IsMember(s.t, target, team) {
        RemoveFromTeamKeeps(s.o, s.t, target, team);
        MembershipTeams(s.t, target, team);
      }
    case UpdateTeamOrgPermissions(user, team, permissions) =>
      SetPermissionsKeeps(s.o, s.t, team, permissions);
      SetPermissionsTeams(s.t, team, permissions);
  }

  lemma RemoveTeamTeams(t: Teams, team: TeamId, org: OrgId)
    ensures RemoveTeam(t, team, org).teams == t.teams - {team}
  {
  }

  lemma MembershipTeams(t: Teams, user: UserId, team: TeamId)
    ensures AddToTeam(t, user, team).teams == t.teams && RemoveFromTeam(t, user, team).teams == t.teams
  {
  }

  lemma SetPermissionsTeams(t: Teams, team: TeamId, permissions: OrgPermissions)
    requires team in t.teams
    ensures SetOrgTeamPermissions(t, t.teams[team], team, permissions).teams == t.teams
  {
  }

  lemma ProjectCallKeeps(s: State, c: Call)
    requires Sound(s) && Fresh(s, c) && Apply(s, c).Ok?
    requires c.CreateProject? || c.DeleteProject? || c.AddTeamToProject? || c.RemoveTeamFromProject? ||
             c.UpdateTeamProjectPermissions?
    ensures Sound(Apply(s, c).value)
  {
    assert (c.CreateProject? ==> c.org in s.o.orgs) by { hide TeamsSound, ProjectsSound, AllAdministered, AllStaffed; }
    hide OrgsSound, TeamsSound, ProjectsSound, AllAdministered, AllStaffed, LinkTeam, LinkTeams, UnlinkTeam, AddProject,
      RemoveProject, HoldsAll, HoldsAllOnProject, HasLink;
    match c
    case CreateProject(user, org, project) =>
      CreatorHasTeam(s.o, s.t, user, org);
      assert s.o.orgs == s.o.orgs + {org};
      AddProjectKeeps(s.o.orgs, s.o.orgs, s.t.teams, s.p, project, org, UserTeamsIn(s.t, user, org));
    case DeleteProject(user, project, hasCanisters) =>
      RemoveProjectKeeps(s.o.orgs, s.t.teams, s.p, project);
    case AddTeamToProject(user, project, team) =>
      LinkTeamKeeps(s.o.orgs, s.t.teams, s.p, team, project, ALL_PROJECT_PERMISSIONS);
    case RemoveTeamFromProject(user, project, team) =>
      if (project, team) in s.p.projectTeams {
        UnlinkTeamKeeps(s.o.orgs, s.t.teams, s.p, team, project);
      }
    case UpdateTeamProjectPermissions(user, project, team, permissions) =>
      LinkTeamKeeps(s.o.orgs, s.t.teams, s.p, team, project, permissions);
  }

  lemma MembershipCallKeeps(s: State, c: Call)
    requires Sound(s) && (c.Invite? || c.AcceptInvite?) && Apply(s, c).Ok?
    ensures Sound(Apply(s, c).value)
  {
    hide OrgsSound, TeamsSound, ProjectsSound, AllAdministered, AllStaffed, HoldsAll, AddMember;
    match c
    case Invite(user, org) => InviteKeeps(s.o, s.invited, user, org);
    case AcceptInvite(user, org) =>
      AddMemberKeeps(s.o, s.invited, org, user);
      MoreOrgs(s.o, AddMember(s.o, org, user), s.t, s.p);
  }

  lemma InviteKeeps(o: Orgs, invited: set<OrgId>, user: UserId, org: OrgId)
    requires OrgsSound(o, invited) && (org, user) in o.orgUsers
    ensures OrgsSound(o, invited + {org})
  {
  }

  lemma AddMemberKeeps(o: Orgs, invited: set<OrgId>, org: OrgId, user: UserId)
    requires OrgsSound(o, invited) && org in invited
    ensures var o' := AddMember(o, org, user);
            OrgsSound(o', invited) && o'.orgs == o.orgs && o.orgUsers <= o'.orgUsers
  {
  }

  lemma StepKeepsSound(s: State, c: Call)
    requires Sound(s) && Fresh(s, c)
    ensures Sound(Next(s, c))
  {
    if Apply(s, c).Ok? {
      if c.CreateProfile? || c.CreateOrganization? {
        hide Sound;
        BootstrapKeeps(s, c.user, c.org, c.team, c.project);
      } else if c.DeleteOrganization? {
        hide Sound, Apply;
        DeleteOrganizationRefused(s, c.user, c.org);
      } else if c.Invite? || c.AcceptInvite? {
        hide Sound, Apply;
        MembershipCallKeeps(s, c);
      } else if c.CreateTeam? || c.DeleteTeam? || c.AddUserToTeam? || c.RemoveUserFromTeam? ||
        c.UpdateTeamOrgPermissions? {
        hide Sound, Apply;
        TeamCallKeeps(s, c);
      } else {
        hide Sound, Apply;
        ProjectCallKeeps(s, c);
      }
    }
  }

  // --- Main results ---

  lemma {:induction false} RunKeepsSound(calls: seq<Call>)
    requires FreshIds(calls)
    ensures Sound(Run(calls))
  {
    if calls != [] {
      hide Sound, Next, Fresh;
      RunKeepsSound(calls[..|calls| - 1]);
      StepKeepsSound(Run(calls[..|calls| - 1]), calls[|calls| - 1]);
    } else {
      assert Sound(EMPTY);
    }
  }

  // In every reachable state each organisation has a member who may administer it, a project, and
  // every project is linked to a team of its own organisation.
  lemma EveryOrgIsUsable(calls: seq<Call>, org: OrgId)
    requires FreshIds(calls) && org in Run(calls).o.orgs
    ensures var s := Run(calls);
            && (exists user :: OrgAuth(s, user, org, {OrgAdmin}))
            && (exists project :: project in s.p.projects && s.p.projects[project] == org)
            && forall project :: project in s.p.projects && s.p.projects[project] == org ==>
                 exists team :: (project, team) in s.p.projectTeams && team in s.t.teams && s.t.teams[team] == org
  {
    var s := Run(calls);
    RunKeepsSound(calls);
    hide Run, FreshIds, OrgsSound, TeamsSound, ProjectsSound, AllAdministered, AllStaffed, OrgAuth;
    SomeoneAdministers(s, org);
    ProjectsHaveTeams(s.o.orgs, s.t.teams, s.p, org);
  }

  lemma SomeoneAdministers(s: State, org: OrgId)
    requires TeamsSound(s.o, s.t) && AllAdministered(s.o.orgs, s.t) && org in s.o.orgs
    ensures exists user :: OrgAuth(s, user, org, {OrgAdmin})
  {
    assert Administered(s.t, org);
    var team: TeamId, user: UserId :| Administers(s.t, org, team, user);
    assert (user, team) in s.t.userTeams && Holds(s.t, user, org, OrgAdmin);
    assert OrgAuth(s, user, org, {OrgAdmin});
  }

  lemma ProjectsHaveTeams(orgs: set<OrgId>, teams: map<TeamId, OrgId>, p: Projects, org: OrgId)
    requires ProjectsSound(orgs, teams, p) && AllStaffed(orgs, p) && org in orgs
    ensures exists project :: project in p.projects && p.projects[project] == org
    ensures forall project :: project in p.projects && p.projects[project] == org ==>
              exists team :: (project, team) in p.projectTeams && team in teams && teams[team] == org
  {
    assert HasProject(p, org);
    var first :| (org, first) in p.orgProjects;
    assert first in p.projects;
    forall project | project in p.projects && p.projects[project] == org
      ensures exists team :: (project, team) in p.projectTeams && team in teams && teams[team] == org
    {
      assert HasTeam(p, project);
      var team :| (project, team) in p.projectTeams;
      hide AllStaffed;
      assert team in teams && teams[team] == org;
    }
  }

  // `delete_organization` never succeeds, so organisations and memberships are never lost.
  lemma OrganizationsStay(calls: seq<Call>, c: Call)
    requires FreshIds(calls) && Fresh(Run(calls), c)
    ensures c.DeleteOrganization? ==> Apply(Run(calls), c) == Err
    ensures Run(calls).o.orgs <= Next(Run(calls), c).o.orgs
    ensures Run(calls).o.orgUsers <= Next(Run(calls), c).o.orgUsers
  {
    RunKeepsSound(calls);
    hide Run, FreshIds, Sound;
    if c.DeleteOrganization? {
      DeleteOrganizationRefused(Run(calls), c.user, c.org);
    } else {
      OnlyDeletionLosesOrgs(Run(calls), c);
    }
  }

  lemma OnlyDeletionLosesOrgs(s: State, c: Call)
    requires !c.DeleteOrganization?
    ensures s.o.orgs <= Next(s, c).o.orgs && s.o.orgUsers <= Next(s, c).o.orgUsers
  {
    hide OrgAuth, TeamAuth, ProjectAuth, HoldsAll, HoldsAllOnProject, PopulatedWithoutTeam, PopulatedWithoutMember;
  }

  // --- Caps ---

  ghost predicate Capped(s: State) {
    forall org: OrgId ::
      |TeamsOf(s.t, org)| <= MAX_TEAMS_PER_ORG && |From(s.p.orgProjects, org)| <= MAX_PROJECTS_PER_ORG
  }

  // An index that only loses entries, or gains one in a range that is not full, stays within bounds.
  ghost predicate Grows(links: Links, after: Links, max: nat) {
    after <= links || exists org: nat, id: nat :: |From(links, org)| < max && after == links + {(org, id)}
  }

  lemma GrowthStaysCapped(links: Links, after: Links, max: nat, org: OrgId)
    requires Grows(links, after, max) && |From(links, org)| <= max
    ensures |From(after, org)| <= max
  {
    if after <= links {
      SubsetSize(From(after, org), From(links, org));
    } else {
      var o: nat, id: nat :| |From(links, o)| < max && after == links + {(o, id)};
      if o == org {
        assert From(after, org) == From(links, org) + {(org, id)};
      } else {
        assert From(after, org) == From(links, org);
      }
    }
  }

  lemma TeamsGrow(s: State, c: Call)
    requires TeamsSound(s.o, s.t) && ProjectsSound(s.o.orgs, s.t.teams, s.p) && Fresh(s, c)
    ensures Grows(s.t.orgTeams.Keys, Next(s, c).t.orgTeams.Keys, MAX_TEAMS_PER_ORG)
  {
    hide OrgAuth, TeamAuth, ProjectAuth, HoldsAll, HoldsAllOnProject, PopulatedWithoutTeam, PopulatedWithoutMember,
      TeamsSound, ProjectsSound;
    var r := Next(s, c);
    if (c.CreateProfile? || c.CreateOrganization? || c.CreateTeam?) && r != s {
      if !c.CreateTeam? {
        NewOrgIsEmpty(s, c.org);
      }
      assert r.t.orgTeams.Keys == s.t.orgTeams.Keys + {(c.org, c.team)};
    } else {
      assert r.t.orgTeams.Keys <= s.t.orgTeams.Keys;
    }
  }

  lemma ProjectsGrow(s: State, c: Call)
    requires TeamsSound(s.o, s.t) && ProjectsSound(s.o.orgs, s.t.teams, s.p) && Fresh(s, c)
    ensures Grows(s.p.orgProjects, Next(s, c).p.orgProjects, MAX_PROJECTS_PER_ORG)
  {
    hide OrgAuth, TeamAuth, ProjectAuth, HoldsAll, HoldsAllOnProject, PopulatedWithoutTeam, PopulatedWithoutMember,
      TeamsSound, ProjectsSound;
    var r := Next(s, c);
    if (c.CreateProfile? || c.CreateOrganization? || c.CreateProject?) && r != s {
      if !c.CreateProject? {
        NewOrgIsEmpty(s, c.org);
      }
      assert r.p.orgProjects == s.p.orgProjects + {(c.org, c.project)};
    } else {
      assert r.p.orgProjects <= s.p.orgProjects;
    }
  }

  lemma NewOrgIsEmpty(s: State, org: OrgId)
    requires TeamsSound(s.o, s.t) && ProjectsSound(s.o.orgs, s.t.teams, s.p) && org !in s.o.orgs
    ensures From(s.t.orgTeams.Keys, org) == {} && From(s.p.orgProjects, org) == {}
  {
    assert From(s.t.orgTeams.Keys, org) == {} by { hide ProjectsSound; }
    assert From(s.p.orgProjects, org) == {} by { hide TeamsSound; }
  }

  lemma StepKeepsCapped(s: State, c: Call)
    requires Sound(s) && Capped(s) && Fresh(s, c)
    ensures Capped(Next(s, c))
  {
    hide TeamsSound, ProjectsSound, OrgsSound, AllAdministered, AllStaffed, Next, Grows;
    var r := Next(s, c);
    TeamsGrow(s, c);
    ProjectsGrow(s, c);
    forall org: OrgId
      ensures |TeamsOf(r.t, org)| <= MAX_TEAMS_PER_ORG && |From(r.p.orgProjects, org)| <= MAX_PROJECTS_PER_ORG
    {
      assert |TeamsOf(s.t, org)| <= MAX_TEAMS_PER_ORG && |From(s.p.orgProjects, org)| <= MAX_PROJECTS_PER_ORG;
      GrowthStaysCapped(s.t.orgTeams.Keys, r.t.orgTeams.Keys, MAX_TEAMS_PER_ORG, org);
      GrowthStaysCapped(s.p.orgProjects, r.p.orgProjects, MAX_PROJECTS_PER_ORG, org);
    }
  }

  // No organisation ever has more than 50 teams or 50 projects.
  lemma {:induction false} RunKeepsCapped(calls: seq<Call>)
    requires FreshIds(calls)
    ensures Capped(Run(calls))
  {
    if calls != [] {
      hide Sound, Next, Fresh, Capped;
      RunKeepsCapped(calls[..|calls| - 1]);
      RunKeepsSound(calls[..|calls| - 1]);
      StepKeepsCapped(Run(calls[..|calls| - 1]), calls[|calls| - 1]);
    }
  }

  // --- Granter ceiling ---

  ghost predicate HoldsThrough(t: Teams, user: UserId, org: OrgId, team: TeamId, flag: OrgPermission) {
    (user, team) in t.userTeams && (org, team) in t.orgTeams && flag in t.orgTeams[(org, team)]
  }

  // A message never gives a user an organisation permission that neither they nor the caller had,
  // except to the creator of the team or organisation it creates.
  lemma GranterCeiling(s: State, c: Call, user: UserId, org: OrgId, flag: OrgPermission)
    requires Sound(s) && Fresh(s, c)
    requires Holds(Next(s, c).t, user, org, flag)
    ensures || Holds(s.t, user, org, flag)
            || Holds(s.t, c.user, org, flag)
            || (user == c.user && (c.CreateTeam? || c.CreateProfile? || c.CreateOrganization?) && org == c.org)
  {
    hide OrgsSound, ProjectsSound, AllAdministered, AllStaffed;
    var t := Next(s, c).t;
    var team :| (user, team) in t.userTeams && (org, team) in t.orgTeams && flag in t.orgTeams[(org, team)];
    assert HoldsThrough(t, user, org, team, flag);
    if HoldsThrough(s.t, user, org, team, flag) {
      hide Next, TeamsSound;
    } else {
      NewGrant(s, c, user, org, team, flag);
    }
  }

  lemma NewGrant(s: State, c: Call, user: UserId, org: OrgId, team: TeamId, flag: OrgPermission)
    requires TeamsSound(s.o, s.t) && Fresh(s, c)
    requires HoldsThrough(Next(s, c).t, user, org, team, flag) && !HoldsThrough(s.t, user, org, team, flag)
    ensures || Holds(s.t, c.user, org, flag)
            || (user == c.user && (c.CreateTeam? || c.CreateProfile? || c.CreateOrganization?) && org == c.org)
  {
    hide ProjectAuth, PopulatedWithoutTeam, PopulatedWithoutMember, HoldsAllOnProject, Holds;
    if c.CreateTeam? || c.CreateProfile? || c.CreateOrganization? {
      assert team == c.team;
    } else if c.AddUserToTeam? || c.UpdateTeamOrgPermissions? {
      assert team == c.team && (org, team) in s.t.orgTeams;
    }
  }

  // The message gives the user an organisation flag that neither they nor the caller held.
  ghost predicate RaisesFor(s: State, c: Call, user: UserId, org: OrgId, flag: OrgPermission) {
    Holds(Next(s, c).t, user, org, flag) && !Holds(s.t, user, org, flag) && !Holds(s.t, c.user, org, flag)
  }

  ghost predicate Raises(s: State, c: Call) {
    exists user, org, flag :: RaisesFor(s, c, user, org, flag)
  }

  // Whoever creates a team, or an organisation, holds every flag there afterwards.
  lemma CreatorHoldsAll(s: State, c: Call, flag: OrgPermission)
    requires (c.CreateTeam? || c.CreateProfile? || c.CreateOrganization?) && Apply(s, c).Ok?
    ensures Holds(Next(s, c).t, c.user, c.org, flag)
  {
    var t := Next(s, c).t;
    hide OrgAuth, LinkTeam, AddProject, AddOrg;
    AllOrgFlags(flag);
    assert (c.user, c.team) in t.userTeams && (c.org, c.team) in t.orgTeams && flag in t.orgTeams[(c.org, c.team)];
  }

  lemma AllOrgFlags(flag: OrgPermission)
    ensures flag in ALL_ORG_PERMISSIONS
  {
    match flag
    case OrgAdmin =>
    case MemberManage =>
    case TeamManage =>
    case ProjectCreate =>
    case BillingManage =>
  }

  // Exactly when a message raises somebody above their own and the caller's flags: it creates an
  // organisation, or it creates a team for a caller who lacks some flag.
  lemma RaisesIff(s: State, c: Call)
    requires Sound(s) && Fresh(s, c)
    ensures Raises(s, c) <==>
            || c.CreateProfile?
            || (c.CreateOrganization? && |From(s.o.userOrgs, c.user)| < MAX_ORGS_PER_USER)
            || (c.CreateTeam? && OrgAuth(s, c.user, c.org, {TeamManage}) && |TeamsOf(s.t, c.org)| < MAX_TEAMS_PER_ORG
                && exists flag :: !Holds(s.t, c.user, c.org, flag))
  {
    hide Sound, Holds, HoldsAll;
    if user, org, flag :| RaisesFor(s, c, user, org, flag) {
      GranterCeiling(s, c, user, org, flag);
    }
    if c.CreateTeam? && Apply(s, c).Ok? {
      if flag :| !Holds(s.t, c.user, c.org, flag) {
        CreatorHoldsAll(s, c, flag);
        hide Next;
        assert RaisesFor(s, c, c.user, c.org, flag);
      }
    } else if (c.CreateProfile? || c.CreateOrganization?) && Apply(s, c).Ok? {
      CreatorHoldsAll(s, c, OrgAdmin);
      NobodyHoldsInNewOrg(s, c.user, c.org);
      hide Next;
      assert RaisesFor(s, c, c.user, c.org, OrgAdmin);
    }
  }

  lemma NobodyHoldsInNewOrg(s: State, user: UserId, org: OrgId)
    requires Sound(s) && org !in s.o.orgs
    ensures !Holds(s.t, user, org, OrgAdmin)
  {
    hide OrgsSound, ProjectsSound, AllAdministered, AllStaffed;
  }

  // A run in which user 1, invited by user 0 and put into a team with TEAM_MANAGE alone, creates a team.
  function TeamManagerRun(): seq<Call> {
    [CreateProfile(0, 0, 0, 0), Invite(0, 0), AcceptInvite(1, 0), CreateTeam(0, 0, 1), AddUserToTeam(0, 1, 1),
     UpdateTeamOrgPermissions(0, 1, {TeamManage})]
  }

  // TEAM_MANAGE alone becomes ORG_ADMIN: the ceiling's exception occurs in a reachable state.
  lemma TeamManagerBecomesAdmin()
    ensures var before := Run(TeamManagerRun());
            var c := CreateTeam(1, 0, 2);
            && FreshIds(TeamManagerRun() + [c])
            && (forall flag :: Holds(before.t, 1, 0, flag) <==> flag == TeamManage)
            && Apply(before, c).Ok? && Holds(Run(TeamManagerRun() + [c]).t, 1, 0, OrgAdmin)
  {
    var calls, c := TeamManagerRun(), CreateTeam(1, 0, 2);
    TeamManagerState();
    var before := Run(calls);
    assert (calls + [c])[..|calls|] == calls;
    assert forall flag :: Holds(before.t, 1, 0, flag) ==> flag == TeamManage;
    assert (1, 1) in before.t.userTeams && (0, 1) in before.t.orgTeams && TeamManage in before.t.orgTeams[(0, 1)];
    assert TeamsOf(before.t, 0) == {(0, 0), (0, 1)};
    hide Run, FreshIds, TeamManagerRun;
    CreatorHoldsAll(before, c, OrgAdmin);
  }

  // The founder of organisation 0 holds every flag through team 0.
  lemma FounderHoldsAll(t: Teams, flags: OrgPermissions)
    requires (0, 0) in t.userTeams && (0, 0) in t.orgTeams && t.orgTeams[(0, 0)] == ALL_ORG_PERMISSIONS
    ensures HoldsAll(t, 0, 0, flags)
  {
    forall flag | flag in flags ensures Holds(t, 0, 0, flag) {
      AllOrgFlags(flag);
      assert (0, 0) in t.userTeams && flag in t.orgTeams[(0, 0)];
    }
  }

  lemma RunAppend(calls: seq<Call>, c: Call)
    ensures Run(calls + [c]) == Next(Run(calls), c)
    ensures FreshIds(calls + [c]) <==> FreshIds(calls) && Fresh(Run(calls), c)
  {
    hide Next, Fresh;
    assert (calls + [c])[..|calls|] == calls;
  }

  const TWO_MEMBERS := Orgs({0}, {(0, 0), (0, 1)}, {(0, 0), (1, 0)})
  const ONE_TEAM := Teams(map[0 := 0], {(0, 0)}, {(0, 0)}, map[(0, 0) := ALL_ORG_PERMISSIONS])

  function TwoTeams(members: Links, userTeams: Links, permissions: OrgPermissions): Teams {
    Teams(map[0 := 0, 1 := 0], members, userTeams, map[(0, 0) := ALL_ORG_PERMISSIONS, (0, 1) := permissions])
  }

  lemma Founded()
    ensures var s := Next(EMPTY, CreateProfile(0, 0, 0, 0));
            s.o == Orgs({0}, {(0, 0)}, {(0, 0)}) && s.t == ONE_TEAM && Fresh(EMPTY, CreateProfile(0, 0, 0, 0))
  {
    hide LinkTeam, AddProject;
  }

  lemma Invited(s: State)
    requires s.o == Orgs({0}, {(0, 0)}, {(0, 0)}) && s.t == ONE_TEAM
    ensures Next(s, Invite(0, 0)) == s.(invited := s.invited + {0})
    ensures Next(s.(invited := s.invited + {0}), AcceptInvite(1, 0)) == s.(o := TWO_MEMBERS, invited := s.invited + {0})
  {
    FounderHoldsAll(s.t, {MemberManage});
    hide HoldsAll;
  }

  lemma SecondTeam(s: State)
    requires s.o == TWO_MEMBERS && s.t == ONE_TEAM
    ensures Next(s, CreateTeam(0, 0, 1)) == s.(t := TwoTeams({(0, 0), (1, 0)}, {(0, 0), (0, 1)}, ALL_ORG_PERMISSIONS))
    ensures Fresh(s, CreateTeam(0, 0, 1))
  {
    FounderHoldsAll(s.t, {TeamManage});
    hide HoldsAll;
    assert TeamsOf(s.t, 0) == {(0, 0)};
  }

  lemma SecondMember(s: State)
    requires s.o == TWO_MEMBERS && s.t == TwoTeams({(0, 0), (1, 0)}, {(0, 0), (0, 1)}, ALL_ORG_PERMISSIONS)
    ensures Next(s, AddUserToTeam(0, 1, 1)) ==
            s.(t := TwoTeams({(0, 0), (1, 0), (1, 1)}, {(0, 0), (0, 1), (1, 1)}, ALL_ORG_PERMISSIONS))
  {
    FounderHoldsAll(s.t, {MemberManage});
    FounderHoldsAll(s.t, ALL_ORG_PERMISSIONS);
    hide HoldsAll;
  }

  lemma Demoted(s: State)
    requires s.o == TWO_MEMBERS &&
             s.t == TwoTeams({(0, 0), (1, 0), (1, 1)}, {(0, 0), (0, 1), (1, 1)}, ALL_ORG_PERMISSIONS)
    ensures Next(s, UpdateTeamOrgPermissions(0, 1, {TeamManage})).o == s.o
    ensures Next(s, UpdateTeamOrgPermissions(0, 1, {TeamManage})).t ==
            TwoTeams({(0, 0), (1, 0), (1, 1)}, {(0, 0), (0, 1), (1, 1)}, {TeamManage})
  {
    FounderHoldsAll(s.t, {OrgAdmin});
    FounderHoldsAll(s.t, {TeamManage});
    hide HoldsAll;
    assert PopulatedWithoutTeam(s.t, 0, 1) by {
      assert (0, 0) in s.t.orgTeams && (0, 0) in s.t.teamUsers;
    }
    hide PopulatedWithoutTeam;
  }

  lemma TeamManagerState()
    ensures var s := Run(TeamManagerRun());
            && FreshIds(TeamManagerRun()) && s.o == TWO_MEMBERS
            && s.t == TwoTeams({(0, 0), (1, 0), (1, 1)}, {(0, 0), (0, 1), (1, 1)}, {TeamManage})
  {
    var a := [CreateProfile(0, 0, 0, 0)];
    var b := a + [Invite(0, 0)] + [AcceptInvite(1, 0)];
    var c := b + [CreateTeam(0, 0, 1)] + [AddUserToTeam(0, 1, 1)];
    assert a == [] + a && TeamManagerRun() == c + [UpdateTeamOrgPermissions(0, 1, {TeamManage})];
    RunAppend([], CreateProfile(0, 0, 0, 0));
    RunAppend(a, Invite(0, 0));
    RunAppend(a + [Invite(0, 0)], AcceptInvite(1, 0));
    RunAppend(b, CreateTeam(0, 0, 1));
    RunAppend(b + [CreateTeam(0, 0, 1)], AddUserToTeam(0, 1, 1));
    RunAppend(c, UpdateTeamOrgPermissions(0, 1, {TeamManage}));
    assert Run([]) == EMPTY && FreshIds([]);
    hide Run, FreshIds, Next, TeamManagerRun, TwoTeams;
    Founded();
    Invited(Run(a));
    SecondTeam(Run(b));
    SecondMember(Run(b + [CreateTeam(0, 0, 1)]));
    Demoted(Run(c));
  }

  // --- The ceiling on project permissions ---

  ghost predicate HoldsOnProjectThrough(
    t: Teams, p: Projects, user: UserId, project: ProjectId, team: TeamId, flag: ProjectPermission)
  {
    (user, team) in t.userTeams && (project, team) in p.projectTeams && flag in p.projectTeams[(project, team)]
  }

  // The message gives the user a project flag that neither they nor the caller held.
  ghost predicate RaisesOnProjectFor(s: State, c: Call, user: UserId, project: ProjectId, flag: ProjectPermission) {
    && HoldsOnProject(Next(s, c).t, Next(s, c).p, user, project, flag)
    && !HoldsOnProject(s.t, s.p, user, project, flag) && !HoldsOnProject(s.t, s.p, c.user, project, flag)
  }

  ghost predicate RaisesOnProject(s: State, c: Call) {
    exists user, project, flag :: RaisesOnProjectFor(s, c, user, project, flag)
  }

  // Some member of the team lacks, with the caller, a flag on the project.
  ghost predicate MemberLacksWithCaller(s: State, team: TeamId, project: ProjectId, caller: UserId) {
    exists member, flag :: (member, team) in s.t.userTeams &&
      !HoldsOnProject(s.t, s.p, member, project, flag) && !HoldsOnProject(s.t, s.p, caller, project, flag)
  }

  // The team holds a flag on some project that the target and the caller both lack.
  ghost predicate TeamHoldsMore(s: State, team: TeamId, target: UserId, caller: UserId) {
    exists project, flag :: (project, team) in s.p.projectTeams && flag in s.p.projectTeams[(project, team)] &&
      !HoldsOnProject(s.t, s.p, target, project, flag) && !HoldsOnProject(s.t, s.p, caller, project, flag)
  }

  // What an accepted message must be to raise somebody on a project.
  ghost predicate LiftsOnProject(s: State, c: Call) {
    || c.CreateProfile? || c.CreateOrganization? || c.CreateProject?
    || (c.AddTeamToProject? && (c.project, c.team) !in s.p.projectTeams &&
         MemberLacksWithCaller(s, c.team, c.project, c.user))
    || (c.AddUserToTeam? && TeamHoldsMore(s, c.team, c.target, c.user))
  }

  // The ceiling on project permissions has exactly these exceptions: creating a project or an
  // organisation, linking a team a member of which lacks some flag with the caller, and adding a user
  // to a team that holds more on a project than the user and the caller. Overwriting permissions is not
  // among them.
  lemma RaisesOnProjectIff(s: State, c: Call)
    requires Sound(s) && Fresh(s, c)
    ensures RaisesOnProject(s, c) <==> Apply(s, c).Ok? && LiftsOnProject(s, c)
  {
    if user, project, flag :| RaisesOnProjectFor(s, c, user, project, flag) {
      RaisedMeansLifts(s, c, user, project, flag);
    }
    if Apply(s, c).Ok? && LiftsOnProject(s, c) {
      hide Apply, Next;
      LiftRaises(s, c);
    }
  }

  lemma RaisedMeansLifts(s: State, c: Call, user: UserId, project: ProjectId, flag: ProjectPermission)
    requires Sound(s) && Fresh(s, c) && RaisesOnProjectFor(s, c, user, project, flag)
    ensures Apply(s, c).Ok? && LiftsOnProject(s, c)
  {
    hide OrgsSound, TeamsSound, ProjectsSound, AllAdministered, AllStaffed, Apply;
    var t, p := Next(s, c).t, Next(s, c).p;
    var team :| (user, team) in t.userTeams && (project, team) in p.projectTeams &&
      flag in p.projectTeams[(project, team)];
    assert HoldsOnProjectThrough(t, p, user, project, team, flag);
    NotHeldBefore(s.t, s.p, user, project, team, flag);
    hide RaisesOnProjectFor, HoldsOnProject;
    if c.CreateTeam? {
      NewTeamHasNoProject(s, c);
    }
    NewProjectGrant(s, c, user, project, team, flag);
  }

  lemma NotHeldBefore(t: Teams, p: Projects, user: UserId, project: ProjectId, team: TeamId, flag: ProjectPermission)
    requires !HoldsOnProject(t, p, user, project, flag)
    ensures !HoldsOnProjectThrough(t, p, user, project, team, flag)
  {
  }

  lemma NewTeamHasNoProject(s: State, c: Call)
    requires ProjectsSound(s.o.orgs, s.t.teams, s.p) && c.CreateTeam? && Fresh(s, c)
    ensures forall project :: (project, c.team) !in s.p.projectTeams
  {
  }

  lemma NewProjectGrant(s: State, c: Call, user: UserId, project: ProjectId, team: TeamId, flag: ProjectPermission)
    requires HoldsOnProjectThrough(Next(s, c).t, Next(s, c).p, user, project, team, flag)
    requires !HoldsOnProjectThrough(s.t, s.p, user, project, team, flag)
    requires !HoldsOnProject(s.t, s.p, user, project, flag) && !HoldsOnProject(s.t, s.p, c.user, project, flag)
    requires c.CreateTeam? ==> forall q :: (q, c.team) !in s.p.projectTeams
    ensures Apply(s, c).Ok? && LiftsOnProject(s, c)
  {
    hide HoldsOnProject, OrgAuth, HoldsAll, HasLink, PopulatedWithoutTeam, PopulatedWithoutMember, LinkTeams;
    match c
    case AddTeamToProject(_, _, _) => assert team == c.team && project == c.project;
    case AddUserToTeam(_, _, _) => assert team == c.team && user == c.target;
    case _ =>
  }

  lemma AllProjectFlags(flag: ProjectPermission)
    ensures flag in ALL_PROJECT_PERMISSIONS
  {
    match flag
    case ProjectAdmin =>
    case CanisterManage =>
    case ProposalCreate =>
    case ProposalApprove =>
    case CanisterOperate =>
    case CanisterRead =>
    case ApprovalPolicyManage =>
    case ProjectSettings =>
  }

  lemma LiftRaises(s: State, c: Call)
    requires Sound(s) && Fresh(s, c) && Apply(s, c).Ok? && LiftsOnProject(s, c)
    ensures RaisesOnProject(s, c)
  {
    hide OrgsSound, AllAdministered, AllStaffed;
    var user, project, team, flag := Raised(s, c);
    hide Apply, Next, LiftsOnProject;
    assert HoldsOnProject(Next(s, c).t, Next(s, c).p, user, project, flag);
    assert RaisesOnProjectFor(s, c, user, project, flag);
  }

  lemma Raised(s: State, c: Call)
    returns (user: UserId, project: ProjectId, team: TeamId, flag: ProjectPermission)
    requires Sound(s) && Fresh(s, c) && Apply(s, c).Ok? && LiftsOnProject(s, c)
    ensures HoldsOnProjectThrough(Next(s, c).t, Next(s, c).p, user, project, team, flag)
    ensures !HoldsOnProject(s.t, s.p, user, project, flag) && !HoldsOnProject(s.t, s.p, c.user, project, flag)
  {
    hide OrgsSound, TeamsSound, ProjectsSound, AllAdministered, AllStaffed, Apply, Next, HoldsOnProject,
      MemberLacksWithCaller, TeamHoldsMore;
    if c.AddTeamToProject? {
      user, project, team, flag := RaisedByLinking(s, c);
    } else if c.AddUserToTeam? {
      user, project, team, flag := RaisedByJoining(s, c);
    } else if c.CreateProject? {
      user, project, team, flag := RaisedByProject(s, c);
    } else {
      user, project, team, flag := c.user, c.project, c.team, ProjectAdmin;
      RaisedByBootstrap(s, c);
    }
  }

  lemma RaisedByLinking(s: State, c: Call)
    returns (user: UserId, project: ProjectId, team: TeamId, flag: ProjectPermission)
    requires c.AddTeamToProject? && Apply(s, c).Ok? && (c.project, c.team) !in s.p.projectTeams
    requires MemberLacksWithCaller(s, c.team, c.project, c.user)
    ensures HoldsOnProjectThrough(Next(s, c).t, Next(s, c).p, user, project, team, flag)
    ensures !HoldsOnProject(s.t, s.p, user, project, flag) && !HoldsOnProject(s.t, s.p, c.user, project, flag)
  {
    hide ProjectAuth;
    project, team := c.project, c.team;
    user, flag :| (user, team) in s.t.userTeams &&
      !HoldsOnProject(s.t, s.p, user, project, flag) && !HoldsOnProject(s.t, s.p, c.user, project, flag);
    hide HoldsOnProject;
    AllProjectFlags(flag);
  }

  lemma RaisedByJoining(s: State, c: Call)
    returns (user: UserId, project: ProjectId, team: TeamId, flag: ProjectPermission)
    requires TeamsSound(s.o, s.t) && c.AddUserToTeam? && Apply(s, c).Ok? && TeamHoldsMore(s, c.team, c.target, c.user)
    ensures HoldsOnProjectThrough(Next(s, c).t, Next(s, c).p, user, project, team, flag)
    ensures !HoldsOnProject(s.t, s.p, user, project, flag) && !HoldsOnProject(s.t, s.p, c.user, project, flag)
  {
    hide OrgAuth, HoldsAll;
    user, team := c.target, c.team;
    assert IsMember(s.t, user, team) ==> (user, team) in s.t.userTeams;
    hide TeamsSound;
    project, flag :| (project, team) in s.p.projectTeams && flag in s.p.projectTeams[(project, team)] &&
      !HoldsOnProject(s.t, s.p, user, project, flag) && !HoldsOnProject(s.t, s.p, c.user, project, flag);
    NotHeldBefore(s.t, s.p, user, project, team, flag);
    hide HoldsOnProject;
  }

  lemma RaisedByProject(s: State, c: Call)
    returns (user: UserId, project: ProjectId, team: TeamId, flag: ProjectPermission)
    requires TeamsSound(s.o, s.t) && ProjectsSound(s.o.orgs, s.t.teams, s.p)
    requires c.CreateProject? && Fresh(s, c) && Apply(s, c).Ok?
    ensures HoldsOnProjectThrough(Next(s, c).t, Next(s, c).p, user, project, team, flag)
    ensures !HoldsOnProject(s.t, s.p, user, project, flag) && !HoldsOnProject(s.t, s.p, c.user, project, flag)
  {
    NewProjectHasNoTeam(s, c, c.user);
    CreatorHasTeam(s.o, s.t, c.user, c.org);
    hide TeamsSound, ProjectsSound, HoldsOnProject, OrgAuth;
    user, project, flag := c.user, c.project, ProjectAdmin;
    AllProjectFlags(flag);
    team :| team in UserTeamsIn(s.t, c.user, c.org);
    UserTeamsAre(s.t, c.user, c.org, team);
    NextWithProject(s, c);
    hide Next, Apply, UserTeamsIn;
    LinkTeamsLookup(AddProject(s.p, c.project, c.org), UserTeamsIn(s.t, c.user, c.org), c.project);
    hide LinkTeams, AddProject;
  }

  lemma NextWithProject(s: State, c: Call)
    requires c.CreateProject? && Apply(s, c).Ok?
    ensures Next(s, c) ==
            s.(p := LinkTeams(AddProject(s.p, c.project, c.org), UserTeamsIn(s.t, c.user, c.org), c.project))
  {
    hide OrgAuth, LinkTeams, AddProject, UserTeamsIn;
  }

  lemma UserTeamsAre(t: Teams, user: UserId, org: OrgId, team: TeamId)
    ensures team in UserTeamsIn(t, user, org) ==> (user, team) in t.userTeams
  {
    assert forall e :: e in t.userTeams ==> e == (e.0, e.1);
  }

  lemma RaisedByBootstrap(s: State, c: Call)
    requires ProjectsSound(s.o.orgs, s.t.teams, s.p) && Fresh(s, c) && Apply(s, c).Ok?
    requires c.CreateProfile? || c.CreateOrganization?
    ensures HoldsOnProjectThrough(Next(s, c).t, Next(s, c).p, c.user, c.project, c.team, ProjectAdmin)
    ensures !HoldsOnProject(s.t, s.p, c.user, c.project, ProjectAdmin)
  {
    NewProjectHasNoTeam(s, c, c.user);
    hide ProjectsSound, HoldsOnProject;
    AllProjectFlags(ProjectAdmin);
  }

  lemma NewProjectHasNoTeam(s: State, c: Call, user: UserId)
    requires ProjectsSound(s.o.orgs, s.t.teams, s.p) && Fresh(s, c)
    requires c.CreateProfile? || c.CreateOrganization? || c.CreateProject?
    ensures !HoldsOnProject(s.t, s.p, user, c.project, ProjectAdmin)
  {
  }
}
