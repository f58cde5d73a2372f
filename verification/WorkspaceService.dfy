/** The stores behind `Workspace`, with the loops that keep their indexes in step. */
module WorkspaceRepositories {
  import opened Primitives
  import opened Workspace

  class OrganizationRepository {
    var orgs: set<OrgId>
    var orgUsers: Links
    var userOrgs: Links

    function View(): Orgs
      reads this
    {
      Orgs(orgs, orgUsers, userOrgs)
    }

    constructor ()
      ensures View() == EMPTY_ORGS
    {
      orgs, orgUsers, userOrgs := {}, {}, {};
    }

    method CreateOrg(user: UserId) returns (org: OrgId)
      modifies this
      ensures org !in old(orgs) && View() == AddOrg(old(View()), org, user)
    {
      org := FreshId(orgs);
      orgs := orgs + {org};
      orgUsers, userOrgs := orgUsers + {(org, user)}, userOrgs + {(user, org)};
    }

    method AddUserToOrg(user: UserId, org: OrgId)
      modifies this
      ensures View() == AddMember(old(View()), org, user)
    {
      orgUsers, userOrgs := orgUsers + {(org, user)}, userOrgs + {(user, org)};
    }

    method DeleteOrg(org: OrgId) returns (r: Result<()>)
      modifies this
      ensures r.Ok? <==> org in old(orgs)
      ensures View() == if r.Ok? then RemoveOrg(old(View()), org) else old(View())
    {
      if org !in orgs {
        return Err;
      }
      orgs := orgs - {org};
      hide Flip;
      FlipNothing();
      var rest := From(orgUsers, org);
      ghost var removed: Links := {};
      while rest != {}
        invariant rest + removed == From(old(orgUsers), org)
        invariant orgs == old(orgs) - {org}
        invariant orgUsers == old(orgUsers) - removed && userOrgs == old(userOrgs) - Flip(removed)
        decreases rest
      {
        var e :| e in rest;
        FlipOneMore(removed, e);
        rest, removed := rest - {e}, removed + {e};
        orgUsers, userOrgs := orgUsers - {e}, userOrgs - {(e.1, e.0)};
      }
      assert removed == From(old(orgUsers), org);
      r := Ok(());
    }
  }

  lemma FlipNothing()
    ensures Flip({}) == {}
  {
  }

  lemma FlipOneMore(links: Links, e: (nat, nat))
    ensures Flip(links + {e}) == Flip(links) + {(e.1, e.0)}
  {
    assert e == (e.0, e.1);
  }

  // One more team of an organisation is emptied.
  lemma OneMoreTeam(before: Teams, removed: Links, k: (OrgId, TeamId), teamUsers: Links, userTeams: Links, more: Links)
    requires var members := MembersOf(before.teamUsers, Targets(removed));
             && more == From(before.teamUsers - members, k.1)
             && teamUsers == before.teamUsers - members - more
             && userTeams == before.userTeams - Flip(members) - Flip(more)
    ensures Targets(removed + {k}) == Targets(removed) + {k.1}
    ensures var members := MembersOf(before.teamUsers, Targets(removed) + {k.1});
            && teamUsers == before.teamUsers - members
            && userTeams == before.userTeams - Flip(members)
  {
    var members := MembersOf(before.teamUsers, Targets(removed));
    forall e | e in before.teamUsers && e.0 == k.1 ensures e in members + more {
      assert e == (e.0, e.1);
    }
    assert MembersOf(before.teamUsers, Targets(removed) + {k.1}) == members + more;
    FlipUnion(members, more);
  }

  lemma NoTeamYet(t: Teams)
    ensures Targets({}) == {} && MembersOf(t.teamUsers, {}) == {} && Flip({}) == {}
  {
  }

  lemma FlipUnion(a: Links, b: Links)
    ensures Flip(a + b) == Flip(a) + Flip(b)
  {
  }

  class TeamRepository {
    var teams: map<TeamId, OrgId>
    var teamUsers: Links
    var userTeams: Links
    var orgTeams: map<(OrgId, TeamId), OrgPermissions>

    function View(): Teams
      reads this
    {
      Teams(teams, teamUsers, userTeams, orgTeams)
    }

    constructor ()
      ensures View() == EMPTY_TEAMS
    {
      teams, teamUsers, userTeams, orgTeams := map[], {}, {}, map[];
    }

    method CreateTeamWithPermissions(user: UserId, org: OrgId, permissions: OrgPermissions) returns (team: TeamId)
      modifies this
      ensures team !in old(teams) && View() == AddTeam(old(View()), team, user, org, permissions)
    {
      team := FreshId(teams.Keys);
      teams := teams[team := org];
      teamUsers, userTeams := teamUsers + {(team, user)}, userTeams + {(user, team)};
      orgTeams := orgTeams[(org, team) := permissions];
    }

    method DeleteTeam(team: TeamId, org: OrgId) returns (r: Result<()>)
      modifies this
      ensures r.Ok? <==> team in old(teams)
      ensures View() == if r.Ok? then RemoveTeam(old(View()), team, org) else old(View())
    {
      if team !in teams {
        return Err;
      }
      teams := teams - {team};
      orgTeams := orgTeams - {(org, team)};
      ghost var members := RemoveMembers(team);
      r := Ok(());
    }

    // Both membership indexes lose the members of one team.
    method RemoveMembers(team: TeamId) returns (ghost removed: Links)
      modifies `teamUsers, `userTeams
      ensures removed == From(old(teamUsers), team)
      ensures teamUsers == old(teamUsers) - removed && userTeams == old(userTeams) - Flip(removed)
    {
      hide Flip;
      FlipNothing();
      var rest := From(teamUsers, team);
      removed := {};
      while rest != {}
        invariant rest + removed == From(old(teamUsers), team)
        invariant teamUsers == old(teamUsers) - removed && userTeams == old(userTeams) - Flip(removed)
        decreases rest
      {
        var e :| e in rest;
        FlipOneMore(removed, e);
        rest, removed := rest - {e}, removed + {e};
        teamUsers, userTeams := teamUsers - {e}, userTeams - {(e.1, e.0)};
      }
      assert removed == From(old(teamUsers), team);
    }

    method DeleteOrgTeams(org: OrgId)
      modifies this
      ensures View() == RemoveOrgTeams(old(View()), org)
    {
      hide Targets, MembersOf, Flip, From;
      ghost var before := View();
      var rest := TeamsOf(View(), org);
      ghost var removed: Links := {};
      NoTeamYet(before);
      while rest != {}
        invariant rest + removed == TeamsOf(before, org)
        invariant teams == before.teams - Targets(removed) && orgTeams == before.orgTeams - removed
        invariant teamUsers == before.teamUsers - MembersOf(before.teamUsers, Targets(removed))
        invariant userTeams == before.userTeams - Flip(MembersOf(before.teamUsers, Targets(removed)))
        decreases rest
      {
        var k :| k in rest;
        orgTeams := orgTeams - {k};
        teams := teams - {k.1};
        ghost var more := RemoveMembers(k.1);
        OneMoreTeam(before, removed, k, teamUsers, userTeams, more);
        rest, removed := rest - {k}, removed + {k};
      }
      assert removed == TeamsOf(before, org);
    }

    method SetPermissions(org: OrgId, team: TeamId, permissions: OrgPermissions)
      modifies this
      ensures View() == SetOrgTeamPermissions(old(View()), org, team, permissions)
    {
      if (org, team) in orgTeams {
        orgTeams := orgTeams[(org, team) := permissions];
      }
    }

    method AddUser(user: UserId, team: TeamId)
      modifies this
      ensures View() == AddToTeam(old(View()), user, team)
    {
      teamUsers, userTeams := teamUsers + {(team, user)}, userTeams + {(user, team)};
    }

    method RemoveUser(user: UserId, team: TeamId)
      modifies this
      ensures View() == RemoveFromTeam(old(View()), user, team)
    {
      teamUsers, userTeams := teamUsers - {(team, user)}, userTeams - {(user, team)};
    }

    // The union over the user's teams in the organisation.
    method AggregateUserOrgPermissions(user: UserId, org: OrgId) returns (permissions: OrgPermissions)
      ensures forall flag :: flag in permissions <==> Holds(View(), user, org, flag)
    {
      permissions := {};
      var rest := From(userTeams, user);
      ghost var done: Links := {};
      while rest != {}
        invariant rest + done == From(userTeams, user)
        invariant forall flag :: flag in permissions <==>
                    exists team :: (user, team) in done && (org, team) in orgTeams && flag in orgTeams[(org, team)]
        decreases rest
      {
        var e :| e in rest;
        rest, done := rest - {e}, done + {e};
        if (org, e.1) in orgTeams {
          permissions := permissions + orgTeams[(org, e.1)];
        }
      }
      assert done == From(userTeams, user);
    }
  }

  class ProjectRepository {
    var projects: map<ProjectId, OrgId>
    var orgProjects: Links
    var projectTeams: map<(ProjectId, TeamId), ProjectPermissions>
    var teamProjects: map<(TeamId, ProjectId), ProjectPermissions>

    function View(): Projects
      reads this
    {
      Projects(projects, orgProjects, projectTeams, teamProjects)
    }

    constructor ()
      ensures View() == EMPTY_PROJECTS
    {
      projects, orgProjects, projectTeams, teamProjects := map[], {}, map[], map[];
    }

    method CreateProject(org: OrgId) returns (project: ProjectId)
      modifies this
      ensures project !in old(projects) && View() == AddProject(old(View()), project, org)
    {
      project := FreshId(projects.Keys);
      projects := projects[project := org];
      orgProjects := orgProjects + {(org, project)};
    }

    method AddTeam(team: TeamId, project: ProjectId, permissions: ProjectPermissions)
      modifies this
      ensures View() == LinkTeam(old(View()), team, project, permissions)
    {
      projectTeams := projectTeams[(project, team) := permissions];
      teamProjects := teamProjects[(team, project) := permissions];
    }

    method RemoveTeamFromProject(team: TeamId, project: ProjectId)
      modifies this
      ensures View() == UnlinkTeam(old(View()), team, project)
    {
      projectTeams := projectTeams - {(project, team)};
      teamProjects := teamProjects - {(team, project)};
    }

    method SetPermissions(project: ProjectId, team: TeamId, permissions: ProjectPermissions)
      modifies this
      ensures View() == SetProjectTeamPermissions(old(View()), project, team, permissions)
    {
      if (project, team) !in projectTeams {
        return;
      }
      projectTeams := projectTeams[(project, team) := permissions];
      teamProjects := teamProjects[(team, project) := permissions];
    }

    method DeleteProject(project: ProjectId, org: OrgId) returns (r: Result<()>)
      modifies this
      ensures r.Ok? <==> project in old(projects)
      ensures View() == if r.Ok? then RemoveProject(old(View()), project, org) else old(View())
    {
      if project !in projects {
        return Err;
      }
      projects := projects - {project};
      orgProjects := orgProjects - {(org, project)};
      hide Flip;
      FlipNothing();
      var rest := From(projectTeams.Keys, project);
      ghost var removed: Links := {};
      while rest != {}
        invariant rest + removed == From(old(projectTeams).Keys, project)
        invariant projects == old(projects) - {project} && orgProjects == old(orgProjects) - {(org, project)}
        invariant projectTeams == old(projectTeams) - removed && teamProjects == old(teamProjects) - Flip(removed)
        decreases rest
      {
        var e :| e in rest;
        FlipOneMore(removed, e);
        rest, removed := rest - {e}, removed + {e};
        projectTeams, teamProjects := projectTeams - {e}, teamProjects - {(e.1, e.0)};
      }
      assert removed == From(old(projectTeams).Keys, project);
      r := Ok(());
    }

    method RemoveTeamProjectLinks(team: TeamId)
      modifies this
      ensures View() == RemoveTeamLinks(old(View()), team)
    {
      hide Flip;
      FlipNothing();
      var rest := From(teamProjects.Keys, team);
      ghost var removed: Links := {};
      while rest != {}
        invariant rest + removed == From(old(teamProjects).Keys, team)
        invariant projects == old(projects) && orgProjects == old(orgProjects)
        invariant projectTeams == old(projectTeams) - Flip(removed) && teamProjects == old(teamProjects) - removed
        decreases rest
      {
        var e :| e in rest;
        FlipOneMore(removed, e);
        rest, removed := rest - {e}, removed + {e};
        projectTeams, teamProjects := projectTeams - {(e.1, e.0)}, teamProjects - {e};
      }
      assert removed == From(old(teamProjects).Keys, team);
    }

    // The union over the given teams that are linked, and whether any of them is.
    method AggregateTeamProjectPermissions(teams: set<TeamId>, project: ProjectId)
      returns (permissions: ProjectPermissions, hasLink: bool)
      ensures forall flag :: flag in permissions <==>
                exists team :: team in teams && (project, team) in projectTeams && flag in projectTeams[(project, team)]
      ensures hasLink <==> exists team :: team in teams && (project, team) in projectTeams
    {
      permissions, hasLink := {}, false;
      var rest := teams;
      while rest != {}
        invariant rest <= teams
        invariant forall flag :: flag in permissions <==>
                    exists team :: team in teams - rest && (project, team) in projectTeams &&
                      flag in projectTeams[(project, team)]
        invariant hasLink <==> exists team :: team in teams - rest && (project, team) in projectTeams
        decreases rest
      {
        var team :| team in rest;
        ghost var before := rest;
        rest := rest - {team};
        assert teams - rest == teams - before + {team};
        if (project, team) in projectTeams {
          permissions := permissions + projectTeams[(project, team)];
          hasLink := true;
        }
      }
    }
  }
}

/** The team, project and organisation services: access control first, then guards, then writes. */
module WorkspaceService {
  import opened Primitives
  import opened Workspace
  import opened WorkspaceRepositories

  // The message did exactly what `Apply` says; a refused one changed nothing.
  ghost predicate Performed(before: State, c: Call, after: State, ok: bool) {
    Fresh(before, c) && (ok <==> Apply(before, c).Ok?) && after == Next(before, c)
  }

  class Service {
    const o: OrganizationRepository
    const t: TeamRepository
    const p: ProjectRepository
    var invited: set<OrgId>

    ghost function Current(): State
      reads this, o, t, p
    {
      State(o.View(), t.View(), p.View(), invited)
    }

    constructor (o: OrganizationRepository, t: TeamRepository, p: ProjectRepository)
      requires o.View() == EMPTY_ORGS && t.View() == EMPTY_TEAMS && p.View() == EMPTY_PROJECTS
      ensures this.o == o && this.t == t && this.p == p && Current() == EMPTY
    {
      this.o, this.t, this.p, invited := o, t, p, {};
    }

    method RequireOrg(user: UserId, org: OrgId, needed: OrgPermissions) returns (r: Result<OrgPermissions>)
      ensures r.Ok? <==> OrgAuth(Current(), user, org, needed)
      ensures r.Ok? ==> forall granted :: granted <= r.value <==> HoldsAll(t.View(), user, org, granted)
    {
      if (org, user) !in o.orgUsers {
        return Err;
      }
      var held := t.AggregateUserOrgPermissions(user, org);
      HeldMeansHolds(t.View(), user, org, held);
      r := if needed <= held then Ok(held) else Err;
    }

    lemma HeldMeansHolds(t: Teams, user: UserId, org: OrgId, held: OrgPermissions)
      requires forall flag :: flag in held <==> Holds(t, user, org, flag)
      ensures forall granted :: granted <= held <==> HoldsAll(t, user, org, granted)
    {
      hide Holds;
      forall granted ensures granted <= held <==> HoldsAll(t, user, org, granted) {
      }
    }

    method RequireTeamAccess(user: UserId, team: TeamId, needed: OrgPermissions)
      returns (r: Result<(OrgId, OrgPermissions)>)
      ensures r.Ok? <==> TeamAuth(Current(), user, team, needed)
      ensures r.Ok? ==> r.value.0 == t.teams[team]
                        && forall granted :: granted <= r.value.1 <==> HoldsAll(t.View(), user, r.value.0, granted)
    {
      if team !in t.teams {
        return Err;
      }
      var auth := RequireOrg(user, t.teams[team], needed);
      r := if auth.Ok? then Ok((t.teams[team], auth.value)) else Err;
    }

    method RequireProject(user: UserId, project: ProjectId, needed: ProjectPermissions)
      returns (r: Result<(OrgId, ProjectPermissions)>)
      ensures r.Ok? <==> ProjectAuth(Current(), user, project, needed)
      ensures r.Ok? ==>
                && r.value.0 == p.projects[project]
                && forall granted :: granted <= r.value.1 <==>
                   HoldsAllOnProject(t.View(), p.View(), user, project, granted)
    {
      if project !in p.projects || (p.projects[project], user) !in o.orgUsers {
        return Err;
      }
      var teams := set e | e in t.userTeams && e.0 == user :: e.1;
      assert forall team :: team in teams <==> (user, team) in t.userTeams by {
        assert forall e :: e in t.userTeams ==> e == (e.0, e.1);
      }
      var held, hasLink := p.AggregateTeamProjectPermissions(teams, project);
      HeldOnProject(t.View(), p.View(), user, project, held);
      r := if hasLink && needed <= held then Ok((p.projects[project], held)) else Err;
    }

    lemma HeldOnProject(t: Teams, p: Projects, user: UserId, project: ProjectId, held: ProjectPermissions)
      requires forall flag :: flag in held <==> HoldsOnProject(t, p, user, project, flag)
      ensures forall granted :: granted <= held <==> HoldsAllOnProject(t, p, user, project, granted)
    {
      hide HoldsOnProject;
      forall granted ensures granted <= held <==> HoldsAllOnProject(t, p, user, project, granted) {
      }
    }

    // The default organisation of `create_my_user_profile`.
    method BootstrapOrganization(user: UserId) returns (org: OrgId, team: TeamId, project: ProjectId)
      modifies o, t, p
      ensures Current() == Bootstrap(old(Current()), user, org, team, project)
      ensures Fresh(old(Current()), CreateProfile(user, org, team, project))
    {
      org := o.CreateOrg(user);
      team := t.CreateTeamWithPermissions(user, org, ALL_ORG_PERMISSIONS);
      project := p.CreateProject(org);
      p.AddTeam(team, project, ALL_PROJECT_PERMISSIONS);
    }

    method CreateOrganization(user: UserId) returns (r: Result<(OrgId, TeamId, ProjectId)>)
      modifies o, t, p
      ensures r.Ok? ==>
              Performed(old(Current()), Call.CreateOrganization(user, r.value.0, r.value.1, r.value.2), Current(), true)
      ensures r.Err? ==> Current() == old(Current())
      ensures r.Err? ==>
              forall org, team, project ::
                Apply(old(Current()), Call.CreateOrganization(user, org, team, project)) == Err
    {
      if |From(o.userOrgs, user)| >= MAX_ORGS_PER_USER {
        return Err;
      }
      var org, team, project := BootstrapOrganization(user);
      r := Ok((org, team, project));
    }

    // The error of `DeleteOrg` after the teams are gone cannot occur: members have an organisation.
    method DeleteOrganization(user: UserId, org: OrgId) returns (r: Result<()>)
      requires OrgsSound(o.View(), invited)
      modifies o, t
      ensures Performed(old(Current()), Call.DeleteOrganization(user, org), Current(), r.Ok?)
    {
      hide HoldsAll, RemoveOrg, RemoveOrgTeams;
      var auth := RequireOrg(user, org, {OrgAdmin});
      if auth.Err? || |From(o.userOrgs, user)| < 2 || From(p.orgProjects, org) != {} {
        return Err;
      }
      t.DeleteOrgTeams(org);
      r := o.DeleteOrg(org);
    }

    method Invite(user: UserId, org: OrgId) returns (r: Result<()>)
      modifies `invited
      ensures Performed(old(Current()), Call.Invite(user, org), Current(), r.Ok?)
    {
      hide HoldsAll;
      var auth := RequireOrg(user, org, {MemberManage});
      if auth.Err? {
        return Err;
      }
      invited := invited + {org};
      r := Ok(());
    }

    // Joining twice is the same as joining once.
    method AcceptInvite(user: UserId, org: OrgId) returns (r: Result<()>)
      modifies o
      ensures Performed(old(Current()), Call.AcceptInvite(user, org), Current(), r.Ok?)
    {
      if org !in invited {
        return Err;
      }
      if (org, user) !in o.orgUsers {
        o.AddUserToOrg(user, org);
      }
      r := Ok(());
    }

    method CreateTeam(user: UserId, org: OrgId) returns (r: Result<TeamId>)
      modifies t
      ensures r.Ok? ==> Performed(old(Current()), Call.CreateTeam(user, org, r.value), Current(), true)
      ensures r.Err? ==> Current() == old(Current())
      ensures r.Err? ==> forall team :: Apply(old(Current()), Call.CreateTeam(user, org, team)) == Err
    {
      hide HoldsAll;
      var auth := RequireOrg(user, org, {TeamManage});
      if auth.Err? || |TeamsOf(t.View(), org)| >= MAX_TEAMS_PER_ORG {
        return Err;
      }
      var team := t.CreateTeamWithPermissions(user, org, ALL_ORG_PERMISSIONS);
      r := Ok(team);
    }

    method DeleteTeam(user: UserId, team: TeamId) returns (r: Result<()>)
      modifies t, p
      ensures Performed(old(Current()), Call.DeleteTeam(user, team), Current(), r.Ok?)
    {
      hide HoldsAll, RemoveTeam, RemoveTeamLinks;
      var auth := RequireTeamAccess(user, team, {TeamManage});
      if auth.Err? {
        return Err;
      }
      var org := auth.value.0;
      if |TeamsOf(t.View(), org)| < 2 || From(p.teamProjects.Keys, team) != {} ||
        !PopulatedWithoutTeam(t.View(), org, team) {
        return Err;
      }
      p.RemoveTeamProjectLinks(team);
      r := t.DeleteTeam(team, org);
    }

    method AddUserToTeam(user: UserId, target: UserId, team: TeamId) returns (r: Result<()>)
      modifies t
      ensures Performed(old(Current()), Call.AddUserToTeam(user, target, team), Current(), r.Ok?)
    {
      hide HoldsAll;
      var auth := RequireTeamAccess(user, team, {MemberManage});
      if auth.Err? {
        return Err;
      }
      var org := auth.value.0;
      if (org, target) !in o.orgUsers {
        return Err;
      }
      var granted := if (org, team) in t.orgTeams then t.orgTeams[(org, team)] else {};
      if !(granted <= auth.value.1) {
        return Err;
      }
      if !IsMember(t.View(), target, team) {
        t.AddUser(target, team);
      }
      r := Ok(());
    }

    method RemoveUserFromTeam(user: UserId, target: UserId, team: TeamId) returns (r: Result<()>)
      modifies t
      ensures Performed(old(Current()), Call.RemoveUserFromTeam(user, target, team), Current(), r.Ok?)
    {
      hide HoldsAll, RemoveFromTeam;
      var auth := RequireTeamAccess(user, team, {MemberManage});
      if auth.Err? {
        return Err;
      }
      if !IsMember(t.View(), target, team) {
        return Ok(());
      }
      if !PopulatedWithoutMember(t.View(), auth.value.0, team, target) {
        return Err;
      }
      t.RemoveUser(target, team);
      r := Ok(());
    }

    method UpdateTeamOrgPermissions(user: UserId, team: TeamId, permissions: OrgPermissions) returns (r: Result<()>)
      modifies t
      ensures Performed(old(Current()), Call.UpdateTeamOrgPermissions(user, team, permissions), Current(), r.Ok?)
    {
      hide HoldsAll, SetOrgTeamPermissions;
      var auth := RequireTeamAccess(user, team, {OrgAdmin});
      if auth.Err? {
        return Err;
      }
      var org := auth.value.0;
      if !(permissions <= auth.value.1) {
        return Err;
      }
      if OrgAdmin !in permissions && !PopulatedWithoutTeam(t.View(), org, team) {
        return Err;
      }
      t.SetPermissions(org, team, permissions);
      r := Ok(());
    }

    // Every team of the creator in the organisation is linked, one after the other.
    method CreateProject(user: UserId, org: OrgId) returns (r: Result<ProjectId>)
      modifies p
      ensures r.Ok? ==> Performed(old(Current()), Call.CreateProject(user, org, r.value), Current(), true)
      ensures r.Err? ==> Current() == old(Current())
      ensures r.Err? ==> forall project :: Apply(old(Current()), Call.CreateProject(user, org, project)) == Err
    {
      hide HoldsAll, LinkTeams, LinkTeam, AddProject;
      var auth := RequireOrg(user, org, {ProjectCreate});
      if auth.Err? || |From(p.orgProjects, org)| >= MAX_PROJECTS_PER_ORG {
        return Err;
      }
      var project := p.CreateProject(org);
      ghost var created := p.View();
      var rest := UserTeamsIn(t.View(), user, org);
      ghost var linked: set<TeamId> := {};
      LinkNoTeam(created, project);
      while rest != {}
        invariant rest + linked == UserTeamsIn(t.View(), user, org)
        invariant p.View() == LinkTeams(created, linked, project)
        decreases rest
      {
        var team :| team in rest;
        LinkOneMoreTeam(created, linked, team, project);
        rest, linked := rest - {team}, linked + {team};
        p.AddTeam(team, project, ALL_PROJECT_PERMISSIONS);
      }
      assert linked == UserTeamsIn(t.View(), user, org);
      r := Ok(project);
    }

    static lemma LinkNoTeam(p: Projects, project: ProjectId)
      ensures LinkTeams(p, {}, project) == p
    {
      assert Pairs(project, {}) == {} && Flip({}) == {};
    }

    static lemma LinkOneMoreTeam(p: Projects, teams: set<TeamId>, team: TeamId, project: ProjectId)
      ensures LinkTeams(p, teams + {team}, project) ==
              LinkTeam(LinkTeams(p, teams, project), team, project, ALL_PROJECT_PERMISSIONS)
    {
      var pairs := Pairs(project, teams);
      assert Pairs(project, teams + {team}) == pairs + {(project, team)};
      FlipOneMore(pairs, (project, team));
      AddOneMoreKey(p.projectTeams, pairs, (project, team), ALL_PROJECT_PERMISSIONS);
      AddOneMoreKey(p.teamProjects, Flip(pairs), (team, project), ALL_PROJECT_PERMISSIONS);
    }

    static lemma AddOneMoreKey<K, V>(m: map<K, V>, keys: set<K>, key: K, value: V)
      ensures m + Constant(keys + {key}, value) == (m + Constant(keys, value))[key := value]
    {
    }

    method DeleteProject(user: UserId, project: ProjectId, hasCanisters: bool) returns (r: Result<()>)
      modifies p
      ensures Performed(old(Current()), Call.DeleteProject(user, project, hasCanisters), Current(), r.Ok?)
    {
      hide HasLink, HoldsAllOnProject, RemoveProject;
      var auth := RequireProject(user, project, {ProjectAdmin});
      if auth.Err? || |From(p.orgProjects, auth.value.0)| < 2 || hasCanisters {
        return Err;
      }
      r := p.DeleteProject(project, auth.value.0);
    }

    method AddTeamToProject(user: UserId, project: ProjectId, team: TeamId) returns (r: Result<()>)
      modifies p
      ensures Performed(old(Current()), Call.AddTeamToProject(user, project, team), Current(), r.Ok?)
    {
      hide HasLink, HoldsAllOnProject, LinkTeam;
      var auth := RequireProject(user, project, {ProjectAdmin});
      if auth.Err? || !(team in t.teams && t.teams[team] == auth.value.0) {
        return Err;
      }
      if (project, team) !in p.projectTeams {
        p.AddTeam(team, project, ALL_PROJECT_PERMISSIONS);
      }
      r := Ok(());
    }

    method RemoveTeamFromProject(user: UserId, project: ProjectId, team: TeamId) returns (r: Result<()>)
      modifies p
      ensures Performed(old(Current()), Call.RemoveTeamFromProject(user, project, team), Current(), r.Ok?)
    {
      hide HasLink, HoldsAllOnProject, UnlinkTeam;
      var auth := RequireProject(user, project, {ProjectAdmin});
      if auth.Err? {
        return Err;
      }
      if (project, team) !in p.projectTeams {
        return Ok(());
      }
      if |From(p.projectTeams.Keys, project)| < 2 {
        return Err;
      }
      p.RemoveTeamFromProject(team, project);
      r := Ok(());
    }

    method UpdateTeamProjectPermissions(user: UserId, project: ProjectId, team: TeamId, permissions: ProjectPermissions)
      returns (r: Result<()>)
      modifies p
      ensures Performed(old(Current()), Call.UpdateTeamProjectPermissions(user, project, team, permissions), Current(),
              r.Ok?)
    {
      hide HasLink, HoldsAllOnProject, SetProjectTeamPermissions;
      var auth := RequireProject(user, project, {ProjectAdmin});
      if auth.Err? || !(team in t.teams && t.teams[team] == auth.value.0) || (project, team) !in p.projectTeams {
        return Err;
      }
      if !(permissions <= auth.value.1) {
        return Err;
      }
      p.SetPermissions(project, team, permissions);
      r := Ok(());
    }
  }
}
