/** What an accepted message does to every membership, team, project and link, and who may send it. */
module WorkspaceEffects {
  import opened Primitives
  import opened Workspace

  ghost predicate Accepted(s: State, c: Call) {
    Apply(s, c).Ok?
  }

  predicate Founds(c: Call) {
    c.CreateProfile? || c.CreateOrganization?
  }

  predicate MakesTeam(c: Call) {
    Founds(c) || c.CreateTeam?
  }

  predicate MakesProject(c: Call) {
    Founds(c) || c.CreateProject?
  }

  predicate TouchesTeams(c: Call) {
    MakesTeam(c) || c.DeleteTeam? || c.AddUserToTeam? || c.RemoveUserFromTeam? || c.UpdateTeamOrgPermissions?
  }

  predicate TouchesProjects(c: Call) {
    || MakesProject(c) || c.DeleteProject? || c.AddTeamToProject? || c.RemoveTeamFromProject?
    || c.UpdateTeamProjectPermissions?
  }

  // --- Which part of the state a message writes ---

  lemma NotDeleted(s: State, c: Call)
    requires Sound(s) && Accepted(s, c)
    ensures !c.DeleteOrganization?
  {
    hide Sound;
    if c.DeleteOrganization? {
      DeleteOrganizationRefused(s, c.user, c.org);
    }
  }

  lemma OrgsAfter(s: State, c: Call)
    requires Sound(s)
    ensures Next(s, c).o ==
            if !Accepted(s, c) then s.o
            else if Founds(c) then AddOrg(s.o, c.org, c.user)
            else if c.AcceptInvite? && (c.org, c.user) !in s.o.orgUsers then AddMember(s.o, c.org, c.user)
            else s.o
  {
    hide Sound, OrgAuth, TeamAuth, ProjectAuth, HoldsAll, HoldsAllOnProject, PopulatedWithoutTeam,
      PopulatedWithoutMember, AddMember, AddOrg, From, RemoveOrg, RemoveOrgTeams, LinkTeam, LinkTeams, AddProject,
      RemoveProject, UnlinkTeam, SetProjectTeamPermissions, UserTeamsIn, AddTeam, RemoveTeam, AddToTeam, RemoveFromTeam;
    if Accepted(s, c) {
      NotDeleted(s, c);
    }
  }

  // Nothing but messages about teams writes teams.
  lemma TeamsUntouched(s: State, c: Call)
    requires Sound(s) && (!Accepted(s, c) || !TouchesTeams(c))
    ensures Next(s, c).t == s.t
  {
    hide Sound, OrgAuth, TeamAuth, ProjectAuth, HoldsAll, HoldsAllOnProject, PopulatedWithoutTeam,
      PopulatedWithoutMember, AddMember, From, Bootstrap, RemoveOrg, RemoveOrgTeams, LinkTeam, LinkTeams, AddProject,
      RemoveProject, UnlinkTeam, SetProjectTeamPermissions, UserTeamsIn, AddTeam, RemoveTeam, AddToTeam, RemoveFromTeam;
    if Accepted(s, c) {
      NotDeleted(s, c);
    }
  }

  lemma TeamMade(s: State, c: Call)
    requires Accepted(s, c) && MakesTeam(c)
    ensures Next(s, c).t == AddTeam(s.t, c.team, c.user, c.org, ALL_ORG_PERMISSIONS)
  {
    hide OrgAuth, AddTeam, AddOrg, LinkTeam, AddProject;
  }

  lemma TeamDeleted(s: State, c: Call)
    requires Accepted(s, c) && c.DeleteTeam?
    ensures c.team in s.t.teams && Next(s, c).t == RemoveTeam(s.t, c.team, s.t.teams[c.team])
    ensures From(s.p.teamProjects.Keys, c.team) == {}
  {
    hide OrgAuth, PopulatedWithoutTeam, RemoveTeam, RemoveTeamLinks;
  }

  lemma UserAdded(s: State, c: Call)
    requires Accepted(s, c) && c.AddUserToTeam?
    ensures c.team in s.t.teams
    ensures Next(s, c).t == if IsMember(s.t, c.target, c.team) then s.t else AddToTeam(s.t, c.target, c.team)
  {
    hide OrgAuth, HoldsAll, AddToTeam;
  }

  lemma UserRemoved(s: State, c: Call)
    requires Accepted(s, c) && c.RemoveUserFromTeam?
    ensures c.team in s.t.teams
    ensures Next(s, c).t == if IsMember(s.t, c.target, c.team) then RemoveFromTeam(s.t, c.target, c.team) else s.t
  {
    hide OrgAuth, PopulatedWithoutMember, RemoveFromTeam;
  }

  lemma FlagsUpdated(s: State, c: Call)
    requires Accepted(s, c) && c.UpdateTeamOrgPermissions?
    ensures c.team in s.t.teams
    ensures Next(s, c).t == SetOrgTeamPermissions(s.t, s.t.teams[c.team], c.team, c.orgPermissions)
  {
    hide OrgAuth, HoldsAll, PopulatedWithoutTeam, SetOrgTeamPermissions;
  }

  // Nothing but messages about projects writes projects; a team that may be deleted has no links.
  lemma ProjectsUntouched(s: State, c: Call)
    requires Sound(s) && (!Accepted(s, c) || !TouchesProjects(c))
    ensures Next(s, c).p == s.p
  {
    hide Sound, OrgAuth, TeamAuth, ProjectAuth, HoldsAll, HoldsAllOnProject, PopulatedWithoutTeam,
      PopulatedWithoutMember, AddMember, AddTeam, AddToTeam, RemoveFromTeam, SetOrgTeamPermissions, From, Bootstrap,
      RemoveOrg, RemoveOrgTeams, RemoveTeam, RemoveTeamLinks, LinkTeam, LinkTeams, AddProject, RemoveProject,
      UnlinkTeam, SetProjectTeamPermissions, UserTeamsIn;
    if Accepted(s, c) {
      NotDeleted(s, c);
      if c.DeleteTeam? {
        TeamDeleted(s, c);
        NoLinksLeft(s, c.team);
      }
    }
  }

  lemma NoLinksLeft(s: State, team: TeamId)
    ensures From(s.p.teamProjects.Keys, team) == {} ==> RemoveTeamLinks(s.p, team) == s.p
  {
    if From(s.p.teamProjects.Keys, team) == {} {
      assert Flip({}) == {};
      assert s.p.projectTeams - {} == s.p.projectTeams && s.p.teamProjects - {} == s.p.teamProjects;
    }
  }

  lemma ProjectFounded(s: State, c: Call)
    requires Accepted(s, c) && Founds(c)
    ensures Next(s, c).p == LinkTeam(AddProject(s.p, c.project, c.org), c.team, c.project, ALL_PROJECT_PERMISSIONS)
  {
    hide AddTeam, AddOrg, LinkTeam, AddProject;
  }

  lemma ProjectCreated(s: State, c: Call)
    requires Accepted(s, c) && c.CreateProject?
    ensures Next(s, c).p == LinkTeams(AddProject(s.p, c.project, c.org), UserTeamsIn(s.t, c.user, c.org), c.project)
  {
    hide OrgAuth, LinkTeams, AddProject, UserTeamsIn;
  }

  lemma ProjectDeleted(s: State, c: Call)
    requires Accepted(s, c) && c.DeleteProject?
    ensures c.project in s.p.projects && Next(s, c).p == RemoveProject(s.p, c.project, s.p.projects[c.project])
  {
    hide HoldsAllOnProject, HasLink, RemoveProject;
  }

  lemma TeamLinked(s: State, c: Call)
    requires Accepted(s, c) && c.AddTeamToProject?
    ensures c.project in s.p.projects && c.team in s.t.teams
    ensures Next(s, c).p ==
            if (c.project, c.team) in s.p.projectTeams then s.p
            else LinkTeam(s.p, c.team, c.project, ALL_PROJECT_PERMISSIONS)
  {
    hide HoldsAllOnProject, HasLink, LinkTeam;
  }

  lemma TeamUnlinked(s: State, c: Call)
    requires Accepted(s, c) && c.RemoveTeamFromProject?
    ensures c.project in s.p.projects
    ensures Next(s, c).p ==
            if (c.project, c.team) in s.p.projectTeams then UnlinkTeam(s.p, c.team, c.project) else s.p
  {
    hide HoldsAllOnProject, HasLink, UnlinkTeam;
  }

  lemma LinkUpdated(s: State, c: Call)
    requires Accepted(s, c) && c.UpdateTeamProjectPermissions?
    ensures c.project in s.p.projects && (c.project, c.team) in s.p.projectTeams
    ensures Next(s, c).p == LinkTeam(s.p, c.team, c.project, c.projectPermissions)
  {
    hide HoldsAllOnProject, HasLink, LinkTeam;
  }

  // --- Organisations and their members ---

  // Members come by founding an organisation or accepting an invite to it, and they stay.
  lemma MembersIff(s: State, c: Call, org: OrgId, user: UserId)
    requires Sound(s)
    ensures (org, user) in Next(s, c).o.orgUsers <==>
            || (org, user) in s.o.orgUsers
            || (Accepted(s, c) && (Founds(c) || c.AcceptInvite?) && c.org == org && c.user == user)
  {
    OrgsAfter(s, c);
    hide Sound, Accepted, Next;
  }

  // An organisation can be joined from the first invite to it on.
  lemma InvitedIff(s: State, c: Call, org: OrgId)
    requires Sound(s)
    ensures org in Next(s, c).invited <==> org in s.invited || (Accepted(s, c) && c.Invite? && c.org == org)
  {
    hide Sound, OrgAuth, TeamAuth, ProjectAuth, HoldsAll, HoldsAllOnProject, PopulatedWithoutTeam,
      PopulatedWithoutMember, AddMember, AddOrg, From, RemoveOrg, RemoveOrgTeams, LinkTeam, LinkTeams, AddProject,
      RemoveProject, UnlinkTeam, SetProjectTeamPermissions, UserTeamsIn, AddTeam, RemoveTeam, AddToTeam, RemoveFromTeam;
  }

  // --- Teams and their members ---

  // Whom a message puts into a team, and whom it takes out.
  predicate Enters(c: Call, team: TeamId, user: UserId) {
    (c.AddUserToTeam? && c.target == user && c.team == team) || (MakesTeam(c) && c.user == user && c.team == team)
  }

  predicate Leaves(c: Call, team: TeamId, user: UserId) {
    (c.RemoveUserFromTeam? && c.target == user && c.team == team) || (c.DeleteTeam? && c.team == team)
  }

  // In both indexes: whoever was put into the team and has not been taken out.
  lemma TeamMembersIff(s: State, c: Call, team: TeamId, user: UserId)
    requires Sound(s) && Fresh(s, c)
    ensures var t := Next(s, c).t;
            && ((team, user) in t.teamUsers <==>
                  || (Accepted(s, c) && Enters(c, team, user))
                  || ((team, user) in s.t.teamUsers && !(Accepted(s, c) && Leaves(c, team, user))))
            && ((user, team) in t.userTeams <==> (team, user) in t.teamUsers)
  {
    hide Sound, Accepted, Next, Fresh;
    StepKeepsSound(s, c);
    MembersMirror(Next(s, c), team, user);
    if !Accepted(s, c) || !TouchesTeams(c) {
      TeamsUntouched(s, c);
    } else if MakesTeam(c) {
      TeamMade(s, c);
    } else if c.DeleteTeam? {
      TeamDeleted(s, c);
    } else if c.AddUserToTeam? {
      UserAdded(s, c);
    } else if c.RemoveUserFromTeam? {
      UserRemoved(s, c);
    } else {
      FlagsUpdated(s, c);
    }
  }

  lemma MembersMirror(s: State, team: TeamId, user: UserId)
    requires Sound(s)
    ensures (team, user) in s.t.teamUsers <==> (user, team) in s.t.userTeams
  {
    hide OrgsSound, ProjectsSound, AllAdministered, AllStaffed;
  }

  lemma TeamIndexed(s: State, team: TeamId, org: OrgId)
    requires Sound(s)
    ensures (org, team) in s.t.orgTeams <==> team in s.t.teams && s.t.teams[team] == org
  {
    hide OrgsSound, ProjectsSound, AllAdministered, AllStaffed;
  }

  lemma LinkMirrored(s: State, project: ProjectId, team: TeamId)
    requires Sound(s)
    ensures (project, team) in s.p.projectTeams <==> (team, project) in s.p.teamProjects
    ensures (project, team) in s.p.projectTeams ==>
              && s.p.projectTeams[(project, team)] == s.p.teamProjects[(team, project)]
              && project in s.p.projects && team in s.t.teams
  {
    hide OrgsSound, TeamsSound, AllAdministered, AllStaffed;
  }

  // A team exists from its creation until it is deleted, in the organisation it was created in.
  lemma TeamsIff(s: State, c: Call, team: TeamId, org: OrgId)
    requires Sound(s) && Fresh(s, c)
    ensures var t := Next(s, c).t;
            team in t.teams && t.teams[team] == org <==>
            || (Accepted(s, c) && MakesTeam(c) && c.team == team && c.org == org)
            || (team in s.t.teams && s.t.teams[team] == org && !(Accepted(s, c) && c.DeleteTeam? && c.team == team))
  {
    hide Sound, Accepted, Next;
    if !Accepted(s, c) || !TouchesTeams(c) {
      TeamsUntouched(s, c);
    } else if MakesTeam(c) {
      TeamMade(s, c);
    } else if c.DeleteTeam? {
      TeamDeleted(s, c);
    } else if c.AddUserToTeam? {
      UserAdded(s, c);
    } else if c.RemoveUserFromTeam? {
      UserRemoved(s, c);
    } else {
      FlagsUpdated(s, c);
    }
  }

  // A new team holds every flag; afterwards its flags are those it was last given.
  lemma TeamFlagsAre(s: State, c: Call, team: TeamId)
    requires Sound(s) && Fresh(s, c) && team in Next(s, c).t.teams
    ensures team in s.t.teams ==> (s.t.teams[team], team) in s.t.orgTeams
    ensures var t := Next(s, c).t;
            && (t.teams[team], team) in t.orgTeams
            && t.orgTeams[(t.teams[team], team)] ==
               if Accepted(s, c) && MakesTeam(c) && c.team == team then ALL_ORG_PERMISSIONS
               else if Accepted(s, c) && c.UpdateTeamOrgPermissions? && c.team == team then c.orgPermissions
               else if team in s.t.teams then s.t.orgTeams[(s.t.teams[team], team)] else {}
  {
    hide Sound, Accepted, Next, Fresh;
    StepKeepsSound(s, c);
    TeamIndexed(Next(s, c), team, Next(s, c).t.teams[team]);
    if team in s.t.teams {
      TeamIndexed(s, team, s.t.teams[team]);
    }
    if !Accepted(s, c) || !TouchesTeams(c) {
      TeamsUntouched(s, c);
    } else if MakesTeam(c) {
      TeamMade(s, c);
    } else if c.DeleteTeam? {
      TeamDeleted(s, c);
    } else if c.AddUserToTeam? {
      UserAdded(s, c);
    } else if c.RemoveUserFromTeam? {
      UserRemoved(s, c);
    } else {
      FlagsUpdated(s, c);
    }
  }

  // --- Projects and their teams ---

  // A project exists from its creation until it is deleted, in the organisation it was created in.
  lemma ProjectsIff(s: State, c: Call, project: ProjectId, org: OrgId)
    requires Sound(s) && Fresh(s, c)
    ensures var p := Next(s, c).p;
            project in p.projects && p.projects[project] == org <==>
            || (Accepted(s, c) && MakesProject(c) && c.project == project && c.org == org)
            || (&& project in s.p.projects && s.p.projects[project] == org
                && !(Accepted(s, c) && c.DeleteProject? && c.project == project))
  {
    hide Sound, Accepted, Next;
    if !Accepted(s, c) || !TouchesProjects(c) {
      ProjectsUntouched(s, c);
    } else if Founds(c) {
      ProjectFounded(s, c);
    } else if c.CreateProject? {
      ProjectCreated(s, c);
    } else if c.DeleteProject? {
      ProjectDeleted(s, c);
    } else if c.AddTeamToProject? {
      TeamLinked(s, c);
    } else if c.RemoveTeamFromProject? {
      TeamUnlinked(s, c);
    } else {
      LinkUpdated(s, c);
    }
  }

  // Which teams a message links to a project, and which it unlinks.
  predicate Links(s: State, c: Call, project: ProjectId, team: TeamId) {
    || (c.AddTeamToProject? && c.project == project && c.team == team)
    || (Founds(c) && c.project == project && c.team == team)
    || (c.CreateProject? && c.project == project && (c.user, team) in s.t.userTeams && (c.org, team) in s.t.orgTeams)
  }

  predicate Unlinks(c: Call, project: ProjectId, team: TeamId) {
    || (c.RemoveTeamFromProject? && c.project == project && c.team == team)
    || (c.DeleteProject? && c.project == project)
  }

  // In both indexes: whatever was linked and has not been unlinked.
  lemma LinksIff(s: State, c: Call, project: ProjectId, team: TeamId)
    requires Sound(s) && Fresh(s, c)
    ensures var p := Next(s, c).p;
            && ((project, team) in p.projectTeams <==>
                  || (Accepted(s, c) && Links(s, c, project, team))
                  || ((project, team) in s.p.projectTeams && !(Accepted(s, c) && Unlinks(c, project, team))))
            && ((team, project) in p.teamProjects <==> (project, team) in p.projectTeams)
  {
    hide Sound, Accepted, Next, Fresh;
    StepKeepsSound(s, c);
    LinkMirrored(Next(s, c), project, team);
    LinkMirrored(s, project, team);
    if !Accepted(s, c) || !TouchesProjects(c) {
      ProjectsUntouched(s, c);
    } else if Founds(c) {
      ProjectFounded(s, c);
    } else if c.CreateProject? {
      ProjectCreated(s, c);
    } else if c.DeleteProject? {
      ProjectDeleted(s, c);
    } else if c.AddTeamToProject? {
      TeamLinked(s, c);
    } else if c.RemoveTeamFromProject? {
      TeamUnlinked(s, c);
    } else {
      LinkUpdated(s, c);
    }
  }

  lemma NewProjectUnlinked(s: State, c: Call, team: TeamId)
    requires Sound(s) && Fresh(s, c) && MakesProject(c)
    ensures (c.project, team) !in s.p.projectTeams
  {
    LinkMirrored(s, c.project, team);
    hide Sound;
  }

  // A new link holds every flag; afterwards its flags are those it was last given.
  lemma LinkFlagsAre(s: State, c: Call, project: ProjectId, team: TeamId)
    requires Sound(s) && Fresh(s, c) && (project, team) in Next(s, c).p.projectTeams
    ensures Next(s, c).p.projectTeams[(project, team)] ==
            if Accepted(s, c) && c.UpdateTeamProjectPermissions? && c.project == project && c.team == team
            then c.projectPermissions
            else if (project, team) in s.p.projectTeams then s.p.projectTeams[(project, team)]
            else ALL_PROJECT_PERMISSIONS
  {
    hide Sound, Accepted, Next, Fresh;
    StepKeepsSound(s, c);
    LinkMirrored(Next(s, c), project, team);
    LinkMirrored(s, project, team);
    if !Accepted(s, c) || !TouchesProjects(c) {
      ProjectsUntouched(s, c);
    } else if Founds(c) {
      NewProjectUnlinked(s, c, team);
      ProjectFounded(s, c);
    } else if c.CreateProject? {
      NewProjectUnlinked(s, c, team);
      ProjectCreated(s, c);
    } else if c.DeleteProject? {
      ProjectDeleted(s, c);
    } else if c.AddTeamToProject? {
      TeamLinked(s, c);
    } else if c.RemoveTeamFromProject? {
      TeamUnlinked(s, c);
    } else {
      LinkUpdated(s, c);
    }
  }

  // --- What a revoking message takes away ---

  predicate TakesFromTeams(c: Call) {
    c.RemoveUserFromTeam? || c.DeleteTeam?
  }

  predicate TakesFromProjects(c: Call) {
    TakesFromTeams(c) || c.RemoveTeamFromProject? || c.DeleteProject?
  }

  lemma HoldsThroughAfter(s: State, c: Call, user: UserId, org: OrgId, team: TeamId, flag: OrgPermission)
    requires Sound(s) && Fresh(s, c) && TakesFromTeams(c)
    ensures HoldsThrough(Next(s, c).t, user, org, team, flag) <==>
            HoldsThrough(s.t, user, org, team, flag) && !(Accepted(s, c) && Leaves(c, team, user))
  {
    hide Sound, Accepted, Next, Fresh;
    var t := Next(s, c).t;
    StepKeepsSound(s, c);
    TeamMembersIff(s, c, team, user);
    MembersMirror(s, team, user);
    TeamsIff(s, c, team, org);
    TeamIndexed(s, team, org);
    TeamIndexed(Next(s, c), team, org);
    if team in t.teams && t.teams[team] == org {
      TeamFlagsAre(s, c, team);
    }
  }

  // After a removal or the deletion of a team, a user holds an organisation flag exactly when another of
  // their teams held it.
  lemma RevokedFlags(s: State, c: Call, user: UserId, org: OrgId, flag: OrgPermission)
    requires Sound(s) && Fresh(s, c) && TakesFromTeams(c)
    ensures Holds(Next(s, c).t, user, org, flag) <==>
            exists team :: HoldsThrough(s.t, user, org, team, flag) && !(Accepted(s, c) && Leaves(c, team, user))
  {
    hide Sound, Accepted, Next, Fresh, Leaves;
    var t := Next(s, c).t;
    if Holds(t, user, org, flag) {
      var team :| (user, team) in t.userTeams && (org, team) in t.orgTeams && flag in t.orgTeams[(org, team)];
      HoldsThroughAfter(s, c, user, org, team, flag);
    }
    if team: TeamId :| HoldsThrough(s.t, user, org, team, flag) && !(Accepted(s, c) && Leaves(c, team, user)) {
      HoldsThroughAfter(s, c, user, org, team, flag);
    }
  }

  lemma HoldsOnProjectThroughAfter(
    s: State, c: Call, user: UserId, project: ProjectId, team: TeamId, flag: ProjectPermission)
    requires Sound(s) && Fresh(s, c) && TakesFromProjects(c)
    ensures HoldsOnProjectThrough(Next(s, c).t, Next(s, c).p, user, project, team, flag) <==>
            && HoldsOnProjectThrough(s.t, s.p, user, project, team, flag)
            && !(Accepted(s, c) && (Leaves(c, team, user) || Unlinks(c, project, team)))
  {
    hide Sound, Accepted, Next, Fresh;
    TeamMembersIff(s, c, team, user);
    MembersMirror(s, team, user);
    LinksIff(s, c, project, team);
    if (project, team) in Next(s, c).p.projectTeams {
      LinkFlagsAre(s, c, project, team);
    }
  }

  // After a removal, the deletion of a team, an unlinking or the deletion of a project, a user holds a
  // project flag exactly when another of their linked teams held it.
  lemma RevokedProjectFlags(s: State, c: Call, user: UserId, project: ProjectId, flag: ProjectPermission)
    requires Sound(s) && Fresh(s, c) && TakesFromProjects(c)
    ensures HoldsOnProject(Next(s, c).t, Next(s, c).p, user, project, flag) <==>
            exists team ::
              && HoldsOnProjectThrough(s.t, s.p, user, project, team, flag)
              && !(Accepted(s, c) && (Leaves(c, team, user) || Unlinks(c, project, team)))
  {
    hide Sound, Accepted, Next, Fresh, Leaves, Unlinks;
    var t, p := Next(s, c).t, Next(s, c).p;
    if HoldsOnProject(t, p, user, project, flag) {
      var team :| (user, team) in t.userTeams && (project, team) in p.projectTeams &&
        flag in p.projectTeams[(project, team)];
      HoldsOnProjectThroughAfter(s, c, user, project, team, flag);
    }
    if team: TeamId :| HoldsOnProjectThrough(s.t, s.p, user, project, team, flag) &&
                       !(Accepted(s, c) && (Leaves(c, team, user) || Unlinks(c, project, team))) {
      HoldsOnProjectThroughAfter(s, c, user, project, team, flag);
    }
  }

  // --- Over whole runs ---

  ghost predicate AcceptedAt(calls: seq<Call>, i: nat)
    requires i < |calls|
  {
    Accepted(Run(calls[..i]), calls[i])
  }

  // Which messages of a run are accepted and put the user into the team, and which take them out.
  ghost function EntersAt(calls: seq<Call>, team: TeamId, user: UserId): seq<bool> {
    seq(|calls|, i requires 0 <= i < |calls| => AcceptedAt(calls, i) && Enters(calls[i], team, user))
  }

  ghost function LeavesAt(calls: seq<Call>, team: TeamId, user: UserId): seq<bool> {
    seq(|calls|, i requires 0 <= i < |calls| => AcceptedAt(calls, i) && Leaves(calls[i], team, user))
  }

  ghost function LinksAt(calls: seq<Call>, project: ProjectId, team: TeamId): seq<bool> {
    seq(|calls|, i requires 0 <= i < |calls| => AcceptedAt(calls, i) && Links(Run(calls[..i]), calls[i], project, team))
  }

  ghost function UnlinksAt(calls: seq<Call>, project: ProjectId, team: TeamId): seq<bool> {
    seq(|calls|, i requires 0 <= i < |calls| => AcceptedAt(calls, i) && Unlinks(calls[i], project, team))
  }

  lemma MembershipStep(calls: seq<Call>, team: TeamId, user: UserId)
    requires calls != []
    ensures var n := |calls| - 1;
            && EntersAt(calls, team, user) ==
               EntersAt(calls[..n], team, user) + [AcceptedAt(calls, n) && Enters(calls[n], team, user)]
            && LeavesAt(calls, team, user) ==
               LeavesAt(calls[..n], team, user) + [AcceptedAt(calls, n) && Leaves(calls[n], team, user)]
  {
    hide Accepted, Run, Enters, Leaves;
    var n := |calls| - 1;
    assert forall i :: 0 <= i < n ==> calls[..n][i] == calls[i] && calls[..n][..i] == calls[..i];
  }

  lemma LinkStep(calls: seq<Call>, project: ProjectId, team: TeamId)
    requires calls != []
    ensures var n := |calls| - 1;
            && LinksAt(calls, project, team) ==
               LinksAt(calls[..n], project, team) +
               [AcceptedAt(calls, n) && Links(Run(calls[..n]), calls[n], project, team)]
            && UnlinksAt(calls, project, team) ==
               UnlinksAt(calls[..n], project, team) + [AcceptedAt(calls, n) && Unlinks(calls[n], project, team)]
  {
    hide Accepted, Run, Links, Unlinks;
    var n := |calls| - 1;
    assert forall i :: 0 <= i < n ==> calls[..n][i] == calls[i] && calls[..n][..i] == calls[..i];
  }

  // In every reachable state the members of a team are exactly those whom an accepted message put in and
  // no later one took out.
  lemma {:induction false} TeamMembersAreHistory(calls: seq<Call>, team: TeamId, user: UserId)
    requires FreshIds(calls)
    ensures (team, user) in Run(calls).t.teamUsers <==>
            Standing(EntersAt(calls, team, user), LeavesAt(calls, team, user))
  {
    hide Accepted, Next, Fresh, Sound, Enters, Leaves, Standing;
    if calls != [] {
      var n := |calls| - 1;
      var init, c := calls[..n], calls[n];
      TeamMembersAreHistory(init, team, user);
      RunKeepsSound(init);
      TeamMembersIff(Run(init), c, team, user);
      MembershipStep(calls, team, user);
      var accepted := Accepted(Run(init), c);
      StandingStep(EntersAt(init, team, user), LeavesAt(init, team, user),
                   accepted && Enters(c, team, user), accepted && Leaves(c, team, user));
    } else {
      NothingStands();
      assert Run(calls) == EMPTY;
      assert EntersAt(calls, team, user) == [] && LeavesAt(calls, team, user) == [];
    }
  }

  // Likewise the teams linked to a project.
  lemma {:induction false} LinksAreHistory(calls: seq<Call>, project: ProjectId, team: TeamId)
    requires FreshIds(calls)
    ensures (project, team) in Run(calls).p.projectTeams <==>
            Standing(LinksAt(calls, project, team), UnlinksAt(calls, project, team))
  {
    hide Accepted, Next, Fresh, Sound, Links, Unlinks, Standing;
    if calls != [] {
      var n := |calls| - 1;
      var init, c := calls[..n], calls[n];
      LinksAreHistory(init, project, team);
      RunKeepsSound(init);
      LinksIff(Run(init), c, project, team);
      LinkStep(calls, project, team);
      var accepted := Accepted(Run(init), c);
      StandingStep(LinksAt(init, project, team), UnlinksAt(init, project, team),
                   accepted && Links(Run(init), c, project, team), accepted && Unlinks(c, project, team));
    } else {
      NothingStands();
      assert Run(calls) == EMPTY;
      assert LinksAt(calls, project, team) == [] && UnlinksAt(calls, project, team) == [];
    }
  }

  // --- When a message is accepted ---

  // Somebody holds ORG_ADMIN in the organisation through another team.
  ghost predicate OtherTeamAdministers(s: State, org: OrgId, team: TeamId) {
    exists other, m :: other != team && Administers(s.t, org, other, m)
  }

  // Somebody holds ORG_ADMIN in the organisation other than `user` through `team`.
  ghost predicate OtherMemberAdministers(s: State, org: OrgId, team: TeamId, user: UserId) {
    exists other: TeamId, m: UserId :: (other, m) != (team, user) && Administers(s.t, org, other, m)
  }

  // A member of the organisation who holds the flag through a team of theirs.
  ghost predicate MemberWith(s: State, user: UserId, org: OrgId, flag: OrgPermission) {
    (org, user) in s.o.orgUsers && exists team :: HoldsThrough(s.t, user, org, team, flag)
  }

  // A member of the project's organisation who holds the flag through a team linked to the project.
  ghost predicate MemberOnProject(s: State, user: UserId, project: ProjectId, flag: ProjectPermission) {
    && project in s.p.projects && (s.p.projects[project], user) in s.o.orgUsers
    && exists team :: HoldsOnProjectThrough(s.t, s.p, user, project, team, flag)
  }

  lemma MemberWithIff(s: State, user: UserId, org: OrgId, flag: OrgPermission)
    ensures MemberWith(s, user, org, flag) <==> OrgAuth(s, user, org, {flag})
    ensures MemberWith(s, user, org, flag) <==> (org, user) in s.o.orgUsers && Holds(s.t, user, org, flag)
  {
    if team :| HoldsThrough(s.t, user, org, team, flag) {
      assert Holds(s.t, user, org, flag);
    }
    if Holds(s.t, user, org, flag) {
      var team :| (user, team) in s.t.userTeams && (org, team) in s.t.orgTeams && flag in s.t.orgTeams[(org, team)];
      assert HoldsThrough(s.t, user, org, team, flag);
    }
    assert HoldsAll(s.t, user, org, {flag}) <==> Holds(s.t, user, org, flag);
  }

  lemma MemberOnProjectIff(s: State, user: UserId, project: ProjectId, flag: ProjectPermission)
    ensures MemberOnProject(s, user, project, flag) <==> ProjectAuth(s, user, project, {flag})
    ensures MemberOnProject(s, user, project, flag) <==>
            && project in s.p.projects && (s.p.projects[project], user) in s.o.orgUsers
            && HoldsOnProject(s.t, s.p, user, project, flag)
  {
    if team :| HoldsOnProjectThrough(s.t, s.p, user, project, team, flag) {
      assert HoldsOnProject(s.t, s.p, user, project, flag) && HasLink(s.t, s.p, user, project);
    }
    if HoldsOnProject(s.t, s.p, user, project, flag) {
      var team :| (user, team) in s.t.userTeams && (project, team) in s.p.projectTeams &&
        flag in s.p.projectTeams[(project, team)];
      assert HoldsOnProjectThrough(s.t, s.p, user, project, team, flag);
    }
    assert HoldsAllOnProject(s.t, s.p, user, project, {flag}) <==> HoldsOnProject(s.t, s.p, user, project, flag);
  }

  // What the sender must hold, and what the message must leave behind.
  ghost predicate Allowed(s: State, c: Call) {
    match c
    case CreateProfile(_, _, _, _) => true
    case CreateOrganization(user, _, _, _) => |From(s.o.userOrgs, user)| < MAX_ORGS_PER_USER
    case DeleteOrganization(_, _) => false
    case Invite(user, org) => MemberWith(s, user, org, MemberManage)
    case AcceptInvite(_, org) => org in s.invited
    case CreateTeam(user, org, _) => MemberWith(s, user, org, TeamManage) && |TeamsOf(s.t, org)| < MAX_TEAMS_PER_ORG
    case DeleteTeam(user, team) =>
      && team in s.t.teams && MemberWith(s, user, s.t.teams[team], TeamManage)
      && (forall project: ProjectId :: (project, team) !in s.p.projectTeams)
      && OtherTeamAdministers(s, s.t.teams[team], team)
    case AddUserToTeam(user, target, team) =>
      && team in s.t.teams && MemberWith(s, user, s.t.teams[team], MemberManage)
      && (s.t.teams[team], target) in s.o.orgUsers
      && (forall flag :: HasFlag(s.t, team, flag) ==> MemberWith(s, user, s.t.teams[team], flag))
    case RemoveUserFromTeam(user, target, team) =>
      && team in s.t.teams && MemberWith(s, user, s.t.teams[team], MemberManage)
      && ((team, target) in s.t.teamUsers ==> OtherMemberAdministers(s, s.t.teams[team], team, target))
    case UpdateTeamOrgPermissions(user, team, permissions) =>
      && team in s.t.teams && MemberWith(s, user, s.t.teams[team], OrgAdmin)
      && (forall flag :: flag in permissions ==> MemberWith(s, user, s.t.teams[team], flag))
      && (OrgAdmin in permissions || OtherTeamAdministers(s, s.t.teams[team], team))
    case CreateProject(user, org, _) =>
      MemberWith(s, user, org, ProjectCreate) && |From(s.p.orgProjects, org)| < MAX_PROJECTS_PER_ORG
    case DeleteProject(user, project, hasCanisters) =>
      && MemberOnProject(s, user, project, ProjectAdmin) && !hasCanisters
      && exists other :: other != project && other in s.p.projects && s.p.projects[other] == s.p.projects[project]
    case AddTeamToProject(user, project, team) =>
      && MemberOnProject(s, user, project, ProjectAdmin)
      && team in s.t.teams && s.t.teams[team] == s.p.projects[project]
    case RemoveTeamFromProject(user, project, team) =>
      && MemberOnProject(s, user, project, ProjectAdmin)
      && ((project, team) in s.p.projectTeams ==> exists other :: other != team && (project, other) in s.p.projectTeams)
    case UpdateTeamProjectPermissions(user, project, team, permissions) =>
      && MemberOnProject(s, user, project, ProjectAdmin) && (project, team) in s.p.projectTeams
      && forall flag :: flag in permissions ==> MemberOnProject(s, user, project, flag)
  }

  ghost predicate HasFlag(t: Teams, team: TeamId, flag: OrgPermission)
    requires team in t.teams
  {
    (t.teams[team], team) in t.orgTeams && flag in t.orgTeams[(t.teams[team], team)]
  }

  // A message is accepted exactly when its sender holds what it takes, and it leaves an administrator to
  // the organisation, a project to the organisation and a team to the project.
  lemma AcceptedIff(s: State, c: Call)
    requires Sound(s)
    ensures Accepted(s, c) <==> Allowed(s, c)
  {
    hide Sound, Accepted, Allowed;
    match c
    case DeleteOrganization(_, _) => OrgCallAccepted(s, c);
    case CreateProfile(_, _, _, _) => OrgCallAccepted(s, c);
    case CreateOrganization(_, _, _, _) => OrgCallAccepted(s, c);
    case Invite(_, _) => OrgCallAccepted(s, c);
    case AcceptInvite(_, _) => OrgCallAccepted(s, c);
    case CreateTeam(_, _, _) => TeamCallAccepted(s, c);
    case DeleteTeam(_, _) => DeletionAccepted(s, c);
    case AddUserToTeam(_, _, _) => TeamCallAccepted(s, c);
    case RemoveUserFromTeam(_, _, _) => TeamCallAccepted(s, c);
    case UpdateTeamOrgPermissions(_, _, _) => FlagsAccepted(s, c);
    case CreateProject(_, _, _) => OrgCallAccepted(s, c);
    case DeleteProject(_, _, _) => ProjectCallAccepted(s, c);
    case AddTeamToProject(_, _, _) => ProjectCallAccepted(s, c);
    case RemoveTeamFromProject(_, _, _) => ProjectCallAccepted(s, c);
    case UpdateTeamProjectPermissions(_, _, _, _) => LinkFlagsAccepted(s, c);
  }

  lemma OrgCallAccepted(s: State, c: Call)
    requires Sound(s) && (Founds(c) || c.DeleteOrganization? || c.Invite? || c.AcceptInvite? || c.CreateProject?)
    ensures Accepted(s, c) <==> Allowed(s, c)
  {
    hide Sound, OrgAuth, MemberWith, From, AddMember, Bootstrap, AddProject, LinkTeams, UserTeamsIn;
    if c.DeleteOrganization? {
      DeleteOrganizationRefused(s, c.user, c.org);
    } else if c.Invite? {
      MemberWithIff(s, c.user, c.org, MemberManage);
    } else if c.CreateProject? {
      MemberWithIff(s, c.user, c.org, ProjectCreate);
    }
  }

  lemma TeamCallAccepted(s: State, c: Call)
    requires Sound(s) && (c.CreateTeam? || c.AddUserToTeam? || c.RemoveUserFromTeam?)
    ensures Accepted(s, c) <==> Allowed(s, c)
  {
    hide Sound, OrgAuth, MemberWith, HoldsAll, From, AddTeam, AddToTeam, RemoveFromTeam, PopulatedWithoutMember,
      OtherMemberAdministers, HasFlag;
    if c.CreateTeam? {
      MemberWithIff(s, c.user, c.org, TeamManage);
    } else if c.team in s.t.teams {
      MemberWithIff(s, c.user, s.t.teams[c.team], MemberManage);
      if c.AddUserToTeam? {
        if (s.t.teams[c.team], c.user) in s.o.orgUsers {
          CoversIff(s, c.user, c.team);
        }
      } else {
        OtherMemberIff(s, s.t.teams[c.team], c.team, c.target);
      }
    }
  }

  lemma DeletionAccepted(s: State, c: Call)
    requires Sound(s) && c.DeleteTeam?
    ensures Accepted(s, c) <==> Allowed(s, c)
  {
    hide Sound, OrgAuth, MemberWith, From, RemoveTeam, RemoveTeamLinks, PopulatedWithoutTeam, OtherTeamAdministers;
    if c.team in s.t.teams {
      MemberWithIff(s, c.user, s.t.teams[c.team], TeamManage);
      OtherTeamIff(s, s.t.teams[c.team], c.team);
      AnotherTeam(s, s.t.teams[c.team], c.team);
      UnlinkedIff(s, c.team);
    }
  }

  lemma FlagsAccepted(s: State, c: Call)
    requires c.UpdateTeamOrgPermissions?
    ensures Accepted(s, c) <==> Allowed(s, c)
  {
    hide OrgAuth, MemberWith, Holds, SetOrgTeamPermissions, PopulatedWithoutTeam, OtherTeamAdministers;
    if c.team in s.t.teams {
      var org := s.t.teams[c.team];
      MemberWithIff(s, c.user, org, OrgAdmin);
      OtherTeamIff(s, org, c.team);
      forall flag
        ensures MemberWith(s, c.user, org, flag) <==> (org, c.user) in s.o.orgUsers && Holds(s.t, c.user, org, flag)
      {
        MemberWithIff(s, c.user, org, flag);
      }
    }
  }

  lemma ProjectCallAccepted(s: State, c: Call)
    requires Sound(s) && (c.DeleteProject? || c.AddTeamToProject? || c.RemoveTeamFromProject?)
    ensures Accepted(s, c) <==> Allowed(s, c)
  {
    hide Sound, HoldsAllOnProject, HasLink, MemberOnProject, From, RemoveProject, LinkTeam, UnlinkTeam;
    MemberOnProjectIff(s, c.user, c.project, ProjectAdmin);
    if c.DeleteProject? {
      if c.project in s.p.projects {
        AnotherProjectIff(s, c.project);
      }
    } else if c.RemoveTeamFromProject? {
      AnotherLinkIff(s.p.projectTeams.Keys, c.project, c.team);
    }
  }

  lemma LinkFlagsAccepted(s: State, c: Call)
    requires Sound(s) && c.UpdateTeamProjectPermissions?
    ensures Accepted(s, c) <==> Allowed(s, c)
  {
    hide Sound, HasLink, HoldsOnProject, MemberOnProject, SetProjectTeamPermissions;
    MemberOnProjectIff(s, c.user, c.project, ProjectAdmin);
    forall flag
      ensures MemberOnProject(s, c.user, c.project, flag) <==>
              && c.project in s.p.projects && (s.p.projects[c.project], c.user) in s.o.orgUsers
              && HoldsOnProject(s.t, s.p, c.user, c.project, flag)
    {
      MemberOnProjectIff(s, c.user, c.project, flag);
    }
    if (c.project, c.team) in s.p.projectTeams {
      LinkStaysInside(s, c.project, c.team);
    }
  }

  lemma OtherTeamIff(s: State, org: OrgId, team: TeamId)
    ensures PopulatedWithoutTeam(s.t, org, team) <==> OtherTeamAdministers(s, org, team)
  {
    if PopulatedWithoutTeam(s.t, org, team) {
      var k :| k in s.t.orgTeams && k.0 == org && k.1 != team && OrgAdmin in s.t.orgTeams[k]
               && exists m :: m in s.t.teamUsers && m.0 == k.1;
      var m :| m in s.t.teamUsers && m.0 == k.1;
      assert k == (org, k.1) && m == (k.1, m.1);
      assert Administers(s.t, org, k.1, m.1);
    }
    if other: TeamId, m: UserId :| other != team && Administers(s.t, org, other, m) {
      assert (org, other) in s.t.orgTeams && (other, m) in s.t.teamUsers;
    }
  }

  lemma OtherMemberIff(s: State, org: OrgId, team: TeamId, user: UserId)
    ensures PopulatedWithoutMember(s.t, org, team, user) <==> OtherMemberAdministers(s, org, team, user)
  {
    if PopulatedWithoutMember(s.t, org, team, user) {
      var k :| k in s.t.orgTeams && k.0 == org && OrgAdmin in s.t.orgTeams[k]
               && exists m :: m in s.t.teamUsers && m.0 == k.1 && m != (team, user);
      var m :| m in s.t.teamUsers && m.0 == k.1 && m != (team, user);
      assert k == (org, k.1) && m == (k.1, m.1);
      assert Administers(s.t, org, k.1, m.1);
    }
    if other: TeamId, m: UserId :| (other, m) != (team, user) && Administers(s.t, org, other, m) {
      assert (org, other) in s.t.orgTeams && (other, m) in s.t.teamUsers;
    }
  }

  lemma TwoIff(links: Links, id: nat, one: nat)
    requires (id, one) in links
    ensures |From(links, id)| >= 2 <==> exists other :: other != one && (id, other) in links
  {
    var all := From(links, id);
    assert (id, one) in all;
    if other: nat :| other != one && (id, other) in links {
      assert {(id, one), (id, other)} <= all;
      SubsetSize({(id, one), (id, other)}, all);
    } else {
      assert forall e :: e in all ==> e == (e.0, e.1) && e == (id, one);
      assert all == {(id, one)};
    }
  }

  // A team that administers beside this one makes two of them.
  lemma AnotherTeam(s: State, org: OrgId, team: TeamId)
    requires Sound(s) && team in s.t.teams && s.t.teams[team] == org
    ensures OtherTeamAdministers(s, org, team) ==> |TeamsOf(s.t, org)| >= 2
  {
    TeamIndexed(s, team, org);
    hide Sound;
    if other: TeamId, m: UserId :| other != team && Administers(s.t, org, other, m) {
      TwoIff(s.t.orgTeams.Keys, org, team);
    }
  }

  lemma UnlinkedIff(s: State, team: TeamId)
    requires Sound(s)
    ensures From(s.p.teamProjects.Keys, team) == {} <==>
            forall project: ProjectId :: (project, team) !in s.p.projectTeams
  {
    hide Sound;
    var links := From(s.p.teamProjects.Keys, team);
    if links == {} {
      forall project: ProjectId ensures (project, team) !in s.p.projectTeams {
        LinkMirrored(s, project, team);
        assert (team, project) !in links;
      }
    } else {
      var e :| e in links;
      assert e == (team, e.1);
      LinkMirrored(s, e.1, team);
    }
  }

  lemma CoversIff(s: State, user: UserId, team: TeamId)
    requires team in s.t.teams && (s.t.teams[team], user) in s.o.orgUsers
    ensures var org := s.t.teams[team];
            HoldsAll(s.t, user, org, if (org, team) in s.t.orgTeams then s.t.orgTeams[(org, team)] else {}) <==>
            forall flag :: HasFlag(s.t, team, flag) ==> MemberWith(s, user, org, flag)
  {
    hide Holds, MemberWith;
    var org := s.t.teams[team];
    forall flag ensures MemberWith(s, user, org, flag) <==> Holds(s.t, user, org, flag) {
      MemberWithIff(s, user, org, flag);
    }
  }

  lemma AnotherProjectIff(s: State, project: ProjectId)
    requires Sound(s) && project in s.p.projects
    ensures |From(s.p.orgProjects, s.p.projects[project])| >= 2 <==>
            exists other :: other != project && other in s.p.projects && s.p.projects[other] == s.p.projects[project]
  {
    var org := s.p.projects[project];
    assert forall q: nat :: (org, q) in s.p.orgProjects <==> q in s.p.projects && s.p.projects[q] == org by {
      hide OrgsSound, TeamsSound, AllAdministered, AllStaffed;
    }
    hide Sound;
    TwoIff(s.p.orgProjects, org, project);
  }

  lemma AnotherLinkIff(links: Links, project: ProjectId, team: TeamId)
    ensures (project, team) in links ==>
              (|From(links, project)| >= 2 <==> exists other :: other != team && (project, other) in links)
  {
    if (project, team) in links {
      TwoIff(links, project, team);
    }
  }

  lemma LinkStaysInside(s: State, project: ProjectId, team: TeamId)
    requires Sound(s) && (project, team) in s.p.projectTeams
    ensures project in s.p.projects && team in s.t.teams && s.t.teams[team] == s.p.projects[project]
  {
    hide OrgsSound, TeamsSound, AllAdministered, AllStaffed;
  }
}
