/** The per-issue access rules of the issue patch: tracker-scoped permission
    grants, watcher access, issue visibility, watcher validity and the list of
    users that may be added as watchers.

    The host (Redmine) is represented by a read-only snapshot: `allowed_to?`
    is the set `User.allowed`, `roles_for_project` the map `User.projectRoles`,
    the original `visible?` is `Issue.baseVisible`, and the original
    `valid_watcher?` and `addable_watcher_users` are supplied by the caller. */
module IssueAccess {
  import opened Collections

  type ProjectId = int
  type TrackerId = int

  datatype Permission = ViewIssueDescription | ViewWatchedIssues | OtherPermission(name: string)

  /** A role: the permissions it grants on every tracker, and for each
      permission the trackers it is granted on. */
  datatype Role = Role(allTrackers: set<Permission>, trackerIds: map<Permission, set<TrackerId>>)
  {
    /** `Role#permissions_all_trackers?` */
    predicate PermissionsAllTrackers(p: Permission) {
      p in allTrackers
    }

    /** `Role#permissions_tracker_ids?` */
    predicate PermissionsTrackerIds(p: Permission, t: TrackerId) {
      p in trackerIds && t in trackerIds[p]
    }

    /** The role grants `p` on an issue of tracker `tracker`: either for all
        trackers, or for that tracker (an issue without tracker has none). */
    predicate Grants(p: Permission, tracker: Option<TrackerId>) {
      PermissionsAllTrackers(p) || (tracker.Some? && PermissionsTrackerIds(p, tracker.value))
    }
  }

  /** A `Member` record: the project (possibly missing) and its roles. */
  datatype Membership = Membership(project: Option<ProjectId>, roles: seq<Role>)

  datatype User = User(
    id: int,
    admin: bool,
    logged: bool,
    active: bool,
    groups: set<int>,                           // ids of the groups the user belongs to
    allowed: set<(Permission, ProjectId)>,      // what the host's `allowed_to?` accepts
    projectRoles: map<ProjectId, seq<Role>>,    // `roles_for_project`
    memberships: seq<Membership>)
  {
    /** The host's `allowed_to?(permission, project)`; a missing project is refused. */
    predicate AllowedTo(p: Permission, project: Option<ProjectId>) {
      project.Some? && (p, project.value) in allowed
    }

    /** `roles_for_project`: the user's roles in `project`, empty when none. */
    function RolesForProject(project: Option<ProjectId>): seq<Role> {
      if project.Some? && project.value in projectRoles then projectRoles[project.value] else []
    }

    /** `is_or_belongs_to?`: the principal is this user, or a group the user is in. */
    predicate IsOrBelongsTo(principal: Option<Principal>) {
      match principal
      case None => false
      case Some(UserPrincipal(u)) => u.id == id
      case Some(GroupPrincipal(g)) => g in groups
    }
  }

  /** A user or a group; users and groups share one id space. */
  datatype Principal = UserPrincipal(user: User) | GroupPrincipal(groupId: int)
  {
    function Id(): int {
      match this
      case UserPrincipal(u) => u.id
      case GroupPrincipal(g) => g
    }
  }

  datatype Project = Project(id: ProjectId, users: seq<User>)

  /** An issue as the rules see it. `watchers` are the `watcher_principals`;
      `baseVisible` is the host's own `visible?` answer for the user asked. */
  datatype Issue = Issue(
    project: Option<Project>,
    tracker: Option<TrackerId>,
    assignedTo: Option<Principal>,
    watchers: seq<Principal>,
    baseVisible: bool)
  {
    function ProjectKey(): Option<ProjectId> {
      if project.Some? then Some(project.value.id) else None
    }

    /** Some watcher record of the issue carries the principal id `id`. */
    predicate HasWatcherId(id: int) {
      exists i | 0 <= i < |watchers| :: watchers[i].Id() == id
    }

    /** `watched_by?`: a watcher record carries the user's id. */
    predicate WatchedBy(user: User) {
      HasWatcherId(user.id)
    }
  }

  /** `roles.any? { |role| role.permissions_all_trackers?(p) }` */
  function AnyAllTrackers(roles: seq<Role>, p: Permission): (r: bool)
    ensures r <==> exists i | 0 <= i < |roles| :: roles[i].PermissionsAllTrackers(p)
  {
    roles != [] && (roles[0].PermissionsAllTrackers(p) || AnyAllTrackers(roles[1..], p))
  }

  /** `roles.any? { |role| role.permissions_tracker_ids?(p, t) }` */
  function AnyTrackerIds(roles: seq<Role>, p: Permission, t: TrackerId): (r: bool)
    ensures r <==> exists i | 0 <= i < |roles| :: roles[i].PermissionsTrackerIds(p, t)
  {
    roles != [] && (roles[0].PermissionsTrackerIds(p, t) || AnyTrackerIds(roles[1..], p, t))
  }

  /** The roles a check consults: those passed in, else the user's roles in the issue's project. */
  function RolesUsed(issue: Issue, user: User, projectRoles: Option<seq<Role>>): (r: seq<Role>)
    ensures projectRoles.Some? ==> r == projectRoles.value
    ensures projectRoles.None? && issue.project.Some? && issue.project.value.id in user.projectRoles ==>
      r == user.projectRoles[issue.project.value.id]
    ensures projectRoles.None? && (issue.project.None? || issue.project.value.id !in user.projectRoles) ==> r == []
  {
    if projectRoles.Some? then projectRoles.value else user.RolesForProject(issue.ProjectKey())
  }

  /** `tracker_permission_granted?`: the host permission check must pass, and
      some consulted role must grant `p` on the issue's tracker. */
  function TrackerPermissionGranted(issue: Issue, user: Option<User>, p: Permission, projectRoles: Option<seq<Role>>): (r: bool)
    ensures user.None? ==> !r
    ensures user.Some? && !user.value.AllowedTo(p, issue.ProjectKey()) ==> !r
    ensures user.Some? ==>
      (r <==> user.value.AllowedTo(p, issue.ProjectKey())
              && exists i | 0 <= i < |RolesUsed(issue, user.value, projectRoles)| ::
                   RolesUsed(issue, user.value, projectRoles)[i].Grants(p, issue.tracker))
  {
    if user.None? then false
    else if !user.value.AllowedTo(p, issue.ProjectKey()) then false
    else
      var roles := RolesUsed(issue, user.value, projectRoles);
      if AnyAllTrackers(roles, p) then true
      else if issue.tracker.None? then false
      else AnyTrackerIds(roles, p, issue.tracker.value)
  }

  /** `watcher_principals.any? { |principal| user.is_or_belongs_to?(principal) }` */
  function AnyWatcherPrincipal(user: User, watchers: seq<Principal>): (r: bool)
    ensures r <==> exists i | 0 <= i < |watchers| :: user.IsOrBelongsTo(Some(watchers[i]))
  {
    watchers != [] && (user.IsOrBelongsTo(Some(watchers[0])) || AnyWatcherPrincipal(user, watchers[1..]))
  }

  /** `watcher_access_granted?`: a logged-in user holding the tracker-scoped
      `view_watched_issues` grant who watches the issue, directly or through
      a watcher principal they are or belong to. */
  function WatcherAccessGranted(issue: Issue, user: Option<User>, projectRoles: Option<seq<Role>>): (r: bool)
    ensures r <==>
      && user.Some? && user.value.logged
      && TrackerPermissionGranted(issue, user, ViewWatchedIssues, projectRoles)
      && (issue.WatchedBy(user.value)
          || exists i | 0 <= i < |issue.watchers| :: user.value.IsOrBelongsTo(Some(issue.watchers[i])))
  {
    if !(user.Some? && user.value.logged) then false
    else if !TrackerPermissionGranted(issue, user, ViewWatchedIssues, projectRoles) then false
    else if issue.WatchedBy(user.value) then true
    else AnyWatcherPrincipal(user.value, issue.watchers)
  }

  /** `visible_with_vid?`: admins and assignees always see the issue; anyone
      else needs `view_issue_description`, and then watcher access or the
      host's own visibility. */
  function Visible(issue: Issue, user: User): (r: bool)
    ensures user.admin ==> r
    ensures user.IsOrBelongsTo(issue.assignedTo) ==> r
    ensures !user.admin && !user.IsOrBelongsTo(issue.assignedTo) ==>
      (r <==> TrackerPermissionGranted(issue, Some(user), ViewIssueDescription, None)
              && (WatcherAccessGranted(issue, Some(user), None) || issue.baseVisible))
  {
    var projectRoles := user.RolesForProject(issue.ProjectKey());
    if user.admin then true
    else if user.IsOrBelongsTo(issue.assignedTo) then true
    else
      var descriptionAllowed := TrackerPermissionGranted(issue, Some(user), ViewIssueDescription, Some(projectRoles));
      var watcherAllowed := WatcherAccessGranted(issue, Some(user), Some(projectRoles));
      var baseVisible := issue.baseVisible;
      if !descriptionAllowed then false
      else watcherAllowed || baseVisible
  }

  /** `valid_watcher_with_vid?`: non-users follow the host rule; a user is
      also accepted when logged in, active and holding the tracker-scoped
      `view_watched_issues` grant. */
  function ValidWatcher(issue: Issue, principal: Principal, hostValid: Principal -> bool): (r: bool)
    ensures !principal.UserPrincipal? ==> r == hostValid(principal)
    ensures hostValid(principal) ==> r
    ensures principal.UserPrincipal? ==>
      (r <==> (principal.user.logged && principal.user.active
               && TrackerPermissionGranted(issue, Some(principal.user), ViewWatchedIssues, None))
              || hostValid(principal))
  {
    if !principal.UserPrincipal? then hostValid(principal)
    else if principal.user.logged && principal.user.active
            && TrackerPermissionGranted(issue, Some(principal.user), ViewWatchedIssues, None) then true
    else hostValid(principal)
  }

  /** The project members the patch adds: those not already in `base` who
      hold the `view_watched_issues` grant for the issue's tracker. */
  function AddableExtras(issue: Issue, base: seq<User>): (r: seq<User>)
    requires issue.project.Some?
    ensures forall i :: 0 <= i < |r| ==>
      r[i] in issue.project.value.users && r[i] !in base
      && TrackerPermissionGranted(issue, Some(r[i]), ViewWatchedIssues, None)
    ensures forall i :: 0 <= i < |issue.project.value.users| ==>
      var c := issue.project.value.users[i];
      c !in base && TrackerPermissionGranted(issue, Some(c), ViewWatchedIssues, None) ==> c in r
  {
    Filter(issue.project.value.users,
           c => c !in base && TrackerPermissionGranted(issue, Some(c), ViewWatchedIssues, None))
  }

  /** `addable_watcher_users_with_vid`: `base` (the host's list) unchanged when
      the issue has no project; otherwise `base` followed by the extra
      project members, each user once, first occurrences kept. */
  function AddableWatcherUsers(issue: Issue, base: seq<User>): (r: seq<User>)
    ensures issue.project.None? ==> r == base
    ensures issue.project.Some? ==>
      && Distinct(r)
      && r == Dedup(base) + Dedup(AddableExtras(issue, base))
      && (Distinct(base) ==> r == base + Dedup(AddableExtras(issue, base)))
      && (forall i :: 0 <= i < |base| ==> base[i] in r)
      && (forall i :: 0 <= i < |r| ==>
            r[i] in base
            || (r[i] in issue.project.value.users
                && TrackerPermissionGranted(issue, Some(r[i]), ViewWatchedIssues, None)))
  {
    if issue.project.None? then base
    else
      var extra := AddableExtras(issue, base);
      DedupAppend(base, extra);
      if Distinct(base) then
        DedupDistinct(base);
        Dedup(base + extra)
      else
        Dedup(base + extra)
  }

  /** Role `b` grants everything role `a` does: every all-trackers permission,
      and every tracker of every tracker-scoped permission. */
  ghost predicate RoleLe(a: Role, b: Role) {
    && a.allTrackers <= b.allTrackers
    && forall q :: q in a.trackerIds ==> q in b.trackerIds && a.trackerIds[q] <= b.trackerIds[q]
  }

  /** `v` holds every privilege `u` holds: its admin flag, its host
      permissions and, per project, for each role of `u` a role at least as
      generous. */
  ghost predicate AtLeastAsPrivileged(u: User, v: User) {
    && u.id == v.id && u.groups == v.groups && u.logged == v.logged
    && (u.admin ==> v.admin)
    && u.allowed <= v.allowed
    && forall p :: p in u.projectRoles ==>
         p in v.projectRoles
         && forall i | 0 <= i < |u.projectRoles[p]| ::
              exists j | 0 <= j < |v.projectRoles[p]| :: RoleLe(u.projectRoles[p][i], v.projectRoles[p][j])
  }

  lemma GrantMonotone(issue: Issue, u: User, v: User, p: Permission)
    requires AtLeastAsPrivileged(u, v)
    requires TrackerPermissionGranted(issue, Some(u), p, None)
    ensures TrackerPermissionGranted(issue, Some(v), p, None)
  {
    var roles := u.RolesForProject(issue.ProjectKey());
    var i :| 0 <= i < |roles| && roles[i].Grants(p, issue.tracker);
    var key := issue.ProjectKey().value;
    assert key in u.projectRoles;
    var vroles := v.RolesForProject(issue.ProjectKey());
    var j :| 0 <= j < |vroles| && RoleLe(roles[i], vroles[j]);
    assert vroles[j].Grants(p, issue.tracker);
  }

  /** Granting more privileges never hides an issue that was visible. */
  lemma VisibleMonotone(issue: Issue, u: User, v: User)
    requires AtLeastAsPrivileged(u, v)
    requires Visible(issue, u)
    ensures Visible(issue, v)
  {
    if !v.admin && !v.IsOrBelongsTo(issue.assignedTo) {
      GrantMonotone(issue, u, v, ViewIssueDescription);
      if WatcherAccessGranted(issue, Some(u), None) {
        GrantMonotone(issue, u, v, ViewWatchedIssues);
        assert issue.WatchedBy(u) ==> issue.WatchedBy(v);
      }
    }
  }
}
