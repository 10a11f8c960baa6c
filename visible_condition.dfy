/** The bulk visibility condition of the issue patch (`Issue.visible_condition`):
    the host's condition, widened by "watched by the user, in a project (and
    tracker) where the user may see watched issues".

    The SQL text is replaced by a small condition tree with an evaluation over
    one issue; the host's base condition is opaque and enters the evaluation as
    the truth value it has on that issue. */
module VisibleCondition {
  import opened Collections
  import opened IssueAccess

  /** One per-project clause: the project alone, or the project restricted to trackers. */
  datatype Clause = ProjectOnly(projectId: ProjectId) | ProjectTrackers(projectId: ProjectId, trackerIds: seq<TrackerId>)

  /** `BaseCondition` is the host's condition unchanged; `BaseOrWatched(u, cs)` is
      `base OR (EXISTS watcher row of user u AND (cs[0] OR cs[1] OR ...))`. */
  datatype Condition = BaseCondition | BaseOrWatched(userId: int, clauses: seq<Clause>)

  predicate ClauseHolds(c: Clause, issue: Issue) {
    match c
    case ProjectOnly(p) => issue.ProjectKey() == Some(p)
    case ProjectTrackers(p, ts) => issue.ProjectKey() == Some(p) && issue.tracker.Some? && issue.tracker.value in ts
  }

  /** The truth value of a condition on `issue`, where `baseHolds` is that of the host's condition. */
  predicate Holds(c: Condition, issue: Issue, baseHolds: bool) {
    match c
    case BaseCondition => baseHolds
    case BaseOrWatched(uid, cs) =>
      baseHolds || (issue.HasWatcherId(uid) && AnyClauseHolds(cs, issue))
  }

  /** `cs[0] OR cs[1] OR ...` holds on `issue`. */
  predicate AnyClauseHolds(cs: seq<Clause>, issue: Issue) {
    exists k | 0 <= k < |cs| :: ClauseHolds(cs[k], issue)
  }

  /** `tracker_ids.select { |t| roles.any? { |role| role.permissions_tracker_ids?(:view_watched_issues, t) } }` */
  function AllowedTrackers(trackerIds: seq<TrackerId>, roles: seq<Role>): (r: seq<TrackerId>)
    ensures forall t :: t in r <==> t in trackerIds && AnyTrackerIds(roles, ViewWatchedIssues, t)
    ensures IsSubsequence(r, trackerIds)
  {
    FilterIsSubsequence(trackerIds, t => AnyTrackerIds(roles, ViewWatchedIssues, t));
    Filter(trackerIds, t => AnyTrackerIds(roles, ViewWatchedIssues, t))
  }

  /** The clause one membership contributes, if any. */
  function MembershipClause(user: User, m: Membership, trackerIds: seq<TrackerId>): (c: Option<Clause>)
    ensures m.project.None? || !user.AllowedTo(ViewWatchedIssues, m.project) ==> c.None?
    ensures c.Some? ==> m.project == Some(c.value.projectId)
    ensures c.Some? && c.value.ProjectOnly? <==>
      user.AllowedTo(ViewWatchedIssues, m.project)
      && exists i | 0 <= i < |m.roles| :: m.roles[i].PermissionsAllTrackers(ViewWatchedIssues)
    ensures c.Some? && c.value.ProjectTrackers? ==>
      c.value.trackerIds != [] && c.value.trackerIds == AllowedTrackers(trackerIds, m.roles)
    ensures user.AllowedTo(ViewWatchedIssues, m.project) && !AnyAllTrackers(m.roles, ViewWatchedIssues) ==>
      c == (if AllowedTrackers(trackerIds, m.roles) == [] then None
            else Some(ProjectTrackers(m.project.value, AllowedTrackers(trackerIds, m.roles))))
  {
    if m.project.None? then None
    else if !user.AllowedTo(ViewWatchedIssues, m.project) then None
    else if AnyAllTrackers(m.roles, ViewWatchedIssues) then Some(ProjectOnly(m.project.value))
    else
      var allowed := AllowedTrackers(trackerIds, m.roles);
      if allowed == [] then None else Some(ProjectTrackers(m.project.value, allowed))
  }

  /** The clauses of `ms`, in order, before de-duplication. */
  function RawClauses(user: User, ms: seq<Membership>, trackerIds: seq<TrackerId>): seq<Clause>
    decreases |ms|
  {
    if ms == [] then []
    else
      var c := MembershipClause(user, ms[|ms| - 1], trackerIds);
      RawClauses(user, ms[..|ms| - 1], trackerIds) + (if c.Some? then [c.value] else [])
  }

  /** When no role of any membership grants `view_watched_issues` on one of
      `trackerIds`, only project-only clauses can arise. */
  lemma {:induction false} NoTrackerGrantOnlyProjectClauses(user: User, ms: seq<Membership>, trackerIds: seq<TrackerId>)
    requires forall j :: 0 <= j < |ms| ==> AllowedTrackers(trackerIds, ms[j].roles) == []
    ensures forall k :: 0 <= k < |RawClauses(user, ms, trackerIds)| ==> RawClauses(user, ms, trackerIds)[k].ProjectOnly?
    decreases |ms|
  {
    if ms != [] {
      var front := ms[..|ms| - 1];
      assert forall j :: 0 <= j < |front| ==> front[j] == ms[j];
      NoTrackerGrantOnlyProjectClauses(user, front, trackerIds);
      var c := MembershipClause(user, ms[|ms| - 1], trackerIds);
      var head := RawClauses(user, front, trackerIds);
      var cs := RawClauses(user, ms, trackerIds);
      assert cs == head + (if c.Some? then [c.value] else []);
      forall k | 0 <= k < |cs| ensures cs[k].ProjectOnly? {
        if k < |head| {
          assert cs[k] == head[k];
        } else {
          assert cs[k] == c.value;
        }
      }
    }
  }

  /** When, besides, no role grants it on all trackers, no membership contributes a clause. */
  lemma {:induction false} NoClausesWithoutGrants(user: User, ms: seq<Membership>, trackerIds: seq<TrackerId>)
    requires forall j :: 0 <= j < |ms| ==>
      !AnyAllTrackers(ms[j].roles, ViewWatchedIssues) && AllowedTrackers(trackerIds, ms[j].roles) == []
    ensures RawClauses(user, ms, trackerIds) == []
    decreases |ms|
  {
    if ms != [] {
      var front := ms[..|ms| - 1];
      assert forall j :: 0 <= j < |front| ==> front[j] == ms[j];
      NoClausesWithoutGrants(user, front, trackerIds);
      assert MembershipClause(user, ms[|ms| - 1], trackerIds).None?;
      assert RawClauses(user, ms, trackerIds) == RawClauses(user, front, trackerIds);
    }
  }

  /** A user none of whose memberships grants `view_watched_issues` on all
      trackers or on any tracker of `trackerIds` gets the host's condition
      unchanged. */
  lemma NoGrantIsBase(user: User, trackerIds: seq<TrackerId>)
    requires forall j :: 0 <= j < |user.memberships| ==>
      !AnyAllTrackers(user.memberships[j].roles, ViewWatchedIssues)
      && AllowedTrackers(trackerIds, user.memberships[j].roles) == []
    ensures ConditionFor(Some(user), trackerIds) == BaseCondition
  {
    NoClausesWithoutGrants(user, user.memberships, trackerIds);
  }

  /** With an empty `Tracker.all` no tracker is granted, so without an
      all-trackers role the host's condition comes back unchanged. */
  lemma NoTrackersNoAllTrackerRoleIsBase(user: User)
    requires forall j :: 0 <= j < |user.memberships| ==>
      !AnyAllTrackers(user.memberships[j].roles, ViewWatchedIssues)
    ensures ConditionFor(Some(user), []) == BaseCondition
  {
    forall j | 0 <= j < |user.memberships| ensures AllowedTrackers([], user.memberships[j].roles) == [] {
      assert |AllowedTrackers([], user.memberships[j].roles)| <= 0;
    }
    NoGrantIsBase(user, []);
  }

  /** A role whose tracker list for `view_watched_issues` is empty adds no
      watched condition, even where the host grants the permission. */
  lemma NoPermittedTrackerIsBase()
    ensures var role := Role({}, map[ViewWatchedIssues := {}]);
      ConditionFor(Some(User(21, false, true, true, {}, {(ViewWatchedIssues, 8)}, map[8 := [role]],
                             [Membership(Some(8), [role])])), [5]) == BaseCondition
  {
    var role := Role({}, map[ViewWatchedIssues := {}]);
    var user := User(21, false, true, true, {}, {(ViewWatchedIssues, 8)}, map[8 := [role]],
                     [Membership(Some(8), [role])]);
    assert !AnyTrackerIds([role], ViewWatchedIssues, 5);
    assert AllowedTrackers([5], user.memberships[0].roles) == [];
    NoGrantIsBase(user, [5]);
  }

  /** What `visible_condition_with_vid` returns for `user`, given the ids of `Tracker.all`. */
  function ConditionFor(user: Option<User>, trackerIds: seq<TrackerId>): Condition {
    if user.None? || !user.value.logged then BaseCondition
    else
      var cs := Dedup(RawClauses(user.value, user.value.memberships, trackerIds));
      if cs == [] then BaseCondition else BaseOrWatched(user.value.id, cs)
  }

  /** `ClassMethods#visible_condition_with_vid`. */
  method VisibleConditionWithVid(user: Option<User>, trackerIds: seq<TrackerId>) returns (c: Condition)
    ensures c == ConditionFor(user, trackerIds)
    ensures user.None? || !user.value.logged ==> c == BaseCondition
    ensures c.BaseOrWatched? ==> Distinct(c.clauses) && c.clauses != []
  {
    if user.None? || !user.value.logged {
      return BaseCondition;
    }
    var u := user.value;
    var clauses: seq<Clause> := [];
    var memberships := u.memberships;
    var i := 0;
    while i < |memberships|
      invariant 0 <= i <= |memberships|
      invariant clauses == RawClauses(u, memberships[..i], trackerIds)
    {
      var membership := memberships[i];
      assert memberships[..i + 1][..i] == memberships[..i];
      i := i + 1;
      if membership.project.None? {
        continue;
      }
      var project := membership.project.value;
      if !u.AllowedTo(ViewWatchedIssues, membership.project) {
        continue;
      }
      if AnyAllTrackers(membership.roles, ViewWatchedIssues) {
        clauses := clauses + [ProjectOnly(project)];
        continue;
      }
      var allowedTrackers := AllowedTrackers(trackerIds, membership.roles);
      if allowedTrackers != [] {
        clauses := clauses + [ProjectTrackers(project, allowedTrackers)];
      }
    }
    assert memberships[..i] == memberships;
    clauses := Dedup(clauses);
    if clauses == [] {
      return BaseCondition;
    }
    c := BaseOrWatched(u.id, clauses);
  }

  /** Membership `m` lets the watcher branch reach `issue`: `m` names the
      issue's project, the host grants `view_watched_issues` there, and some
      role of `m` grants it on all trackers, or on the issue's tracker when
      that tracker is one of `trackerIds`. */
  predicate MembershipAdmits(user: User, m: Membership, trackerIds: seq<TrackerId>, issue: Issue) {
    && m.project.Some? && issue.ProjectKey() == m.project
    && user.AllowedTo(ViewWatchedIssues, m.project)
    && ((exists i | 0 <= i < |m.roles| :: m.roles[i].PermissionsAllTrackers(ViewWatchedIssues))
        || (issue.tracker.Some? && issue.tracker.value in trackerIds
            && exists i | 0 <= i < |m.roles| :: m.roles[i].PermissionsTrackerIds(ViewWatchedIssues, issue.tracker.value)))
  }

  lemma MembershipClauseHolds(user: User, m: Membership, trackerIds: seq<TrackerId>, issue: Issue)
    ensures var c := MembershipClause(user, m, trackerIds);
            (c.Some? && ClauseHolds(c.value, issue)) <==> MembershipAdmits(user, m, trackerIds, issue)
  {
    if m.project.Some? && user.AllowedTo(ViewWatchedIssues, m.project)
       && !AnyAllTrackers(m.roles, ViewWatchedIssues) && issue.tracker.Some? {
      var t := issue.tracker.value;
      var allowed := AllowedTrackers(trackerIds, m.roles);
      assert t in allowed <==> t in trackerIds && AnyTrackerIds(m.roles, ViewWatchedIssues, t);
    }
  }

  /** Some membership of `ms` admits `issue`. */
  predicate AnyMembershipAdmits(user: User, ms: seq<Membership>, trackerIds: seq<TrackerId>, issue: Issue) {
    exists j | 0 <= j < |ms| :: MembershipAdmits(user, ms[j], trackerIds, issue)
  }

  lemma AnyClauseHoldsAppend(a: seq<Clause>, b: seq<Clause>, issue: Issue)
    ensures AnyClauseHolds(a + b, issue) <==> AnyClauseHolds(a, issue) || AnyClauseHolds(b, issue)
  {
    var ab := a + b;
    if AnyClauseHolds(ab, issue) {
      var k :| 0 <= k < |ab| && ClauseHolds(ab[k], issue);
      if k < |a| {
        assert ab[k] == a[k];
      } else {
        assert ab[k] == b[k - |a|];
      }
    }
    if AnyClauseHolds(a, issue) {
      var k :| 0 <= k < |a| && ClauseHolds(a[k], issue);
      assert ab[k] == a[k];
    }
    if AnyClauseHolds(b, issue) {
      var k :| 0 <= k < |b| && ClauseHolds(b[k], issue);
      assert ab[|a| + k] == b[k];
    }
  }

  lemma AnyMembershipAdmitsLast(user: User, ms: seq<Membership>, trackerIds: seq<TrackerId>, issue: Issue)
    requires ms != []
    ensures AnyMembershipAdmits(user, ms, trackerIds, issue)
            <==> AnyMembershipAdmits(user, ms[..|ms| - 1], trackerIds, issue)
                 || MembershipAdmits(user, ms[|ms| - 1], trackerIds, issue)
  {
    var front := ms[..|ms| - 1];
    if AnyMembershipAdmits(user, ms, trackerIds, issue) {
      var j :| 0 <= j < |ms| && MembershipAdmits(user, ms[j], trackerIds, issue);
      if j < |front| {
        assert front[j] == ms[j];
      }
    }
    if AnyMembershipAdmits(user, front, trackerIds, issue) {
      var j :| 0 <= j < |front| && MembershipAdmits(user, front[j], trackerIds, issue);
      assert ms[j] == front[j];
    }
  }

  /** Some clause of `ms` holds on `issue` exactly when some membership of `ms` admits it. */
  lemma {:induction false} RawClausesHold(user: User, ms: seq<Membership>, trackerIds: seq<TrackerId>, issue: Issue)
    ensures AnyClauseHolds(RawClauses(user, ms, trackerIds), issue)
            <==> AnyMembershipAdmits(user, ms, trackerIds, issue)
    decreases |ms|
  {
    if ms != [] {
      var front := ms[..|ms| - 1];
      var last := ms[|ms| - 1];
      RawClausesHold(user, front, trackerIds, issue);
      MembershipClauseHolds(user, last, trackerIds, issue);
      AnyMembershipAdmitsLast(user, ms, trackerIds, issue);
      var c := MembershipClause(user, last, trackerIds);
      var tail := if c.Some? then [c.value] else [];
      AnyClauseHoldsAppend(RawClauses(user, front, trackerIds), tail, issue);
      if c.Some? {
        assert tail[0] == c.value;
      }
    }
  }

  /** `uniq` does not change whether some clause holds. */
  lemma DedupKeepsAnyClause(cs: seq<Clause>, issue: Issue)
    ensures AnyClauseHolds(Dedup(cs), issue) <==> AnyClauseHolds(cs, issue)
  {
    var d := Dedup(cs);
    if AnyClauseHolds(cs, issue) {
      var k :| 0 <= k < |cs| && ClauseHolds(cs[k], issue);
      var k' :| 0 <= k' < |d| && d[k'] == cs[k];
    }
    if AnyClauseHolds(d, issue) {
      var k :| 0 <= k < |d| && ClauseHolds(d[k], issue);
      var k' :| 0 <= k' < |cs| && cs[k'] == d[k];
    }
  }

  /** What the condition selects: exactly the issues the host condition
      selects, plus, for a logged-in user, the issues that carry the user's own
      watcher row and that some membership admits. */
  lemma ConditionMeaning(user: User, trackerIds: seq<TrackerId>, issue: Issue, baseHolds: bool)
    ensures Holds(ConditionFor(Some(user), trackerIds), issue, baseHolds)
            <==> baseHolds
                 || (user.logged && issue.HasWatcherId(user.id)
                     && AnyMembershipAdmits(user, user.memberships, trackerIds, issue))
  {
    if user.logged {
      var raw := RawClauses(user, user.memberships, trackerIds);
      RawClausesHold(user, user.memberships, trackerIds, issue);
      DedupKeepsAnyClause(raw, issue);
    }
  }

  /** The membership snapshot and the `roles_for_project` snapshot agree. */
  ghost predicate RolesAgree(user: User) {
    forall j | 0 <= j < |user.memberships| ::
      user.memberships[j].project.Some? ==>
        user.RolesForProject(user.memberships[j].project) == user.memberships[j].roles
  }

  /** Every issue the watcher branch adds is one the user has watcher access
      to (when the two role snapshots agree). The converse fails: the bulk
      condition only follows direct watcher rows, and it ignores
      `view_issue_description`. */
  lemma WatchedBranchGrantsWatcherAccess(user: User, trackerIds: seq<TrackerId>, issue: Issue)
    requires RolesAgree(user)
    requires Holds(ConditionFor(Some(user), trackerIds), issue, false)
    ensures WatcherAccessGranted(issue, Some(user), None)
  {
    ConditionMeaning(user, trackerIds, issue, false);
    var j :| 0 <= j < |user.memberships| && MembershipAdmits(user, user.memberships[j], trackerIds, issue);
    var m := user.memberships[j];
    var roles := user.RolesForProject(issue.ProjectKey());
    assert roles == m.roles;
    if exists i | 0 <= i < |m.roles| :: m.roles[i].PermissionsAllTrackers(ViewWatchedIssues) {
      var i :| 0 <= i < |m.roles| && m.roles[i].PermissionsAllTrackers(ViewWatchedIssues);
      assert roles[i].Grants(ViewWatchedIssues, issue.tracker);
    } else {
      var i :| 0 <= i < |m.roles| && m.roles[i].PermissionsTrackerIds(ViewWatchedIssues, issue.tracker.value);
      assert roles[i].Grants(ViewWatchedIssues, issue.tracker);
    }
    assert issue.WatchedBy(user);
  }

  /** The bulk condition is not the per-issue rule, in one direction: it
      selects for a watcher an issue that `Visible` hides, because the user
      lacks `view_issue_description`. */
  lemma ConditionShowsHiddenIssue()
    ensures exists u: User, issue: Issue :: Holds(ConditionFor(Some(u), [2]), issue, false) && !Visible(issue, u)
  {
    var watchAll := Role({ViewWatchedIssues}, map[]);
    var u := User(1, false, true, true, {}, {(ViewWatchedIssues, 3)}, map[3 := [watchAll]],
                  [Membership(Some(3), [watchAll])]);
    var issue := Issue(Some(Project(3, [])), Some(2), None, [UserPrincipal(u)], false);
    ConditionMeaning(u, [2], issue, false);
    assert MembershipAdmits(u, u.memberships[0], [2], issue);
    assert AnyMembershipAdmits(u, u.memberships, [2], issue);
    assert issue.watchers[0].Id() == u.id;
    assert issue.HasWatcherId(u.id);
    assert Holds(ConditionFor(Some(u), [2]), issue, false);
    assert !u.AllowedTo(ViewIssueDescription, issue.ProjectKey());
    assert !Visible(issue, u);
  }

  /** ... and in the other: `Visible` shows an issue watched through one of
      the user's groups, which the condition, following only direct watcher
      rows, leaves out. */
  lemma ConditionMissesGroupWatchedIssue()
    ensures exists u: User, issue: Issue :: !Holds(ConditionFor(Some(u), [2]), issue, false) && Visible(issue, u)
  {
    var both := Role({ViewWatchedIssues, ViewIssueDescription}, map[]);
    var v := User(1, false, true, true, {9}, {(ViewWatchedIssues, 3), (ViewIssueDescription, 3)},
                  map[3 := [both]], [Membership(Some(3), [both])]);
    var grouped := Issue(Some(Project(3, [])), Some(2), None, [GroupPrincipal(9)], false);
    assert grouped.watchers[0].Id() == 9;
    assert !grouped.HasWatcherId(v.id);
    ConditionMeaning(v, [2], grouped, false);
    assert !Holds(ConditionFor(Some(v), [2]), grouped, false);
    var roles := RolesUsed(grouped, v, None);
    assert roles == [both];
    assert roles[0].Grants(ViewIssueDescription, grouped.tracker);
    assert TrackerPermissionGranted(grouped, Some(v), ViewIssueDescription, None);
    assert roles[0].Grants(ViewWatchedIssues, grouped.tracker);
    assert TrackerPermissionGranted(grouped, Some(v), ViewWatchedIssues, None);
    assert v.IsOrBelongsTo(Some(grouped.watchers[0]));
    assert WatcherAccessGranted(grouped, Some(v), None);
    assert Visible(grouped, v);
  }
}
