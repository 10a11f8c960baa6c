# View issue description: access rules and watcher candidates

A Dafny model of the two patches at the heart of the Redmine plugin
`redmine_view_issue_description`.

- **Issue patch.** This adds a tracker-scoped permission `view_issue_description` to Redmine issues.
  - A user must hold that permission to see an issue at all.
  - Admins and assignees are the exception and always see it.
  - A second permission, `view_watched_issues`, lets a user see issues they watch.
  - The patch widens the watcher-validity rule and the list of users that may be added as watchers.
  - It also widens the bulk condition Redmine uses to list visible issues.
- **Watchers controller patch.** This replaces the watcher candidate list with one that is searched,
  sorted and paged on the server.

The Redmine host is represented by a read-only snapshot:
- the host's `allowed_to?` is a set of (permission, project) pairs;
- `roles_for_project` is a map from project to roles;
- `is_or_belongs_to?` compares ids and group membership;
- the original `visible?` is a flag on the issue;
- the original `valid_watcher?` and `addable_watcher_users` are supplied by the caller.

The current user is passed explicitly. The bulk condition is a small condition tree with an
evaluation over one issue, in place of SQL text. The controller's ActiveRecord scopes are
sequences of principals, and `like`, `sorted`, `offset` and `limit` take their array-fallback
meanings.

Modules:
- `Collections`: `select`, `uniq`, `Array#-` and order-preserving subsequences, over `seq`.
- `RubyText`: the Ruby string operations the search needs: `strip`, `downcase`, `include?`,
  `blank?` and the ordering `sort_by` uses.
- `IssueAccess`: the instance methods of the issue patch, as pure functions.
- `VisibleCondition`: `visible_condition_with_vid`, as a method with a loop. It is proved
  equal to a specification function, and the meaning of the condition it builds is proved
  as lemmas.
- `WatcherCandidates`: the candidate pipeline, as pure functions. The class `WatchersController`
  holds the request parameters and the recorded total. Its method `UsersForNewWatcher` runs the
  pipeline step by step, and `SelectValidWatchers` is the in-place `select!` loop.

One might expect the bulk condition to select exactly the issues `Visible` accepts.
The code does not, and the model follows the code:
- the bulk condition never checks `view_issue_description`;
- it only follows direct watcher rows (`w.user_id`), so issues watched through a group are missed.

`ConditionShowsHiddenIssue` and `ConditionMissesGroupWatchedIssue` prove both differences on
concrete inputs. `WatchedBranchGrantsWatcherAccess` proves what does hold: every issue the
watcher branch adds is one the user has watcher access to.

The test at `spec/lib/redmine_view_issue_description/patches/issue_patch_spec.rb:193` is
titled "allows watchers with permission even when base visibility fails". Its assertion
(line 200) expects `false`, which is what the code computes, because the user lacks
`view_issue_description`. The model follows the code and the assertion.

## Model

| member | source | states |
|---|---|---|
| IssueAccess.AnyAllTrackers | lib/redmine_view_issue_description/patches/issue_patch.rb:12 | true exactly when some role grants the permission on all trackers |
| IssueAccess.AnyTrackerIds | lib/redmine_view_issue_description/patches/issue_patch.rb:15 | true exactly when some role grants the permission on the given tracker id |
| IssueAccess.RolesUsed | lib/redmine_view_issue_description/patches/issue_patch.rb:10 | the roles passed in when there are any; otherwise the user's roles in the issue's project, and none when the issue has no project or the user no roles there |
| IssueAccess.TrackerPermissionGranted | lib/redmine_view_issue_description/patches/issue_patch.rb:6-16 | false without a user; false whenever the host's `allowed_to?` refuses, whatever the roles grant; otherwise true exactly when some consulted role grants the permission on all trackers or on the issue's tracker (an issue without tracker is covered only by an all-trackers grant) |
| IssueAccess.AnyWatcherPrincipal | lib/redmine_view_issue_description/patches/issue_patch.rb:26-27 | true exactly when the user is, or belongs to, one of the watcher principals |
| IssueAccess.WatcherAccessGranted | lib/redmine_view_issue_description/patches/issue_patch.rb:18-33 | true exactly when the user is present and logged in, holds the tracker-scoped `view_watched_issues` grant, and watches the issue directly or through a principal they are or belong to |
| IssueAccess.Visible | lib/redmine_view_issue_description/patches/issue_patch.rb:61-78 | true for admins and for a user who is or belongs to the assignee; for everyone else, true exactly when `view_issue_description` is granted and (watcher access or the host's own visibility) |
| IssueAccess.ValidWatcher | lib/redmine_view_issue_description/patches/issue_patch.rb:49-59 | the host rule for non-user principals; for users, (logged in, active and holding the `view_watched_issues` grant) or the host rule, so never stricter than the host |
| IssueAccess.AddableExtras | lib/redmine_view_issue_description/patches/issue_patch.rb:39-44 | exactly the project members not in the base list who hold the `view_watched_issues` grant for the issue's tracker |
| IssueAccess.AddableWatcherUsers | lib/redmine_view_issue_description/patches/issue_patch.rb:35-47 | the base list unchanged without a project; otherwise `uniq` of the base list followed by `uniq` of the extras, without repetitions, keeping every base user and adding only granted project members; a base list without repetitions is kept as it is, the extras after it |
| IssueAccess.GrantMonotone | lib/redmine_view_issue_description/patches/issue_patch.rb:6-16 | a user holding at least the privileges of another (admin, host permissions, and for each of the other's roles in a project a role there granting at least the same all-tracker and per-tracker permissions) keeps every tracker permission the other is granted |
| IssueAccess.VisibleMonotone | lib/redmine_view_issue_description/patches/issue_patch.rb:61-78 | granting more privileges, including more permissions on an existing role, never hides an issue that was visible |
| VisibleCondition.AllowedTrackers | lib/redmine_view_issue_description/patches/issue_patch.rb:104-106 | exactly the tracker ids some role grants `view_watched_issues` on, in the order of `Tracker.all` |
| VisibleCondition.MembershipClause | lib/redmine_view_issue_description/patches/issue_patch.rb:93-110 | no clause for a membership without project or without the host's `view_watched_issues`; a project-only clause exactly when some role grants it on all trackers; otherwise no clause when no listed tracker is granted, and a tracker clause listing exactly the allowed trackers when some is |
| VisibleCondition.VisibleConditionWithVid | lib/redmine_view_issue_description/patches/issue_patch.rb:83-128 | the loop builds the condition `ConditionFor` describes: the base condition for an anonymous or logged-out user; otherwise a widened condition whose clauses are de-duplicated and non-empty |
| VisibleCondition.NoTrackerGrantOnlyProjectClauses | lib/redmine_view_issue_description/patches/issue_patch.rb:99-110 | when no role of any membership grants `view_watched_issues` on a listed tracker, every clause produced is a project-only clause |
| VisibleCondition.NoClausesWithoutGrants | lib/redmine_view_issue_description/patches/issue_patch.rb:99-110 | when, in addition, no role grants it on all trackers, no membership contributes a clause |
| VisibleCondition.NoGrantIsBase | lib/redmine_view_issue_description/patches/issue_patch.rb:113-114 | then the base condition is returned unchanged, whatever trackers exist |
| VisibleCondition.NoTrackersNoAllTrackerRoleIsBase | lib/redmine_view_issue_description/patches/issue_patch.rb:113-114 | with no trackers at all and no all-trackers role, the base condition is returned unchanged |
| VisibleCondition.NoPermittedTrackerIsBase | spec/lib/issue_visible_condition_spec.rb:175-184 | tracker 5 exists, the only role grants `view_watched_issues` on no tracker: the base condition is returned |
| VisibleCondition.MembershipClauseHolds | lib/redmine_view_issue_description/patches/issue_patch.rb:96-110 | a membership's clause holds on an issue exactly when the membership names the issue's project, the host grants `view_watched_issues` there, and some role grants it on all trackers or on the issue's listed tracker |
| VisibleCondition.RawClausesHold | lib/redmine_view_issue_description/patches/issue_patch.rb:92-111 | some accumulated clause holds exactly when some membership admits the issue |
| VisibleCondition.DedupKeepsAnyClause | lib/redmine_view_issue_description/patches/issue_patch.rb:113 | `uniq!` does not change whether some clause holds |
| VisibleCondition.ConditionMeaning | lib/redmine_view_issue_description/patches/issue_patch.rb:83-127 | the condition selects exactly the issues the base selects, plus, for a logged-in user, those carrying the user's own watcher row that some membership admits |
| VisibleCondition.WatchedBranchGrantsWatcherAccess | lib/redmine_view_issue_description/patches/issue_patch.rb:116-127 | every issue the watcher branch adds is one the user has watcher access to, when the two role snapshots agree |
| VisibleCondition.ConditionShowsHiddenIssue | lib/redmine_view_issue_description/patches/issue_patch.rb:116-127 | there is a user and an issue selected by the condition that the per-issue rule hides (no `view_issue_description`) |
| VisibleCondition.ConditionMissesGroupWatchedIssue | lib/redmine_view_issue_description/patches/issue_patch.rb:116-123 | there is a user and a group-watched issue the per-issue rule shows that the condition leaves out |
| Collections.Filter | lib/redmine_view_issue_description/patches/issue_patch.rb:41-44 | `select`: exactly the elements satisfying the predicate, never longer than the input |
| Collections.FilterIsSubsequence | lib/redmine_view_issue_description/patches/watchers_controller_patch.rb:67-71 | `select` keeps the input order |
| Collections.Dedup | lib/redmine_view_issue_description/patches/issue_patch.rb:46 | `uniq`: the same elements, each once, in the order of their first occurrences |
| Collections.DedupAppend | lib/redmine_view_issue_description/patches/issue_patch.rb:46 | `uniq` of a concatenation whose parts share nothing is the concatenation of their `uniq`s |
| Collections.Difference | lib/redmine_view_issue_description/patches/watchers_controller_patch.rb:35 | `Array#-`: exactly the elements of the first list not in the second |
| RubyText.Strip | lib/redmine_view_issue_description/patches/watchers_controller_patch.rb:113-115 | the part of the input left after cutting whitespace from both ends; it neither starts nor ends with whitespace |
| RubyText.StripPadded | lib/redmine_view_issue_description/patches/watchers_controller_patch.rb:114 | a core that neither starts nor ends with whitespace, with whitespace around it, strips to exactly that core |
| RubyText.StripIdempotent | lib/redmine_view_issue_description/patches/watchers_controller_patch.rb:113-115 | stripping a stripped query changes nothing |
| RubyText.StripLeft | lib/redmine_view_issue_description/patches/watchers_controller_patch.rb:114 | a suffix of the input that does not start with whitespace, everything cut being whitespace |
| RubyText.StripRight | lib/redmine_view_issue_description/patches/watchers_controller_patch.rb:114 | a prefix of the input that does not end with whitespace, everything cut being whitespace |
| RubyText.Contains | lib/redmine_view_issue_description/patches/watchers_controller_patch.rb:70 | `include?`: true exactly when the needle occurs at some position of the string |
| RubyText.IsBlank | lib/redmine_view_issue_description/patches/watchers_controller_patch.rb:129 | `blank?` on a string: true exactly when every character is whitespace |
| RubyText.Downcase | lib/redmine_view_issue_description/patches/watchers_controller_patch.rb:70 | each character lowered, the length kept |
| RubyText.LexLeTotal | lib/redmine_view_issue_description/patches/watchers_controller_patch.rb:79 | any two sort keys are ordered one way or the other |
| RubyText.LexLeTransitive | lib/redmine_view_issue_description/patches/watchers_controller_patch.rb:79 | the sort-key order is transitive |
| WatcherCandidates.WatcherPageSize | lib/redmine_view_issue_description/patches/watchers_controller_patch.rb:99-103 | always in 1..100; 25 for a non-positive `per_page`; `per_page` itself up to 100; 100 above |
| WatcherCandidates.WatcherPageNumber | lib/redmine_view_issue_description/patches/watchers_controller_patch.rb:109-111 | at least 1 and at least the requested page; the requested page when it is positive, 1 otherwise |
| WatcherCandidates.WatcherOffset | lib/redmine_view_issue_description/patches/watchers_controller_patch.rb:105-107 | never negative; 0 for the first page |
| WatcherCandidates.PagesAdjoin | lib/redmine_view_issue_description/patches/watchers_controller_patch.rb:105-107 | each page starts exactly one page size after the previous one |
| WatcherCandidates.OffsetWholePages | lib/redmine_view_issue_description/patches/watchers_controller_patch.rb:105-107 | the offset is a multiple of the page size |
| WatcherCandidates.WatcherQuery | lib/redmine_view_issue_description/patches/watchers_controller_patch.rb:113-115 | the raw `q` with only whitespace cut from both ends: a contiguous part of it, neither starting nor ending with whitespace |
| WatcherCandidates.MatchesQuery | lib/redmine_view_issue_description/patches/watchers_controller_patch.rb:67-71 | true exactly when the downcased query occurs at some position of the downcased name or of the downcased login |
| WatcherCandidates.ApplyWatcherSearch | lib/redmine_view_issue_description/patches/watchers_controller_patch.rb:61-73 | without a query the scope unchanged; with one exactly the principals whose downcased name or login contains the downcased query; always in scope order |
| WatcherCandidates.InsertByName | lib/redmine_view_issue_description/patches/watchers_controller_patch.rb:79 | the list with one more element, nothing lost |
| WatcherCandidates.InsertByNameSorted | lib/redmine_view_issue_description/patches/watchers_controller_patch.rb:79 | inserting into a sorted list keeps it sorted |
| WatcherCandidates.ApplyWatcherSort | lib/redmine_view_issue_description/patches/watchers_controller_patch.rb:75-81 | sorted by downcased name, and a permutation of its input |
| WatcherCandidates.ApplyWatcherPagination | lib/redmine_view_issue_description/patches/watchers_controller_patch.rb:83-87 | at most a page; empty when the offset is past the end; otherwise the contiguous run starting at the offset, a full page or up to the end |
| WatcherCandidates.SecondPageOfTen | lib/redmine_view_issue_description/patches/watchers_controller_patch.rb:83-87 | page 2 at 10 per page is elements 10 to 19 |
| WatcherCandidates.ConsecutivePages | lib/redmine_view_issue_description/patches/watchers_controller_patch.rb:83-87 | two consecutive pages side by side are the two-page stretch from the first offset: no overlap, no gap |
| WatcherCandidates.WatcherCandidatesScopeKind | lib/redmine_view_issue_description/patches/watchers_controller_patch.rb:44-51 | the project's principals exactly for an empty query with a project; the multi-project scope exactly for an empty query, no project and more than one project; all assignable principals otherwise |
| WatcherCandidates.SingleWatchable | lib/redmine_view_issue_description/patches/watchers_controller_patch.rb:132-134 | true exactly when there is one watchable; false for none or several |
| WatcherCandidates.RemoveVisibleWatchers | lib/redmine_view_issue_description/patches/watchers_controller_patch.rb:35 | with a single watchable, exactly the users that are not among its visible watchers; otherwise the users unchanged |
| WatcherCandidates.NewWatcherUsers | lib/redmine_view_issue_description/patches/watchers_controller_patch.rb:34-39 | exactly the page principals that are admissible: not a visible watcher of a single watchable and accepted by every watchable |
| WatcherCandidates.KeepValid | lib/redmine_view_issue_description/patches/watchers_controller_patch.rb:37-39 | exactly the users every watchable accepts |
| WatcherCandidates.KeepValidIsFilter | lib/redmine_view_issue_description/patches/watchers_controller_patch.rb:37-39 | the successive `select!` calls are one `select` by "accepted by all" |
| WatcherCandidates.NewWatcherUsersIsFilter | lib/redmine_view_issue_description/patches/watchers_controller_patch.rb:34-39 | the final list is the page principals that are admissible, in page order |
| WatcherCandidates.NewWatcherUsersProperties | lib/redmine_view_issue_description/patches/watchers_controller_patch.rb:34-39 | the final list is no longer than the page, keeps page order, excludes the single watchable's visible watchers, holds only principals every watchable accepts, and keeps every admissible one |
| WatcherCandidates.IsBlankValue | lib/redmine_view_issue_description/patches/watchers_controller_patch.rb:129 | `blank?`: always for nil, never for an integer, for a boolean exactly when false, for a string exactly when every character is whitespace, for a list exactly when empty |
| WatcherCandidates.LinkDefaults | lib/redmine_view_issue_description/patches/watchers_controller_patch.rb:118-126 | exactly the eight keys of the default hash: fixed controller and action, the four forwarded request parameters (nil when absent), `q` as `watcher_query` of the raw `q`, and a nil format |
| WatcherCandidates.WatcherPaginationLinkParams | lib/redmine_view_issue_description/patches/watchers_controller_patch.rb:117-130 | no blank value remains; an override wins over the default for its key; every other default is kept unless blank |
| WatcherCandidates.QueryInLinks | lib/redmine_view_issue_description/patches/watchers_controller_patch.rb:113-129 | unless overridden, `q` is in the links exactly when `watcher_query` of the raw `q` is not blank, and then it is that stripped query |
| WatcherCandidates.PaddedQueryLinkedStripped | lib/redmine_view_issue_description/patches/watchers_controller_patch.rb:113-129 | a non-blank query typed with whitespace around it is linked without that whitespace |
| WatcherCandidates.ObjectIdListInLinks | lib/redmine_view_issue_description/patches/watchers_controller_patch.rb:122-129 | a list-valued `object_id` is kept in the links, unchanged, exactly when the list is not empty |
| WatcherCandidates.SelectValidWatchers | lib/redmine_view_issue_description/patches/watchers_controller_patch.rb:37-39 | the loop leaves exactly `KeepValid` of its input |
| WatcherCandidates.SortedPage | lib/redmine_view_issue_description/patches/watchers_controller_patch.rb:28-29 | a page of the sorted list is sorted |
| WatcherCandidates.PageOfSortedWithin | lib/redmine_view_issue_description/patches/watchers_controller_patch.rb:28-29 | a page of the sorted list holds only elements of the list sorted |
| WatcherCandidates.SearchedPageMatches | lib/redmine_view_issue_description/patches/watchers_controller_patch.rb:26-29 | with a query, every principal on the page contains it |
| WatcherCandidates.CandidatePageProperties | lib/redmine_view_issue_description/patches/watchers_controller_patch.rb:26-29 | the page of the request is at most a page long, sorted by name, drawn from the matches, and (with a query) every principal on it contains the query |
| WatcherCandidates.WatchersController.CandidatesScope | lib/redmine_view_issue_description/patches/watchers_controller_patch.rb:44-51 | for an empty query, the project's principals when there is a project, else the multi-project scope when more than one project is given; all assignable principals otherwise |
| WatcherCandidates.WatchersController.UsersForNewWatcher | lib/redmine_view_issue_description/patches/watchers_controller_patch.rb:22-42 | records the number of all matches before paging as the total, returns the admissible principals of the requested page, and returns at most a page |

## Left out

- Monkey-patching with `alias_method`, `class_eval` and `include` is not modelled. Each `_without_vid` original is a parameter or a field of the snapshot.
- `respond_to?` probing is not modelled. The array-fallback branches of search, sort and paging are the semantics, `watcher_principals` is always present, and the `watcher_groups` branch (issue_patch.rb:28-29) is not modelled.
- `User.current` is not modelled; the user is an argument. `Visible` takes a present user, because line 67 of issue_patch.rb would raise on a nil one.
- The SQL text of the bulk condition (the EXISTS subquery, `join`, `gsub`) is replaced by the `Condition` tree and its evaluation `Holds`. The host's base condition enters only as its truth value on an issue.
- ActiveRecord (`joins`, `where`, `distinct`, `count`) is not modelled. The multi-project and assignable scopes are given as sequences.
- `Redmine::Pagination::Paginator` and `@watcher_paginator` are not modelled; only `@watcher_total_count` is recorded.
- `String#to_i` on `per_page` and `page` is not modelled; the parsed integers are inputs.
- `to_s` on `params[:q]` is not modelled; the controller and the link parameters take the resulting string as input.
- `UsersForNewWatcher`: the `return [] unless scope` path is not modelled, because the scope is never nil here.
- RubyText.Downcase: lowers ASCII letters only; Ruby's full Unicode case mapping is not modelled.
- ApplyWatcherSort: Ruby's `sort_by` does not promise stability. The model uses a stable insertion sort, so its order of equal keys is one of those Ruby may produce.
- Users and principals are compared structurally in `include?`, `uniq` and `Array#-`, where ActiveRecord compares ids.
- WatcherPaginationLinkParams: the result is a map, so the key order of the Ruby hash is not modelled.
- VisibleMonotone: holds for a fixed host rule; the host's `visible?` answer is the same flag for both users.
- `init.rb`, the view overrides, `hooks.rb`, the spec files and the query, issues-controller and activities-controller patches are not part of this model.
