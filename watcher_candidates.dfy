/** The watcher-candidate list of the watchers controller patch: choose a
    principal scope, search it, count, sort, cut one page, drop the watchers
    already shown and keep the principals every watchable accepts.

    Scopes are sequences of principals; `like`, `sorted`, `offset` and `limit`
    take their array meanings. The request's `per_page` and `page` arrive as
    the integers `to_i` made of them (0 when absent), `q` as its `to_s`. */
module WatcherCandidates {
  import opened Collections
  import opened RubyText

  /** A user or group offered as a watcher; groups have an empty login. */
  datatype Principal = Principal(id: int, name: string, login: string)

  /** An object being watched: the watchers it already shows, and its `valid_watcher?`. */
  datatype Watchable = Watchable(visibleWatcherUsers: seq<Principal>, validWatcher: Principal -> bool)

  function Min(a: int, b: int): int {
    if a < b then a else b
  }

  const DefaultPageSize := 25
  const MaxPageSize := 100

  /** `watcher_page_size`: a positive `per_page`, at most 100; 25 otherwise. */
  function WatcherPageSize(perPage: int): (r: int)
    ensures 1 <= r <= MaxPageSize
    ensures perPage <= 0 ==> r == DefaultPageSize
    ensures 1 <= perPage <= MaxPageSize ==> r == perPage
    ensures perPage > MaxPageSize ==> r == MaxPageSize
  {
    var size := if perPage > 0 then perPage else DefaultPageSize;
    if size < MaxPageSize then size else MaxPageSize
  }

  /** `watcher_page_number`: the requested page, at least 1. */
  function WatcherPageNumber(page: int): (r: int)
    ensures r >= 1 && r >= page
    ensures page >= 1 ==> r == page
    ensures page < 1 ==> r == 1
  {
    if page > 1 then page else 1
  }

  /** `watcher_offset`: where the page starts; the first page starts at 0. */
  function WatcherOffset(page: int, perPage: int): (r: int)
    ensures r >= 0
    ensures page <= 1 ==> r == 0
  {
    var n: nat, size := WatcherPageNumber(page) - 1, WatcherPageSize(perPage);
    MulNonNegative(n, size);
    n * size
  }

  lemma MulNonNegative(m: nat, k: nat)
    ensures m * k >= 0
  {
  }

  /** Each page starts exactly one page size after the previous one, so pages
      neither overlap nor leave gaps. */
  lemma PagesAdjoin(page: int, perPage: int)
    requires page >= 1
    ensures WatcherOffset(page + 1, perPage) == WatcherOffset(page, perPage) + WatcherPageSize(perPage)
  {
    var size := WatcherPageSize(perPage);
    assert page * size == (page - 1) * size + size;
  }

  /** The offset is a whole number of pages. */
  lemma {:induction false} OffsetWholePages(page: int, perPage: int)
    ensures WatcherOffset(page, perPage) % WatcherPageSize(perPage) == 0
    decreases page
  {
    if page > 1 {
      OffsetWholePages(page - 1, perPage);
      PagesAdjoin(page - 1, perPage);
      AddPageKeepsRemainder(WatcherOffset(page - 1, perPage), WatcherPageSize(perPage));
    }
  }

  /** Adding `m` to `a` leaves its remainder modulo `m` unchanged. */
  lemma AddPageKeepsRemainder(a: int, m: int)
    requires m >= 1
    ensures (a + m) % m == a % m
  {
    var q, r := a / m, a % m;
    var q', r' := (a + m) / m, (a + m) % m;
    assert m * q' + r' == m * (q + 1) + r;
    var k := q' - q - 1;
    assert m * k == r - r';
    if k >= 1 {
      assert m * k == m * (k - 1) + m;
      MulNonNegative(m, k - 1);
    } else if k <= -1 {
      assert m * k == m * (k + 1) - m;
      MulNonNegative(m, -(k + 1));
    }
  }

  /** `watcher_query`: `q` with surrounding whitespace removed. */
  function WatcherQuery(q: string): (r: string)
    ensures r == [] || (!IsStripSpace(r[0]) && !IsStripSpace(r[|r| - 1]))
    ensures exists i :: PartAt(q, r, i) && AllStripSpace(q[..i]) && AllStripSpace(q[i + |r|..])
  {
    Strip(q)
  }

  /** A downcased string contains a downcased needle exactly when it occurs at a position of the original strings' length. */
  lemma ContainsDowncased(hay: string, needle: string)
    ensures Contains(Downcase(hay), Downcase(needle)) <==>
      exists i | 0 <= i <= |hay| - |needle| :: PartAt(Downcase(hay), Downcase(needle), i)
  {
    assert |Downcase(hay)| == |hay| && |Downcase(needle)| == |needle|;
  }

  /** The name or the login contains the query, ignoring case. */
  function MatchesQuery(p: Principal, query: string): (r: bool)
    ensures r <==>
      (exists i | 0 <= i <= |p.name| - |query| :: PartAt(Downcase(p.name), Downcase(query), i))
      || (exists i | 0 <= i <= |p.login| - |query| :: PartAt(Downcase(p.login), Downcase(query), i))
  {
    ContainsDowncased(p.name, query);
    ContainsDowncased(p.login, query);
    Contains(Downcase(p.name), Downcase(query)) || Contains(Downcase(p.login), Downcase(query))
  }

  /** `apply_watcher_search`: with a query, the principals whose name or
      login contains it (ignoring case), in scope order; without one, the scope. */
  function ApplyWatcherSearch(scope: seq<Principal>, query: string): (r: seq<Principal>)
    ensures query == [] ==> r == scope
    ensures query != [] ==> forall i :: 0 <= i < |r| ==> r[i] in scope && MatchesQuery(r[i], query)
    ensures query != [] ==> forall i :: 0 <= i < |scope| && MatchesQuery(scope[i], query) ==> scope[i] in r
    ensures IsSubsequence(r, scope)
  {
    if query == [] then
      IsSubsequenceReflexive(scope);
      scope
    else
      FilterIsSubsequence(scope, p => MatchesQuery(p, query));
      Filter(scope, p => MatchesQuery(p, query))
  }

  lemma {:induction false} IsSubsequenceReflexive(s: seq<Principal>)
    ensures IsSubsequence(s, s)
  {
    if s != [] {
      IsSubsequenceReflexive(s[1..]);
    }
  }

  /** The key `sort_by` orders on: the downcased name. */
  function SortKey(p: Principal): string {
    Downcase(p.name)
  }

  predicate SortedByName(s: seq<Principal>) {
    forall i, j :: 0 <= i < j < |s| ==> LexLe(SortKey(s[i]), SortKey(s[j]))
  }

  /** `x` placed before the first element whose key is not smaller. */
  function InsertByName(x: Principal, s: seq<Principal>): (r: seq<Principal>)
    ensures multiset(r) == multiset(s) + multiset{x}
  {
    if s == [] then [x]
    else if LexLe(SortKey(x), SortKey(s[0])) then [x] + s
    else
      assert s == [s[0]] + s[1..];
      [s[0]] + InsertByName(x, s[1..])
  }

  lemma {:induction false} InsertByNameSorted(x: Principal, s: seq<Principal>)
    requires SortedByName(s)
    ensures SortedByName(InsertByName(x, s))
  {
    if s == [] {
    } else if LexLe(SortKey(x), SortKey(s[0])) {
      var r := InsertByName(x, s);
      forall j | 1 <= j < |r| ensures LexLe(SortKey(r[0]), SortKey(r[j])) {
        if j > 1 {
          LexLeTransitive(SortKey(x), SortKey(s[0]), SortKey(s[j - 1]));
        }
      }
    } else {
      LexLeTotal(SortKey(x), SortKey(s[0]));
      InsertByNameSorted(x, s[1..]);
      var rest := InsertByName(x, s[1..]);
      var r := InsertByName(x, s);
      assert r == [s[0]] + rest;
      forall j | 0 <= j < |rest| ensures LexLe(SortKey(s[0]), SortKey(rest[j])) {
        assert rest[j] in multiset(rest);
        assert rest[j] in multiset(s[1..]) || rest[j] == x;
        if rest[j] != x {
          var k :| 0 <= k < |s[1..]| && s[1..][k] == rest[j];
          assert s[k + 1] == rest[j];
        }
      }
    }
  }

  /** `apply_watcher_sort`: the same principals, ordered by downcased name. */
  function ApplyWatcherSort(s: seq<Principal>): (r: seq<Principal>)
    ensures SortedByName(r)
    ensures multiset(r) == multiset(s)
    ensures |r| == |s|
  {
    if s == [] then []
    else
      var t := ApplyWatcherSort(s[1..]);
      InsertByNameSorted(s[0], t);
      assert s == [s[0]] + s[1..];
      InsertByName(s[0], t)
  }

  /** `apply_watcher_pagination`: `Array(scope)[offset, page_size] || []`. */
  function ApplyWatcherPagination(s: seq<Principal>, page: int, perPage: int): (r: seq<Principal>)
    ensures |r| <= WatcherPageSize(perPage)
    ensures WatcherOffset(page, perPage) >= |s| ==> r == []
    ensures WatcherOffset(page, perPage) < |s| ==>
      |r| == (if |s| - WatcherOffset(page, perPage) < WatcherPageSize(perPage)
              then |s| - WatcherOffset(page, perPage) else WatcherPageSize(perPage))
    ensures forall k :: 0 <= k < |r| ==>
      WatcherOffset(page, perPage) + k < |s| && r[k] == s[WatcherOffset(page, perPage) + k]
  {
    var offset, size := WatcherOffset(page, perPage), WatcherPageSize(perPage);
    if offset >= |s| then []
    else s[offset..if offset + size < |s| then offset + size else |s|]
  }

  /** Page 2 at 10 per page holds elements 10 to 19. */
  lemma SecondPageOfTen(s: seq<Principal>)
    requires |s| >= 20
    ensures ApplyWatcherPagination(s, 2, 10) == s[10..20]
  {
    PagesAdjoin(1, 10);
  }

  /** Which principal scope `watcher_candidates_scope` draws from. */
  datatype ScopeKind = ProjectPrincipals | MultiProjectPrincipals | AllAssignable

  /** `watcher_candidates_scope`: without a query, the current project's
      principals, else those of several projects; otherwise all assignable ones. */
  function WatcherCandidatesScopeKind(query: string, hasProject: bool, projectCount: nat): (k: ScopeKind)
    ensures k == ProjectPrincipals <==> query == [] && hasProject
    ensures k == MultiProjectPrincipals <==> query == [] && !hasProject && projectCount > 1
    ensures k == AllAssignable <==> query != [] || (!hasProject && projectCount <= 1)
  {
    if query == [] && hasProject then ProjectPrincipals
    else if query == [] && projectCount > 1 then MultiProjectPrincipals
    else AllAssignable
  }

  /** `single_watchable?`: exactly one object is being watched. */
  function SingleWatchable(watchables: seq<Watchable>): (r: bool)
    ensures r ==> watchables != [] && watchables == [watchables[0]]
    ensures !r ==> watchables == [] || |watchables| >= 2
  {
    |watchables| == 1
  }

  /** `users -= visible_watcher_users` when there is a single watchable. */
  function RemoveVisibleWatchers(users: seq<Principal>, watchables: seq<Watchable>): (r: seq<Principal>)
    ensures !SingleWatchable(watchables) ==> r == users
    ensures SingleWatchable(watchables) ==>
      forall i :: 0 <= i < |r| ==> r[i] in users && r[i] !in watchables[0].visibleWatcherUsers
    ensures SingleWatchable(watchables) ==>
      forall i :: 0 <= i < |users| && users[i] !in watchables[0].visibleWatcherUsers ==> users[i] in r
  {
    if SingleWatchable(watchables) then Difference(users, watchables[0].visibleWatcherUsers) else users
  }

  /** The in-place `select!` by each watchable's `valid_watcher?`, in turn. */
  function KeepValid(users: seq<Principal>, watchables: seq<Watchable>): (r: seq<Principal>)
    ensures forall i :: 0 <= i < |r| ==>
      r[i] in users && forall k | 0 <= k < |watchables| :: watchables[k].validWatcher(r[i])
    ensures forall i :: 0 <= i < |users| && (forall k | 0 <= k < |watchables| :: watchables[k].validWatcher(users[i]))
              ==> users[i] in r
    decreases |watchables|
  {
    if watchables == [] then users
    else Filter(KeepValid(users, watchables[..|watchables| - 1]), watchables[|watchables| - 1].validWatcher)
  }

  /** What the list ends with, given the page: the visible watchers removed
      (single watchable) and the principals some watchable rejects dropped. */
  function NewWatcherUsers(page: seq<Principal>, watchables: seq<Watchable>): (r: seq<Principal>)
    ensures forall i :: 0 <= i < |r| ==> r[i] in page && Admissible(r[i], watchables)
    ensures forall i :: 0 <= i < |page| && Admissible(page[i], watchables) ==> page[i] in r
  {
    var removed := RemoveVisibleWatchers(page, watchables);
    var r := KeepValid(removed, watchables);
    forall i | 0 <= i < |r| ensures r[i] in page && Admissible(r[i], watchables) {
      var k :| 0 <= k < |removed| && removed[k] == r[i];
    }
    forall i | 0 <= i < |page| && Admissible(page[i], watchables) ensures page[i] in r {
      var k :| 0 <= k < |removed| && removed[k] == page[i];
    }
    r
  }

  /** Every watchable accepts `u`. */
  predicate AcceptedByAll(u: Principal, watchables: seq<Watchable>) {
    forall k | 0 <= k < |watchables| :: watchables[k].validWatcher(u)
  }

  /** A page element survives: not already shown as a watcher of a single
      watchable, and accepted by every watchable. */
  predicate Admissible(u: Principal, watchables: seq<Watchable>) {
    !(SingleWatchable(watchables) && u in watchables[0].visibleWatcherUsers) && AcceptedByAll(u, watchables)
  }

  lemma {:induction false} KeepValidIsFilter(users: seq<Principal>, watchables: seq<Watchable>, all: Principal -> bool)
    requires forall u :: all(u) == AcceptedByAll(u, watchables)
    ensures KeepValid(users, watchables) == Filter(users, all)
    decreases |watchables|
  {
    if watchables == [] {
      FilterKeepsAll(users, all);
    } else {
      var front := watchables[..|watchables| - 1];
      var last := watchables[|watchables| - 1];
      var prev := u => AcceptedByAll(u, front);
      KeepValidIsFilter(users, front, prev);
      forall u ensures all(u) == (prev(u) && last.validWatcher(u)) {
        assert AcceptedByAll(u, watchables) <==> AcceptedByAll(u, front) && last.validWatcher(u) by {
          if AcceptedByAll(u, front) && last.validWatcher(u) {
            forall k | 0 <= k < |watchables| ensures watchables[k].validWatcher(u) {
              if k < |front| { assert watchables[k] == front[k]; }
            }
          }
          if AcceptedByAll(u, watchables) {
            forall k | 0 <= k < |front| ensures front[k].validWatcher(u) {
              assert watchables[k] == front[k];
            }
          }
        }
      }
      FilterTwice(users, prev, last.validWatcher, all);
    }
  }

  /** The final list is exactly the admissible principals of the page, in page order. */
  lemma NewWatcherUsersIsFilter(page: seq<Principal>, watchables: seq<Watchable>, keep: Principal -> bool)
    requires forall u :: keep(u) == Admissible(u, watchables)
    ensures NewWatcherUsers(page, watchables) == Filter(page, keep)
  {
    var all := u => AcceptedByAll(u, watchables);
    var removed := RemoveVisibleWatchers(page, watchables);
    KeepValidIsFilter(removed, watchables, all);
    if SingleWatchable(watchables) {
      var notShown := u => u !in watchables[0].visibleWatcherUsers;
      DifferenceIsFilter(page, watchables[0].visibleWatcherUsers, notShown);
      FilterTwice(page, notShown, all, keep);
    } else {
      FilterAgree(page, all, keep);
    }
  }

  /** The final list has at most a page of principals, keeps page order, and
      holds exactly the page principals every watchable accepts that are not
      already shown as watchers of a single watchable. */
  lemma NewWatcherUsersProperties(page: seq<Principal>, watchables: seq<Watchable>)
    ensures var r := NewWatcherUsers(page, watchables);
      && |r| <= |page|
      && IsSubsequence(r, page)
      && (SingleWatchable(watchables) ==> forall i :: 0 <= i < |r| ==> r[i] !in watchables[0].visibleWatcherUsers)
      && (forall i, k :: 0 <= i < |r| && 0 <= k < |watchables| ==> watchables[k].validWatcher(r[i]))
      && (forall i :: 0 <= i < |page| && Admissible(page[i], watchables) ==> page[i] in r)
  {
    var keep := u => Admissible(u, watchables);
    NewWatcherUsersIsFilter(page, watchables, keep);
    FilterIsSubsequence(page, keep);
    var r := NewWatcherUsers(page, watchables);
    assert forall i :: 0 <= i < |r| ==> keep(r[i]);
  }

  /** A request parameter or hash value: nil, a string, an integer, a boolean,
      or a list (`object_id[]=1&object_id[]=2` arrives as a list of strings). */
  datatype Value = Nil | Str(s: string) | Int(i: int) | Bool(b: bool) | List(items: seq<Value>)

  /** `blank?`: nil, false, strings of whitespace only and the empty list. */
  function IsBlankValue(v: Value): (r: bool)
    ensures v.Nil? ==> r
    ensures v.Str? ==> (r <==> forall k :: 0 <= k < |v.s| ==> IsBlankSpace(v.s[k]))
    ensures v.Int? ==> !r
    ensures v.Bool? ==> (r <==> !v.b)
    ensures v.List? ==> (r <==> |v.items| == 0)
  {
    match v
    case Nil => true
    case Str(s) => IsBlank(s)
    case Int(_) => false
    case Bool(b) => !b
    case List(items) => items == []
  }

  /** `params[key]`: nil when the request does not carry it. */
  function Param(params: map<string, Value>, key: string): Value {
    if key in params then params[key] else Nil
  }

  /** The link defaults `watcher_pagination_link_params` starts from; `q` is
      `params[:q].to_s`. */
  function LinkDefaults(params: map<string, Value>, q: string): (r: map<string, Value>)
    ensures r.Keys == {"controller", "action", "object_type", "object_id", "project_id", "per_page", "q", "format"}
    ensures r["controller"] == Str("watchers") && r["action"] == Str("autocomplete_for_user")
    ensures r["object_type"] == Param(params, "object_type") && r["object_id"] == Param(params, "object_id")
    ensures r["project_id"] == Param(params, "project_id") && r["per_page"] == Param(params, "per_page")
    ensures r["q"] == Str(WatcherQuery(q))
    ensures r["format"] == Nil
  {
    map["controller" := Str("watchers"),
        "action" := Str("autocomplete_for_user"),
        "object_type" := Param(params, "object_type"),
        "object_id" := Param(params, "object_id"),
        "project_id" := Param(params, "project_id"),
        "per_page" := Param(params, "per_page"),
        "q" := Str(WatcherQuery(q)),
        "format" := Nil]
  }

  /** `watcher_pagination_link_params`: defaults merged with `overrides`
      (overrides win), every blank value dropped; `q` is `params[:q].to_s`. */
  function WatcherPaginationLinkParams(params: map<string, Value>, q: string, overrides: map<string, Value>)
    : (r: map<string, Value>)
    ensures forall k :: k in r ==> !IsBlankValue(r[k])
    ensures forall k :: k in overrides ==>
      (k in r <==> !IsBlankValue(overrides[k])) && (k in r ==> r[k] == overrides[k])
    ensures forall k :: k !in overrides ==>
      (k in r <==> k in LinkDefaults(params, q) && !IsBlankValue(LinkDefaults(params, q)[k]))
      && (k in r ==> r[k] == LinkDefaults(params, q)[k])
  {
    var merged := LinkDefaults(params, q) + overrides;
    map k | k in merged && !IsBlankValue(merged[k]) :: merged[k]
  }

  /** A list-valued `object_id` stays in the pagination links exactly when the
      list is not empty, and then unchanged. */
  lemma ObjectIdListInLinks(params: map<string, Value>, q: string, ids: seq<Value>)
    requires "object_id" in params && params["object_id"] == List(ids)
    ensures "object_id" in WatcherPaginationLinkParams(params, q, map[]) <==> ids != []
    ensures ids != [] ==> WatcherPaginationLinkParams(params, q, map[])["object_id"] == List(ids)
  {
    assert LinkDefaults(params, q)["object_id"] == List(ids);
  }

  /** Unless overridden, the links carry the stripped query, and only when it
      is not blank. */
  lemma QueryInLinks(params: map<string, Value>, q: string, overrides: map<string, Value>)
    requires "q" !in overrides
    ensures "q" in WatcherPaginationLinkParams(params, q, overrides) <==> !IsBlank(WatcherQuery(q))
    ensures "q" in WatcherPaginationLinkParams(params, q, overrides) ==>
      WatcherPaginationLinkParams(params, q, overrides)["q"] == Str(WatcherQuery(q))
  {
    assert LinkDefaults(params, q)["q"] == Str(WatcherQuery(q));
  }

  /** A query typed with whitespace around it is linked as the bare query,
      when that is not blank (`blank?` also counts Unicode spaces `strip` keeps). */
  lemma PaddedQueryLinkedStripped(params: map<string, Value>, a: string, core: string, b: string,
                                  overrides: map<string, Value>)
    requires AllStripSpace(a) && AllStripSpace(b)
    requires core != [] && !IsStripSpace(core[0]) && !IsStripSpace(core[|core| - 1])
    requires !IsBlank(core)
    requires "q" !in overrides
    ensures "q" in WatcherPaginationLinkParams(params, a + core + b, overrides)
    ensures WatcherPaginationLinkParams(params, a + core + b, overrides)["q"] == Str(core)
  {
    StripPadded(a, core, b);
    QueryInLinks(params, a + core + b, overrides);
  }

  /** The loop of `select!` calls: for each watchable in turn, keep the
      principals it accepts as watchers. */
  method SelectValidWatchers(users: seq<Principal>, watchables: seq<Watchable>) returns (r: seq<Principal>)
    ensures r == KeepValid(users, watchables)
  {
    r := users;
    var i := 0;
    while i < |watchables|
      invariant 0 <= i <= |watchables|
      invariant r == KeepValid(users, watchables[..i])
    {
      assert watchables[..i + 1][..i] == watchables[..i];
      r := Filter(r, watchables[i].validWatcher);
      i := i + 1;
    }
    assert watchables[..i] == watchables;
  }

  /** Two consecutive pages, side by side, are the stretch of `s` that starts
      at the first one's offset and is two page sizes long (cut at the end). */
  lemma ConsecutivePages(s: seq<Principal>, page: int, perPage: int)
    requires page >= 1
    ensures var off, size := WatcherOffset(page, perPage), WatcherPageSize(perPage);
      ApplyWatcherPagination(s, page, perPage) + ApplyWatcherPagination(s, page + 1, perPage)
        == s[Min(off, |s|)..Min(off + 2 * size, |s|)]
  {
    PagesAdjoin(page, perPage);
  }

  /** The requested page of `matches` once sorted by name. */
  function CandidatePageOf(matches: seq<Principal>, page: int, perPage: int): seq<Principal> {
    ApplyWatcherPagination(ApplyWatcherSort(matches), page, perPage)
  }

  /** A stretch of a sorted list is sorted. */
  lemma SortedSlice(s: seq<Principal>, lo: int, hi: int)
    requires SortedByName(s) && 0 <= lo <= hi <= |s|
    ensures SortedByName(s[lo..hi])
  {
    var t := s[lo..hi];
    forall i, j | 0 <= i < j < |t| ensures LexLe(SortKey(t[i]), SortKey(t[j])) {
      assert t[i] == s[lo + i] && t[j] == s[lo + j];
    }
  }

  /** A page of the sorted list is sorted. */
  lemma SortedPage(matches: seq<Principal>, page: int, perPage: int)
    ensures SortedByName(CandidatePageOf(matches, page, perPage))
  {
    var sorted := ApplyWatcherSort(matches);
    var off, size := WatcherOffset(page, perPage), WatcherPageSize(perPage);
    if off < |sorted| {
      var hi := Min(off + size, |sorted|);
      assert ApplyWatcherPagination(sorted, page, perPage) == sorted[off..hi];
      SortedSlice(sorted, off, hi);
    }
  }

  /** A page of the sorted list holds only elements of the list that was sorted. */
  lemma PageOfSortedWithin(matches: seq<Principal>, page: int, perPage: int)
    ensures var p := CandidatePageOf(matches, page, perPage);
      forall k :: 0 <= k < |p| ==> p[k] in matches
  {
    var sorted := ApplyWatcherSort(matches);
    var p := ApplyWatcherPagination(sorted, page, perPage);
    var off := WatcherOffset(page, perPage);
    forall k | 0 <= k < |p| ensures p[k] in matches {
      assert p[k] == sorted[off + k];
      assert p[k] in multiset(sorted);
    }
  }

  /** The controller state the candidate list reads, and the total it records. */
  class WatchersController {
    const perPage: int                             // params[:per_page].to_i
    const page: int                                // params[:page].to_i
    const q: string                                // params[:q].to_s
    const projectPrincipals: Option<seq<Principal>> // @project.principals.assignable_watchers, if @project
    const projects: seq<int>                       // @projects (nil taken as empty)
    const multiProjectPrincipals: seq<Principal>   // principal_scope_for_multiple_projects
    const assignablePrincipals: seq<Principal>     // Principal.assignable_watchers
    const watchables: seq<Watchable>               // @watchables (nil taken as empty)
    var watcherTotalCount: int                     // @watcher_total_count

    constructor (perPage: int, page: int, q: string, projectPrincipals: Option<seq<Principal>>,
                 projects: seq<int>, multiProjectPrincipals: seq<Principal>,
                 assignablePrincipals: seq<Principal>, watchables: seq<Watchable>)
      ensures this.perPage == perPage && this.page == page && this.q == q
      ensures this.projectPrincipals == projectPrincipals && this.projects == projects
      ensures this.multiProjectPrincipals == multiProjectPrincipals
      ensures this.assignablePrincipals == assignablePrincipals && this.watchables == watchables
      ensures watcherTotalCount == 0
    {
      this.perPage, this.page, this.q := perPage, page, q;
      this.projectPrincipals, this.projects := projectPrincipals, projects;
      this.multiProjectPrincipals, this.assignablePrincipals := multiProjectPrincipals, assignablePrincipals;
      this.watchables := watchables;
      watcherTotalCount := 0;
    }

    /** The scope `watcher_candidates_scope` returns. */
    function CandidatesScope(): (r: seq<Principal>)
      ensures WatcherQuery(q) == [] && projectPrincipals.Some? ==> r == projectPrincipals.value
      ensures WatcherQuery(q) == [] && projectPrincipals.None? && |projects| > 1 ==> r == multiProjectPrincipals
      ensures WatcherQuery(q) != [] || (projectPrincipals.None? && |projects| <= 1) ==> r == assignablePrincipals
    {
      match WatcherCandidatesScopeKind(WatcherQuery(q), projectPrincipals.Some?, |projects|)
      case ProjectPrincipals => projectPrincipals.value
      case MultiProjectPrincipals => multiProjectPrincipals
      case AllAssignable => assignablePrincipals
    }

    /** The search result the total is taken from. */
    function Matches(): seq<Principal> {
      ApplyWatcherSearch(CandidatesScope(), WatcherQuery(q))
    }

    /** The requested page of the sorted matches. */
    function CandidatePage(): seq<Principal> {
      CandidatePageOf(Matches(), page, perPage)
    }

    /** `users_for_new_watcher_with_vid`. */
    method UsersForNewWatcher() returns (users: seq<Principal>)
      modifies this`watcherTotalCount
      ensures watcherTotalCount == |Matches()|
      ensures users == NewWatcherUsers(CandidatePage(), watchables)
      ensures |users| <= WatcherPageSize(perPage)
    {
      var scope := CandidatesScope();
      scope := ApplyWatcherSearch(scope, WatcherQuery(q));
      var totalCount := |scope|;
      scope := ApplyWatcherSort(scope);
      scope := ApplyWatcherPagination(scope, page, perPage);
      users := scope;
      if SingleWatchable(watchables) {
        users := Difference(users, watchables[0].visibleWatcherUsers);
      }
      users := SelectValidWatchers(users, watchables);
      watcherTotalCount := totalCount;
      NewWatcherUsersProperties(scope, watchables);
    }
  }

  /** With a query, every principal on the page contains it. */
  lemma SearchedPageMatches(scope: seq<Principal>, query: string, page: int, perPage: int)
    requires query != []
    ensures var p := CandidatePageOf(ApplyWatcherSearch(scope, query), page, perPage);
      forall k :: 0 <= k < |p| ==> MatchesQuery(p[k], query)
  {
    var matches := ApplyWatcherSearch(scope, query);
    var p := CandidatePageOf(matches, page, perPage);
    PageOfSortedWithin(matches, page, perPage);
    forall k | 0 <= k < |p| ensures MatchesQuery(p[k], query) {
      var j :| 0 <= j < |matches| && matches[j] == p[k];
    }
  }

  /** The page is sorted by name, no longer than a page, and (with a query)
      every principal on it contains the query; the recorded total counts
      every match, of which the page is a part. */
  lemma CandidatePageProperties(c: WatchersController)
    ensures var page := c.CandidatePage();
      && |page| <= WatcherPageSize(c.perPage)
      && SortedByName(page)
      && (forall k :: 0 <= k < |page| ==> page[k] in c.Matches())
      && (WatcherQuery(c.q) != [] ==> forall k :: 0 <= k < |page| ==> MatchesQuery(page[k], WatcherQuery(c.q)))
  {
    SortedPage(c.Matches(), c.page, c.perPage);
    PageOfSortedWithin(c.Matches(), c.page, c.perPage);
    if WatcherQuery(c.q) != [] {
      SearchedPageMatches(c.CandidatesScope(), WatcherQuery(c.q), c.page, c.perPage);
    }
  }
}
