/**
 * The paper list page: the defaults for the age and sort filters, the request a page load
 * sends, the editing of the filter query string and the reset performed when the route or
 * the query changes.
 */
module PapersList {
  import opened Wrappers
  import opened Text
  import opened Models

  /** The matched route: its path pattern and its named parameters. */
  datatype Route = Route(path: string, params: map<string, string>)

  /** A parsed query string: one value per key. */
  type Query = map<string, string>

  /** The value of a key, if present. */
  function Get(query: Query, key: string): (r: Option<string>)
    ensures r.Some? <==> key in query
    ensures r.Some? ==> r.value == query[key]
  {
    if key in query then Some(query[key]) else None
  }

  function GroupId(route: Route): Option<string> {
    Get(route.params, "groupId")
  }

  function AuthorId(route: Route): Option<string> {
    Get(route.params, "authorId")
  }

  predicate IsLibraryMode(route: Route) {
    route.path == "/library"
  }

  /** The library or one reading list. */
  predicate IsLibraryOrList(route: Route) {
    IsLibraryMode(route) || Truthy(GroupId(route))
  }

  /** The first group with id `id`. */
  function FindGroup(groups: seq<Group>, id: string): (r: Option<Group>)
    ensures r.None? <==> forall k :: 0 <= k < |groups| ==> groups[k].id != id
    ensures r.Some? ==> exists k ::
      && 0 <= k < |groups| && groups[k] == r.value && r.value.id == id
      && forall j :: 0 <= j < k ==> groups[j].id != id
  {
    if groups == [] then None
    else if groups[0].id == id then Some(groups[0])
    else
      var rest := FindGroup(groups[1..], id);
      if rest.Some? then
        var k :| 0 <= k < |groups[1..]| && groups[1..][k] == rest.value && rest.value.id == id
          && forall j :: 0 <= j < k ==> groups[1..][j].id != id;
        assert groups[k + 1] == rest.value;
        rest
      else
        assert forall k :: 1 <= k < |groups| ==> groups[k] == groups[1..][k - 1];
        rest
  }

  /** The name of the list being shown: none without a (non-empty) group id or a group with it. */
  function GetGroupName(groups: seq<Group>, groupId: Option<string>): (r: Option<string>)
    ensures !Truthy(groupId) ==> r.None?
    ensures Truthy(groupId) ==> (r.None? <==> forall k :: 0 <= k < |groups| ==> groups[k].id != groupId.value)
    ensures r.Some? ==> exists k :: 0 <= k < |groups| && groups[k].id == groupId.value && groups[k].name == r.value
  {
    if !Truthy(groupId) then None
    else
      match FindGroup(groups, groupId.value)
      case Some(g) => Some(g.name)
      case None => None
  }

  /** The list searched for the name: the user's groups, then the group of a pending invite. */
  function SearchedGroups(groups: seq<Group>, inviteGroup: Option<Group>): seq<Group> {
    if inviteGroup.Some? then groups + [inviteGroup.value] else groups
  }

  /**
   * Appending the invite group only matters when the user is not already in a group with
   * that id; then the invite group's name is shown.
   */
  lemma {:induction false} InviteGroupName(groups: seq<Group>, invite: Group, groupId: Option<string>)
    ensures (exists k :: 0 <= k < |groups| && Truthy(groupId) && groups[k].id == groupId.value) ==>
      GetGroupName(groups + [invite], groupId) == GetGroupName(groups, groupId)
    ensures Truthy(groupId) && groupId.value == invite.id && (forall k :: 0 <= k < |groups| ==> groups[k].id != invite.id) ==>
      GetGroupName(groups + [invite], groupId) == Some(invite.name)
  {
    if Truthy(groupId) {
      FindGroupAppend(groups, [invite], groupId.value);
    }
  }

  lemma {:induction false} FindGroupAppend(a: seq<Group>, b: seq<Group>, id: string)
    ensures FindGroup(a + b, id) == if FindGroup(a, id).Some? then FindGroup(a, id) else FindGroup(b, id)
  {
    if a == [] {
      assert a + b == b;
    } else {
      assert (a + b)[1..] == a[1..] + b;
      FindGroupAppend(a[1..], b, id);
    }
  }

  /**
   * The age filter: the one in the query when set; otherwise all times in the library, for
   * a search or on a route with parameters, and this week elsewhere.
   */
  function AgeQuery(route: Route, query: Query): (r: string)
    ensures Truthy(Get(query, "age")) ==> r == query["age"]
    ensures !Truthy(Get(query, "age")) ==>
      r == (if IsLibraryMode(route) || Truthy(Get(query, "q")) || route.params != map[] then "all" else "week")
  {
    var isDefaultAgeToAll := IsLibraryMode(route) || Truthy(Get(query, "q")) || route.params != map[];
    if Truthy(Get(query, "age")) then query["age"]
    else if isDefaultAgeToAll then "all" else "week"
  }

  /**
   * The sort order: the one in the query when set; otherwise relevance for a search, date
   * added in the library or a list, and tweets elsewhere.
   */
  function SortQuery(route: Route, query: Query): (r: string)
    ensures Truthy(Get(query, "sort")) ==> r == query["sort"]
    ensures !Truthy(Get(query, "sort")) && Truthy(Get(query, "q")) ==> r == "score"
    ensures !Truthy(Get(query, "sort")) && !Truthy(Get(query, "q")) ==>
      r == (if IsLibraryOrList(route) then "date_added" else "tweets")
  {
    if Truthy(Get(query, "sort")) then query["sort"]
    else if Truthy(Get(query, "q")) then "score"
    else if IsLibraryOrList(route) then "date_added"
    else "tweets"
  }

  /** A search always defaults to the widest age and to relevance, whatever the route. */
  lemma SearchDefaults(route: Route, query: Query)
    requires Truthy(Get(query, "q")) && !Truthy(Get(query, "age")) && !Truthy(Get(query, "sort"))
    ensures AgeQuery(route, query) == "all" && SortQuery(route, query) == "score"
  {
  }

  /** The values of the age menu. */
  const AgeMenu: seq<string> := ["day", "week", "month", "all"]

  /** The values of the sort menu: relevance only for a search, date added only in the library or a list. */
  function SortMenu(route: Route, query: Query): (r: seq<string>)
    ensures "score" in r <==> Truthy(Get(query, "q"))
    ensures "date_added" in r <==> IsLibraryOrList(route)
  {
    ["date", "tweets", "bookmarks"]
      + (if Truthy(Get(query, "q")) then ["score"] else [])
      + (if IsLibraryOrList(route) then ["date_added"] else [])
  }

  /** Without an explicit filter, the defaults are values the two menus offer on that page. */
  lemma DefaultsAreOffered(route: Route, query: Query)
    ensures !Truthy(Get(query, "age")) ==> AgeQuery(route, query) in AgeMenu
    ensures !Truthy(Get(query, "sort")) ==> SortQuery(route, query) in SortMenu(route, query)
  {
  }

  datatype RequestParams = RequestParams(
    author: Option<string>, pageNum: int, age: string, sort: string, q: Option<string>, group: Option<string>)

  datatype PapersRequest = PapersRequest(url: string, params: RequestParams)

  /**
   * The request for page `page`: the library endpoint in library mode and the general one
   * otherwise; an empty search is not sent; the route's list wins over the query's group.
   */
  function LoadPapersRequest(route: Route, query: Query, page: int): (r: PapersRequest)
    ensures r.url == "/library" <==> IsLibraryMode(route)
    ensures r.url != "/library" ==> r.url == "/papers/all"
    ensures r.params.author == AuthorId(route) && r.params.pageNum == page
    ensures r.params.age == AgeQuery(route, query) && r.params.sort == SortQuery(route, query)
    ensures r.params.q.Some? <==> Truthy(Get(query, "q"))
    ensures r.params.q.Some? ==> r.params.q.value == query["q"]
    ensures r.params.group == if Truthy(GroupId(route)) then GroupId(route) else Get(query, "group")
  {
    var url := if IsLibraryMode(route) then "/library" else "/papers/all";
    PapersRequest(url, RequestParams(
      AuthorId(route), page, AgeQuery(route, query), SortQuery(route, query),
      if Truthy(Get(query, "q")) then Get(query, "q") else None,
      if Truthy(GroupId(route)) then GroupId(route) else Get(query, "group")))
  }

  /** The query after setting filter `param` to `value`: a missing or empty value removes it. */
  function Filtered(query: Query, param: string, value: Option<string>): (r: Query)
    ensures param in r <==> Truthy(value)
    ensures param in r ==> r[param] == value.value
    ensures forall k :: k != param ==> (k in r <==> k in query)
    ensures forall k :: k != param && k in query ==> r[k] == query[k]
  {
    if Truthy(value) then query[param := value.value] else query - {param}
  }

  /** Setting a filter twice is setting it once; clearing a filter set before removes it. */
  lemma {:induction false} FilteredOverrides(query: Query, param: string, v: Option<string>, w: Option<string>)
    ensures Filtered(Filtered(query, param, v), param, w) == Filtered(query, param, w)
    ensures Filtered(Filtered(query, param, v), param, None) == query - {param}
  {
    var a := Filtered(Filtered(query, param, v), param, w);
    var b := Filtered(query, param, w);
    assert a.Keys == b.Keys;
    assert forall k :: k in a ==> a[k] == b[k];
  }

  /** `handleFilters`: copy the query with the new value, then delete the key when empty. */
  method HandleFilters(query: Query, param: string, value: Option<string>) returns (newQ: Query)
    ensures newQ == Filtered(query, param, value)
  {
    newQ := if value.Some? then query[param := value.value] else query;
    if !Truthy(value) {
      newQ := newQ - {param};
    }
    assert newQ.Keys == Filtered(query, param, value).Keys;
  }

  /**
   * `handleFiltersEvent`: nothing without a control name; the value equal to `ignoreValue`
   * clears the filter, any other is lower-cased first.
   */
  method HandleFiltersEvent(query: Query, name: Option<string>, value: string, ignoreValue: Option<string>)
    returns (newQ: Option<Query>)
    ensures !Truthy(name) ==> newQ.None?
    ensures Truthy(name) && ignoreValue == Some(value) ==> newQ == Some(query - {name.value})
    ensures Truthy(name) && ignoreValue != Some(value) ==> newQ == Some(Filtered(query, name.value, Some(Lower(value))))
  {
    if !Truthy(name) {
      return None;
    }
    var v: Option<string> := Some(value);
    if ignoreValue.Some? && ignoreValue.value == value {
      v := None;
    }
    if v.Some? {
      v := Some(Lower(v.value));
    }
    var q := HandleFilters(query, name.value, v);
    newQ := Some(q);
  }

  /** The page state that survives renders. */
  class PapersListPage {
    var isFirstLoad: bool
    var hasMorePapers: bool
    var isLoading: bool
    /** The key of the scroll container; a new key restarts the infinite scroll at page 0. */
    var scrollId: int

    constructor(initialScrollId: int)
      ensures isFirstLoad && hasMorePapers && !isLoading && scrollId == initialScrollId
    {
      isFirstLoad := true;
      hasMorePapers := true;
      isLoading := false;
      scrollId := initialScrollId;
    }

    /** The infinite scroll asks for the next page only when there is one and none is loading. */
    predicate CanLoadMore()
      reads this
    {
      hasMorePapers && !isLoading
    }

    /**
     * The effect run when the path, the query, the list or the author changes (the paper
     * list is emptied first): the first run only clears the first-load flag, later runs
     * restart the scroll under the fresh key `newScrollId`.
     */
    method RouteChanged(newScrollId: int)
      modifies this
      ensures !isFirstLoad
      ensures old(isFirstLoad) ==> hasMorePapers == old(hasMorePapers) && isLoading == old(isLoading) && scrollId == old(scrollId)
      ensures !old(isFirstLoad) ==> hasMorePapers && !isLoading && scrollId == newScrollId
    {
      if isFirstLoad {
        isFirstLoad := false;
      } else {
        hasMorePapers := true;
        isLoading := false;
        scrollId := newScrollId;
      }
    }

    /** Loading a page marks the page as loading, so no second page is asked for meanwhile. */
    method LoadPapers(route: Route, query: Query, page: int) returns (request: PapersRequest)
      modifies this
      ensures request == LoadPapersRequest(route, query, page)
      ensures isLoading && !CanLoadMore()
      ensures hasMorePapers == old(hasMorePapers) && isFirstLoad == old(isFirstLoad) && scrollId == old(scrollId)
    {
      isLoading := true;
      request := LoadPapersRequest(route, query, page);
    }

    /** The fetch reports whether more pages exist. */
    method SetHasMorePapers(more: bool)
      modifies this
      ensures hasMorePapers == more
      ensures isLoading == old(isLoading) && isFirstLoad == old(isFirstLoad) && scrollId == old(scrollId)
    {
      hasMorePapers := more;
    }

    /** The fetch settled, whatever its outcome. */
    method LoadFinished()
      modifies this
      ensures !isLoading
      ensures hasMorePapers == old(hasMorePapers) && isFirstLoad == old(isFirstLoad) && scrollId == old(scrollId)
    {
      isLoading := false;
    }
  }

  /**
   * A page load followed by a route change before the fetch settles: the second effect run
   * re-enables loading under a new key.
   */
  method LoadThenNavigate() returns (canLoadWhileLoading: bool, canLoadAfterNavigation: bool, key: int)
    ensures !canLoadWhileLoading && canLoadAfterNavigation && key == 2
  {
    var page := new PapersListPage(1);
    page.RouteChanged(1);
    var request := page.LoadPapers(Route("/library", map[]), map[], 0);
    canLoadWhileLoading := page.CanLoadMore();
    page.RouteChanged(2);
    canLoadAfterNavigation := page.CanLoadMore();
    key := page.scrollId;
  }
}
