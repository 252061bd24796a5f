/**
 * How the application picks a handler for a request. Express tries the
 * routes in the order they were registered and runs the first one whose verb
 * and path pattern accept the request. With its default options a literal path
 * segment matches case-insensitively and a named parameter (`:genre`) matches
 * any non-empty segment. A request path is given here as its list of
 * segments.
 */
module Routing {
  import opened Optional
  import opened Text

  datatype Verb = Get | Head | Post

  datatype Segment = Literal(text: string) | Param

  datatype Handler = AddAdmin | BooksByGenre | SearchBooks | TestDump | Health

  datatype Route = Route(verb: Verb, pattern: seq<Segment>, handler: Handler)

  predicate SegmentMatches(segment: Segment, part: string)
  {
    match segment
    case Literal(text) => EqualsIgnoreCase(part, text)
    case Param => part != ""
  }

  /** A GET route also answers HEAD requests, as Express routes do when no HEAD route is registered. */
  predicate VerbMatches(routeVerb: Verb, verb: Verb)
  {
    routeVerb == verb || (routeVerb == Get && verb == Head)
  }

  predicate Accepts(route: Route, verb: Verb, path: seq<string>)
  {
    && VerbMatches(route.verb, verb)
    && |route.pattern| == |path|
    && forall i :: 0 <= i < |path| ==> SegmentMatches(route.pattern[i], path[i])
  }

  /** The position of the first route in `table` that accepts the request, if any. */
  function FirstMatch(table: seq<Route>, verb: Verb, path: seq<string>): (r: Option<nat>)
    ensures r.Some? ==> r.value < |table| && Accepts(table[r.value], verb, path)
    ensures forall i :: 0 <= i < |table| && (r.None? || i < r.value) ==> !Accepts(table[i], verb, path)
  {
    if table == [] then None
    else if Accepts(table[0], verb, path) then Some(0)
    else match FirstMatch(table[1..], verb, path)
      case None => None
      case Some(k) => Some(k + 1)
  }

  /** The handler Express runs for the request. */
  function Dispatch(table: seq<Route>, verb: Verb, path: seq<string>): Option<Handler>
  {
    match FirstMatch(table, verb, path)
    case None => None
    case Some(i) => Some(table[i].handler)
  }

  const AdminRoute := Route(Post, [Literal("api"), Literal("admin")], AddAdmin)
  const GenreRoute := Route(Get, [Literal("api"), Literal("books"), Param], BooksByGenre)
  const SearchRoute := Route(Get, [Literal("api"), Literal("books"), Literal("search")], SearchBooks)
  const TestRoute := Route(Get, [Literal("api"), Literal("test")], TestDump)
  const HealthRoute := Route(Get, [Literal("health")], Health)

  /** The routes in the order index.js registers them. */
  const RegisteredRoutes := [AdminRoute, GenreRoute, SearchRoute, TestRoute, HealthRoute]

  /** The same routes with the search route registered ahead of the genre route. */
  const ServedRoutes := [AdminRoute, SearchRoute, GenreRoute, TestRoute, HealthRoute]

  /** Each book handler is mounted at its own path pattern, wherever it sits in the table. */
  predicate HandlersMounted(table: seq<Route>)
  {
    forall i :: 0 <= i < |table| ==>
      && (table[i].handler == BooksByGenre ==> table[i] == GenreRoute)
      && (table[i].handler == SearchBooks ==> table[i] == SearchRoute)
  }

  lemma BothOrdersMounted()
    ensures HandlersMounted(RegisteredRoutes) && HandlersMounted(ServedRoutes)
  {
  }

  /**
   * A request dispatched to a book handler fits that handler's pattern: the
   * genre handler gets a GET or HEAD of three segments whose last one is not
   * empty, the search handler a GET or HEAD of /api/books/search.
   */
  lemma MountedDispatch(table: seq<Route>, verb: Verb, path: seq<string>)
    requires HandlersMounted(table)
    ensures Dispatch(table, verb, path) == Some(BooksByGenre) ==>
      && Accepts(GenreRoute, verb, path) && verb != Post && |path| == 3 && path[2] != ""
    ensures Dispatch(table, verb, path) == Some(SearchBooks) ==> Accepts(SearchRoute, verb, path) && verb != Post
  {
    var m := FirstMatch(table, verb, path);
    if m.Some? && table[m.value].handler == BooksByGenre {
      assert table[m.value] == GenreRoute;
      assert SegmentMatches(GenreRoute.pattern[2], path[2]);
    }
  }

  /** FirstMatch's contract determines it: the first accepting route is the one it finds. */
  lemma FirstMatchIs(table: seq<Route>, verb: Verb, path: seq<string>, k: nat)
    requires k < |table| && Accepts(table[k], verb, path)
    requires forall i :: 0 <= i < k ==> !Accepts(table[i], verb, path)
    ensures FirstMatch(table, verb, path) == Some(k)
    ensures Dispatch(table, verb, path) == Some(table[k].handler)
  {
  }

  /** Every path the search route accepts, the genre route accepts too. */
  lemma SearchPathFitsGenreRoute(verb: Verb, path: seq<string>)
    requires Accepts(SearchRoute, verb, path)
    ensures Accepts(GenreRoute, verb, path)
  {
    assert |ToLower(path[2])| == |ToLower("search")|;
  }

  /**
   * As registered, a search request is answered by the genre handler, with
   * genre "search".
   */
  lemma SearchPathGoesToGenreLookup(verb: Verb, path: seq<string>)
    requires Accepts(SearchRoute, verb, path)
    ensures Dispatch(RegisteredRoutes, verb, path) == Some(BooksByGenre)
  {
    SearchPathFitsGenreRoute(verb, path);
    FirstMatchIs(RegisteredRoutes, verb, path, 1);
  }

  /** GET /api/books/search: the genre handler as registered, the search handler once reordered. */
  lemma SearchRequestDispatch()
    ensures Dispatch(RegisteredRoutes, Get, ["api", "books", "search"]) == Some(BooksByGenre)
    ensures Dispatch(ServedRoutes, Get, ["api", "books", "search"]) == Some(SearchBooks)
  {
    var path := ["api", "books", "search"];
    assert Accepts(SearchRoute, Get, path) by {
      assert SegmentMatches(SearchRoute.pattern[0], path[0]);
      assert SegmentMatches(SearchRoute.pattern[1], path[1]);
      assert SegmentMatches(SearchRoute.pattern[2], path[2]);
    }
    SearchPathGoesToGenreLookup(Get, path);
    SearchReachableWhenRegisteredFirst(Get, path);
  }

  /** As registered, no request whatever reaches the search handler. */
  lemma SearchUnreachableAsRegistered(verb: Verb, path: seq<string>)
    ensures Dispatch(RegisteredRoutes, verb, path) != Some(SearchBooks)
  {
    var table := RegisteredRoutes;
    if Accepts(SearchRoute, verb, path) {
      SearchPathFitsGenreRoute(verb, path);
      FirstMatchIs(table, verb, path, 1);
    } else {
      var m := FirstMatch(table, verb, path);
      assert m.Some? ==> m.value != 2;
    }
  }

  /** With the search route first, the search handler answers exactly the requests the search route accepts. */
  lemma SearchReachableWhenRegisteredFirst(verb: Verb, path: seq<string>)
    ensures Dispatch(ServedRoutes, verb, path) == Some(SearchBooks) <==> Accepts(SearchRoute, verb, path)
  {
    var table := ServedRoutes;
    if Accepts(SearchRoute, verb, path) {
      FirstMatchIs(table, verb, path, 1);
    } else {
      var m := FirstMatch(table, verb, path);
      assert m.Some? ==> m.value != 1;
    }
  }

  /** Dispatch tries the first route, then the rest of the table. */
  lemma DispatchCons(x: Route, table: seq<Route>, verb: Verb, path: seq<string>)
    ensures Dispatch([x] + table, verb, path) ==
      if Accepts(x, verb, path) then Some(x.handler) else Dispatch(table, verb, path)
  {
    assert ([x] + table)[1..] == table;
  }

  /** A route that does not accept the request can be taken out of the table without changing the dispatch. */
  lemma {:induction false} DispatchSkips(front: seq<Route>, r: Route, back: seq<Route>, verb: Verb, path: seq<string>)
    requires !Accepts(r, verb, path)
    ensures Dispatch(front + [r] + back, verb, path) == Dispatch(front + back, verb, path)
  {
    if front == [] {
      assert front + [r] + back == [r] + back;
      assert front + back == back;
      DispatchCons(r, back, verb, path);
    } else {
      DispatchSkips(front[1..], r, back, verb, path);
      assert front + [r] + back == [front[0]] + (front[1..] + [r] + back);
      assert front + back == [front[0]] + (front[1..] + back);
      DispatchCons(front[0], front[1..] + [r] + back, verb, path);
      DispatchCons(front[0], front[1..] + back, verb, path);
    }
  }

  /** A route that accepts nothing of the request can swap places with its neighbour. */
  lemma SwapIdleRoute(a: Route, r: Route, g: Route, rest: seq<Route>, verb: Verb, path: seq<string>)
    requires !Accepts(r, verb, path)
    ensures Dispatch([a, r, g] + rest, verb, path) == Dispatch([a, g, r] + rest, verb, path)
  {
    DispatchSkips([a], r, [g] + rest, verb, path);
    DispatchSkips([a, g], r, rest, verb, path);
    assert [a, r, g] + rest == [a] + [r] + ([g] + rest);
    assert [a, g, r] + rest == [a, g] + [r] + rest;
    assert [a] + ([g] + rest) == [a, g] + rest;
  }

  /** Moving the search route changes nothing for a request the search route does not accept. */
  lemma ReorderOnlyAffectsSearch(verb: Verb, path: seq<string>)
    requires !Accepts(SearchRoute, verb, path)
    ensures Dispatch(ServedRoutes, verb, path) == Dispatch(RegisteredRoutes, verb, path)
  {
    SwapIdleRoute(AdminRoute, SearchRoute, GenreRoute, [TestRoute, HealthRoute], verb, path);
    assert ServedRoutes == [AdminRoute, SearchRoute, GenreRoute] + [TestRoute, HealthRoute];
    assert RegisteredRoutes == [AdminRoute, GenreRoute, SearchRoute] + [TestRoute, HealthRoute];
  }

  /**
   * With the search route first, the genre handler answers a GET or HEAD of a
   * three-segment path whose last segment is not "search" in any letter case.
   */
  lemma GenreDispatchShape(verb: Verb, path: seq<string>)
    requires Dispatch(ServedRoutes, verb, path) == Some(BooksByGenre)
    ensures verb != Post && |path| == 3 && path[2] != "" && !EqualsIgnoreCase(path[2], "search")
  {
    var m := FirstMatch(ServedRoutes, verb, path);
    assert m == Some(2);
    assert ServedRoutes[1] == SearchRoute && ServedRoutes[2] == GenreRoute;
    assert Accepts(GenreRoute, verb, path) && !Accepts(SearchRoute, verb, path);
    assert SegmentMatches(SearchRoute.pattern[0], path[0]) && SegmentMatches(SearchRoute.pattern[1], path[1]);
  }
}
