/**
 * How the product router picks a handler for a request: the routes are tried
 * in the order they were registered and the first whose method and path
 * pattern fit handles the request. Paths are relative to the router's mount
 * point and carry no query string. As in the router's default settings, a
 * literal segment is compared without regard to case and one trailing slash
 * is allowed.
 */
module ProductRouter {
  import opened Wrappers
  import opened Js

  datatype Verb = Get | Post | Put | Delete

  /** A registered path: `/`, `/:id`, or one literal segment such as `/filter`. */
  datatype Pattern = Root | IdParam | Literal(segment: string)

  datatype Handler =
    | ListProducts | GetProduct | CreateProduct | UpdateProduct | DeleteProduct
    | FilterProducts | SearchProducts | UploadImage

  datatype Route = Route(verb: Verb, pattern: Pattern, handler: Handler)

  /** The handler chosen, and the `id` parameter when its pattern captured one. */
  datatype Match = Match(handler: Handler, id: Option<string>)

  /** The segment of a path of the form `/seg` or `/seg/`, where `seg` is non-empty and slash-free. */
  function SingleSegment(path: string): (seg: Option<string>)
    ensures seg.Some? ==> seg.value != [] && '/' !in seg.value
    ensures seg.Some? ==> path == "/" + seg.value || path == "/" + seg.value + "/"
  {
    if |path| < 2 || path[0] != '/' then None
    else
      var body := if path[|path| - 1] == '/' then path[1..|path| - 1] else path[1..];
      if body != [] && '/' !in body then Some(body) else None
  }

  /** A non-empty slash-free segment is found again in `/seg` and in `/seg/`. */
  lemma SingleSegmentOf(seg: string)
    requires seg != [] && '/' !in seg
    ensures SingleSegment("/" + seg) == Some(seg)
    ensures SingleSegment("/" + seg + "/") == Some(seg)
  {
    var p := "/" + seg;
    assert p[|p| - 1] == seg[|seg| - 1];
    assert p[1..] == seg;
    var q := "/" + seg + "/";
    assert q[1..|q| - 1] == seg;
  }

  /**
   * Whether `pattern` fits `path`: None when it does not, otherwise the
   * captured `id` (None for a pattern without a parameter).
   */
  function PatternMatch(pattern: Pattern, path: string): (r: Option<Option<string>>)
    ensures pattern.Root? ==> (r.Some? <==> path == "" || path == "/") && (r.Some? ==> r.value.None?)
    ensures pattern.IdParam? ==> (r.Some? <==> SingleSegment(path).Some?) && (r.Some? ==> r.value == SingleSegment(path))
    ensures pattern.Literal? ==>
      && (r.Some? <==> SingleSegment(path).Some? && EqualIgnoringCase(SingleSegment(path).value, pattern.segment))
      && (r.Some? ==> r.value.None?)
  {
    match pattern
    case Root => if path == "" || path == "/" then Some(None) else None
    case IdParam => if SingleSegment(path).Some? then Some(SingleSegment(path)) else None
    case Literal(segment) =>
      var seg := SingleSegment(path);
      if seg.Some? && EqualIgnoringCase(seg.value, segment) then Some(None) else None
  }

  predicate Fits(route: Route, verb: Verb, path: string)
  {
    route.verb == verb && PatternMatch(route.pattern, path).Some?
  }

  /** Every path a literal segment fits, the `/:id` pattern fits too. */
  lemma LiteralImpliesParam(segment: string, path: string)
    requires PatternMatch(Literal(segment), path).Some?
    ensures PatternMatch(IdParam, path).Some?
  {
  }

  /** The position of the earliest route that fits, or `|routes|` when none does. */
  function FirstFit(routes: seq<Route>, verb: Verb, path: string, from: nat): (i: nat)
    requires from <= |routes|
    ensures from <= i <= |routes|
    ensures forall j :: from <= j < i ==> !Fits(routes[j], verb, path)
    ensures i < |routes| ==> Fits(routes[i], verb, path)
    decreases |routes| - from
  {
    if from == |routes| || Fits(routes[from], verb, path) then from
    else FirstFit(routes, verb, path, from + 1)
  }

  /**
   * First-match dispatch: None when no route fits; otherwise the handler of
   * the earliest route that fits, with what its pattern captured.
   */
  function Dispatch(routes: seq<Route>, verb: Verb, path: string): (m: Option<Match>)
    ensures m.None? <==> forall i :: 0 <= i < |routes| ==> !Fits(routes[i], verb, path)
    ensures m.Some? ==>
      var i := FirstFit(routes, verb, path, 0);
      && i < |routes|
      && (forall j :: 0 <= j < i ==> !Fits(routes[j], verb, path))
      && Fits(routes[i], verb, path)
      && m.value == Match(routes[i].handler, PatternMatch(routes[i].pattern, path).value)
  {
    var i := FirstFit(routes, verb, path, 0);
    if i == |routes| then None
    else Some(Match(routes[i].handler, PatternMatch(routes[i].pattern, path).value))
  }

  /** The path segments of the filter, search and image upload routes. */
  const FilterSegment: string := "filter"
  const SearchSegment: string := "search"
  const UploadSegment: string := "upload-image"

  /** The routes in the order the product router registers them. */
  const RegisteredRoutes: seq<Route> := [
    Route(Get, Root, ListProducts),
    Route(Get, IdParam, GetProduct),
    Route(Post, Root, CreateProduct),
    Route(Put, IdParam, UpdateProduct),
    Route(Delete, IdParam, DeleteProduct),
    Route(Get, Literal(FilterSegment), FilterProducts),
    Route(Get, Literal(SearchSegment), SearchProducts),
    Route(Post, Literal(UploadSegment), UploadImage)
  ]

  /** The same routes with the two literal GET routes registered ahead of `GET /:id`. */
  const CorrectedRoutes: seq<Route> := [
    Route(Get, Root, ListProducts),
    Route(Get, Literal(FilterSegment), FilterProducts),
    Route(Get, Literal(SearchSegment), SearchProducts),
    Route(Get, IdParam, GetProduct),
    Route(Post, Root, CreateProduct),
    Route(Put, IdParam, UpdateProduct),
    Route(Delete, IdParam, DeleteProduct),
    Route(Post, Literal(UploadSegment), UploadImage)
  ]

  /**
   * In the registered order the filter and search handlers are dead: any GET
   * path their literal fits, `GET /:id` fits first.
   */
  lemma FilterAndSearchUnreachable(verb: Verb, path: string)
    ensures Dispatch(RegisteredRoutes, verb, path).Some? ==>
      && Dispatch(RegisteredRoutes, verb, path).value.handler != FilterProducts
      && Dispatch(RegisteredRoutes, verb, path).value.handler != SearchProducts
  {
    var i := FirstFit(RegisteredRoutes, verb, path, 0);
    assert Fits(RegisteredRoutes[5], verb, path) || Fits(RegisteredRoutes[6], verb, path)
      ==> Fits(RegisteredRoutes[1], verb, path);
  }

  /** Dispatch is pinned down by the earliest route that fits. */
  lemma DispatchAt(routes: seq<Route>, verb: Verb, path: string, i: nat)
    requires i < |routes| && Fits(routes[i], verb, path)
    requires forall j :: 0 <= j < i ==> !Fits(routes[j], verb, path)
    ensures Dispatch(routes, verb, path) == Some(Match(routes[i].handler, PatternMatch(routes[i].pattern, path).value))
  {
    var k := FirstFit(routes, verb, path, 0);
    assert k <= i;
  }

  /** What actually happens to `GET /filter` and `GET /search`: they are read as a product id. */
  lemma FilterAndSearchReadAsId()
    ensures Dispatch(RegisteredRoutes, Get, "/" + FilterSegment) == Some(Match(GetProduct, Some(FilterSegment)))
    ensures Dispatch(RegisteredRoutes, Get, "/" + SearchSegment) == Some(Match(GetProduct, Some(SearchSegment)))
  {
    ReadAsId(FilterSegment);
    ReadAsId(SearchSegment);
  }

  /** In the registered order, `GET /seg` reaches `GET /:id` with `id == seg`. */
  lemma ReadAsId(seg: string)
    requires seg != [] && '/' !in seg
    ensures Dispatch(RegisteredRoutes, Get, "/" + seg) == Some(Match(GetProduct, Some(seg)))
  {
    var path := "/" + seg;
    SingleSegmentOf(seg);
    assert |path| >= 2;
    DispatchAt(RegisteredRoutes, Get, path, 1);
  }

  /** With the literal routes first, `GET /filter` reaches the filter handler. */
  lemma CorrectedReachesFilter()
    ensures Dispatch(CorrectedRoutes, Get, "/" + FilterSegment) == Some(Match(FilterProducts, None))
  {
    var path := "/" + FilterSegment;
    SingleSegmentOf(FilterSegment);
    assert |path| >= 2;
    DispatchAt(CorrectedRoutes, Get, path, 1);
  }

  /** With the literal routes first, `GET /search` reaches the search handler. */
  lemma CorrectedReachesSearch()
    ensures Dispatch(CorrectedRoutes, Get, "/" + SearchSegment) == Some(Match(SearchProducts, None))
  {
    var path := "/" + SearchSegment;
    SingleSegmentOf(SearchSegment);
    assert |path| >= 2;
    assert LowerChar(SearchSegment[0]) != LowerChar(FilterSegment[0]);
    DispatchAt(CorrectedRoutes, Get, path, 2);
  }

  /**
   * The corrected order changes nothing but the requests the two literal GET
   * routes fit: every other request reaches the same handler with the same id.
   */
  lemma CorrectedAgreesElsewhere(verb: Verb, path: string)
    requires !Fits(CorrectedRoutes[1], verb, path) && !Fits(CorrectedRoutes[2], verb, path)
    ensures Dispatch(CorrectedRoutes, verb, path) == Dispatch(RegisteredRoutes, verb, path)
  {
    // Without the two literal GET routes, which fit neither request, both tables are the same.
    assert RegisteredRoutes[5] == CorrectedRoutes[1] && RegisteredRoutes[6] == CorrectedRoutes[2];
    DropPair(CorrectedRoutes, verb, path, 1);
    DropPair(RegisteredRoutes, verb, path, 5);
    SameRoutesBesideLiterals();
  }

  /** Both tables, with their two literal GET routes taken out, list the same routes. */
  lemma SameRoutesBesideLiterals()
    ensures CorrectedRoutes[..1] + CorrectedRoutes[3..] == RegisteredRoutes[..5] + RegisteredRoutes[7..]
  {
    var c := CorrectedRoutes[..1] + CorrectedRoutes[3..];
    var r := RegisteredRoutes[..5] + RegisteredRoutes[7..];
    assert |c| == |r| == 6;
    assert forall j :: 0 <= j < 6 ==> c[j] == r[j];
  }

  /** Taking out two adjacent routes, neither of which fits the request, leaves the dispatch unchanged. */
  lemma DropPair(routes: seq<Route>, verb: Verb, path: string, k: nat)
    requires k + 1 < |routes| && !Fits(routes[k], verb, path) && !Fits(routes[k + 1], verb, path)
    ensures Dispatch(routes[..k] + routes[k + 2..], verb, path) == Dispatch(routes, verb, path)
  {
    var once := routes[..k + 1] + routes[k + 2..];
    DropUnfit(routes, verb, path, k + 1);
    assert once[k] == routes[k];
    DropUnfit(once, verb, path, k);
    assert once[..k] + once[k + 1..] == routes[..k] + routes[k + 2..];
  }

  /** Taking out a route that does not fit the request leaves the dispatch unchanged. */
  lemma DropUnfit(routes: seq<Route>, verb: Verb, path: string, k: nat)
    requires k < |routes| && !Fits(routes[k], verb, path)
    ensures Dispatch(routes[..k] + routes[k + 1..], verb, path) == Dispatch(routes, verb, path)
  {
    var t := routes[..k] + routes[k + 1..];
    var i := FirstFit(routes, verb, path, 0);
    assert forall j :: 0 <= j < k ==> t[j] == routes[j];
    assert forall j :: k <= j < |t| ==> t[j] == routes[j + 1];
    if i < k {
      DispatchAt(t, verb, path, i);
    } else if i < |routes| {
      DispatchAt(t, verb, path, i - 1);
    } else {
      assert forall j :: 0 <= j < |t| ==> !Fits(t[j], verb, path);
    }
  }

  /** The id routes hand the segment on as `id`, for every method that has one. */
  lemma IdRoutesCaptureSegment(seg: string)
    requires seg != [] && '/' !in seg && !EqualIgnoringCase(seg, FilterSegment) && !EqualIgnoringCase(seg, SearchSegment)
    ensures Dispatch(CorrectedRoutes, Get, "/" + seg) == Some(Match(GetProduct, Some(seg)))
    ensures Dispatch(RegisteredRoutes, Get, "/" + seg) == Some(Match(GetProduct, Some(seg)))
    ensures Dispatch(RegisteredRoutes, Put, "/" + seg) == Some(Match(UpdateProduct, Some(seg)))
    ensures Dispatch(RegisteredRoutes, Delete, "/" + seg) == Some(Match(DeleteProduct, Some(seg)))
  {
    CorrectedReadsId(seg);
    ReadAsId(seg);
    UpdateReadsId(seg);
    DeleteReadsId(seg);
  }

  lemma CorrectedReadsId(seg: string)
    requires seg != [] && '/' !in seg && !EqualIgnoringCase(seg, FilterSegment) && !EqualIgnoringCase(seg, SearchSegment)
    ensures Dispatch(CorrectedRoutes, Get, "/" + seg) == Some(Match(GetProduct, Some(seg)))
  {
    var path := "/" + seg;
    SingleSegmentOf(seg);
    assert |path| >= 2;
    IdAt(CorrectedRoutes, Get, seg, 3);
  }

  lemma UpdateReadsId(seg: string)
    requires seg != [] && '/' !in seg
    ensures Dispatch(RegisteredRoutes, Put, "/" + seg) == Some(Match(UpdateProduct, Some(seg)))
  {
    IdAt(RegisteredRoutes, Put, seg, 3);
  }

  lemma DeleteReadsId(seg: string)
    requires seg != [] && '/' !in seg
    ensures Dispatch(RegisteredRoutes, Delete, "/" + seg) == Some(Match(DeleteProduct, Some(seg)))
  {
    IdAt(RegisteredRoutes, Delete, seg, 4);
  }

  /** `/seg` reaches the `/:id` route at position `i` when no earlier route fits it. */
  lemma IdAt(routes: seq<Route>, verb: Verb, seg: string, i: nat)
    requires seg != [] && '/' !in seg
    requires i < |routes| && routes[i].verb == verb && routes[i].pattern == IdParam
    requires forall j :: 0 <= j < i ==> !Fits(routes[j], verb, "/" + seg)
    ensures Dispatch(routes, verb, "/" + seg) == Some(Match(routes[i].handler, Some(seg)))
  {
    SingleSegmentOf(seg);
    DispatchAt(routes, verb, "/" + seg, i);
  }

  /**
   * The collection routes and the upload route are reached in the registered
   * order; the upload path may be written in any case.
   */
  lemma CollectionAndUploadReachable(seg: string)
    requires seg != [] && '/' !in seg && EqualIgnoringCase(seg, UploadSegment)
    ensures Dispatch(RegisteredRoutes, Get, "/") == Some(Match(ListProducts, None))
    ensures Dispatch(RegisteredRoutes, Post, "/") == Some(Match(CreateProduct, None))
    ensures Dispatch(RegisteredRoutes, Post, "/" + seg) == Some(Match(UploadImage, None))
  {
    ListReachable();
    CreateReachable();
    UploadReachable(seg);
  }

  lemma ListReachable()
    ensures Dispatch(RegisteredRoutes, Get, "/") == Some(Match(ListProducts, None))
  {
    DispatchAt(RegisteredRoutes, Get, "/", 0);
  }

  lemma CreateReachable()
    ensures Dispatch(RegisteredRoutes, Post, "/") == Some(Match(CreateProduct, None))
  {
    DispatchAt(RegisteredRoutes, Post, "/", 2);
  }

  lemma UploadReachable(seg: string)
    requires seg != [] && '/' !in seg && EqualIgnoringCase(seg, UploadSegment)
    ensures Dispatch(RegisteredRoutes, Post, "/" + seg) == Some(Match(UploadImage, None))
  {
    var path := "/" + seg;
    SingleSegmentOf(seg);
    assert |path| >= 2;
    DispatchAt(RegisteredRoutes, Post, path, 7);
  }
}
