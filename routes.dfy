/** The client's route table and its global navigation guard. The guard
    reads the matched route's meta flags, the authentication flag, the
    target path and its `redirect` query, and makes exactly one decision. */
module Routes {
  import opened Common

  /** The meta flags the guard reads; an absent flag is false. Titles and
      layouts are left out. */
  datatype Meta = Meta(requiresAuth: bool, guestOnly: bool)

  /** A path pattern segment: fixed text, or a `:param` matching any
      non-empty segment. */
  datatype Segment = Literal(text: string) | Param(name: string)

  datatype Route = Route(path: string, pattern: seq<Segment>, meta: Meta)

  /** The five active routes; the shared-conversation route stays commented
      out in the source and is absent here. */
  const RouteTable: seq<Route> := [
    Route("/", [], Meta(false, false)),
    Route("/login", [Literal("login")], Meta(false, true)),
    Route("/register", [Literal("register")], Meta(false, true)),
    Route("/profile", [Literal("profile")], Meta(true, false)),
    Route("/chat", [Literal("chat")], Meta(true, false)),
    Route("/chat/:id", [Literal("chat"), Param("id")], Meta(true, false))
  ]

  /** The meta of a navigation that matches no route. */
  const NoMeta: Meta := Meta(false, false)

  /** Only the login and registration pages are for guests. */
  lemma GuestOnlyRoutes()
    ensures forall x :: x in RouteTable ==> (x.meta.guestOnly <==> x.path == "/login" || x.path == "/register")
  {
  }

  /** The profile and chat pages need a session, and no route is both for
      guests and for signed-in users. */
  lemma ProtectedRoutes()
    ensures forall x :: x in RouteTable ==>
      (x.meta.requiresAuth <==> x.path == "/profile" || x.path == "/chat" || x.path == "/chat/:id")
    ensures forall x :: x in RouteTable ==> !(x.meta.requiresAuth && x.meta.guestOnly)
  {
  }

  /** No route has more than two segments, and the shared-conversation page
      has no route. */
  lemma RouteTableShape()
    ensures forall x :: x in RouteTable ==> |x.pattern| <= 2
    ensures forall x :: x in RouteTable ==> x.path != "/shared/:shareLink"
  {
  }

  // ------------------------------------------------------------ matching

  /** `s.split('/')`. */
  function Split(s: string): (r: seq<string>)
    ensures |r| >= 1
  {
    if s == [] then [""]
    else
      var rest := Split(s[1..]);
      if s[0] == '/' then [""] + rest else [[s[0]] + rest[0]] + rest[1..]
  }

  /** The segments of an absolute path; one trailing slash is ignored, as
      the router does in its default non-strict mode. */
  function Segments(path: string): seq<string>
  {
    var parts := Split(if |path| > 0 && path[0] == '/' then path[1..] else path);
    if parts[|parts| - 1] == "" then parts[..|parts| - 1] else parts
  }

  /** Literal segments compare without regard to ASCII case (the router's
      default); a parameter takes any non-empty segment. */
  predicate SegmentsMatch(pattern: seq<Segment>, segs: seq<string>)
  {
    && |pattern| == |segs|
    && forall k :: 0 <= k < |segs| ==>
      match pattern[k]
      case Literal(t) => ToLower(segs[k]) == ToLower(t)
      case Param(_) => segs[k] != ""
  }

  function ResolveIn(rs: seq<Route>, segs: seq<string>): (r: Option<Route>)
    ensures r.Some? ==> r.value in rs && SegmentsMatch(r.value.pattern, segs)
    ensures r.None? ==> forall x :: x in rs ==> !SegmentsMatch(x.pattern, segs)
  {
    if rs == [] then None
    else if SegmentsMatch(rs[0].pattern, segs) then Some(rs[0])
    else ResolveIn(rs[1..], segs)
  }

  /** `to.meta` for a target path: the matched route's meta, or no flags. */
  function MetaOf(path: string): Meta
  {
    match ResolveIn(RouteTable, Segments(path))
    case None => NoMeta
    case Some(x) => x.meta
  }

  // --------------------------------------------------------------- guard

  /** One call of `next`: go on, or go to `path` with an optional
      `redirect` query. */
  datatype Navigation = Proceed | Redirect(path: string, redirectQuery: Option<string>)

  /** The `beforeEach` decision. The session check comes first; a visitor
      without a session is sent to the login page, carrying the full target
      only for a shared-conversation path. A signed-in user on a guest page
      goes to the `redirect` query when it is truthy, else home. */
  function BeforeEach(meta: Meta, isAuthenticated: bool, path: string, fullPath: string, redirect: Option<string>): (n: Navigation)
    ensures meta.requiresAuth && !isAuthenticated ==>
      n == Redirect("/login", if IsPrefix("/chat/shared/", path) then Some(fullPath) else None)
    ensures !(meta.requiresAuth && !isAuthenticated) && meta.guestOnly && isAuthenticated ==>
      n == Redirect(if Truthy(redirect) then redirect.value else "/", None)
    ensures n == Proceed <==> !(meta.requiresAuth && !isAuthenticated) && !(meta.guestOnly && isAuthenticated)
  {
    if meta.requiresAuth && !isAuthenticated then
      if IsPrefix("/chat/shared/", path) then Redirect("/login", Some(fullPath))
      else Redirect("/login", None)
    else if meta.guestOnly && isAuthenticated then
      if Truthy(redirect) then Redirect(redirect.value, None) else Redirect("/", None)
    else Proceed
  }

  /** The guard applied to a concrete target. */
  function Navigate(path: string, fullPath: string, isAuthenticated: bool, redirect: Option<string>): Navigation
  {
    BeforeEach(MetaOf(path), isAuthenticated, path, fullPath, redirect)
  }

  /** A visitor without a session never reaches a protected route, and the
      only place the guard sends such a visitor is the login page. */
  lemma GuardSeparatesAudiences(path: string, fullPath: string, redirect: Option<string>)
    ensures MetaOf(path).requiresAuth ==> Navigate(path, fullPath, false, redirect).Redirect?
    ensures Navigate(path, fullPath, false, redirect).Redirect? ==> Navigate(path, fullPath, false, redirect).path == "/login"
  {
  }

  lemma {:induction false} SplitNoSlash(t: string)
    requires '/' !in t
    ensures Split(t) == [t]
  {
    if t != [] {
      SplitNoSlash(t[1..]);
      assert [t[0]] + t[1..] == t;
    }
  }

  lemma {:induction false} SplitAtSlash(a: string, b: string)
    requires '/' !in a
    ensures Split(a + "/" + b) == [a] + Split(b)
  {
    if a == [] {
      assert a + "/" + b == "/" + b;
      assert ("/" + b)[1..] == b;
    } else {
      SplitAtSlash(a[1..], b);
      assert (a + "/" + b)[1..] == a[1..] + "/" + b;
      assert [a[0]] + a[1..] == a;
    }
  }

  /** The segments of `/chat/shared/<token>` for a one-segment token. */
  lemma SharedLinkSegments(token: string)
    requires token != "" && '/' !in token
    ensures Segments("/chat/shared/" + token) == ["chat", "shared", token]
  {
    var path := "/chat/shared/" + token;
    assert path[1..] == "chat" + "/" + ("shared" + "/" + token);
    SplitAtSlash("chat", "shared" + "/" + token);
    SplitAtSlash("shared", token);
    SplitNoSlash(token);
  }

  /** No route has three segments. */
  lemma ThreeSegmentsMatchNothing(segs: seq<string>)
    requires |segs| == 3
    ensures ResolveIn(RouteTable, segs).None?
  {
    RouteTableShape();
  }

  /** A shared-conversation link `/chat/shared/<token>` has three segments
      and matches no route, so its meta carries no flag and the guard lets
      every visitor through, signed in or not. */
  lemma SharedLinksMatchNoRoute(token: string, fullPath: string, isAuthenticated: bool, redirect: Option<string>)
    requires token != "" && '/' !in token
    ensures MetaOf("/chat/shared/" + token) == NoMeta
    ensures Navigate("/chat/shared/" + token, fullPath, isAuthenticated, redirect) == Proceed
  {
    SharedLinkSegments(token);
    ThreeSegmentsMatchNothing(["chat", "shared", token]);
  }

  /** Routes with another number of segments are passed over in order. */
  lemma {:induction false} ResolveSkips(rs: seq<Route>, n: nat, segs: seq<string>)
    requires n <= |rs|
    requires forall k :: 0 <= k < n ==> |rs[k].pattern| != |segs|
    ensures ResolveIn(rs, segs) == ResolveIn(rs[n..], segs)
  {
    if n > 0 {
      ResolveSkips(rs[1..], n - 1, segs);
      assert rs[1..][n - 1..] == rs[n..];
    }
  }

  /** Only the last route has two segments. */
  lemma RouteTableShapes()
    ensures |RouteTable| == 6
    ensures forall k :: 0 <= k < 5 ==> |RouteTable[k].pattern| < 2
    ensures RouteTable[5].pattern == [Literal("chat"), Param("id")]
  {
  }

  /** The first route that matches is the one resolved. */
  lemma ResolveFirstMatch(rs: seq<Route>, n: nat, segs: seq<string>)
    requires n < |rs|
    requires forall k :: 0 <= k < n ==> |rs[k].pattern| != |segs|
    requires SegmentsMatch(rs[n].pattern, segs)
    ensures ResolveIn(rs, segs) == Some(rs[n])
  {
    ResolveSkips(rs, n, segs);
    assert rs[n..][0] == rs[n];
  }

  lemma ChatIdMatches(segs: seq<string>)
    requires |segs| == 2 && segs[0] == "chat" && segs[1] != ""
    ensures SegmentsMatch([Literal("chat"), Param("id")], segs)
  {
  }

  /** A two-segment path under `chat` resolves to `/chat/:id`. */
  lemma ChatIdResolves(segs: seq<string>)
    requires |segs| == 2 && segs[0] == "chat" && segs[1] != ""
    ensures ResolveIn(RouteTable, segs) == Some(RouteTable[5])
  {
    RouteTableShapes();
    ChatIdMatches(segs);
    ResolveFirstMatch(RouteTable, 5, segs);
  }

  /** A two-segment path with a trailing slash. */
  lemma TwoSegmentsTrailingSlash(a: string, b: string)
    requires '/' !in a && '/' !in b
    ensures Segments("/" + a + "/" + b + "/") == [a, b]
  {
    var path := "/" + a + "/" + b + "/";
    assert path[1..] == a + "/" + (b + "/" + "");
    SplitAtSlash(a, b + "/" + "");
    SplitAtSlash(b, "");
  }

  lemma BareSharedPathSegments()
    ensures Segments("/chat/shared/") == ["chat", "shared"]
  {
    TwoSegmentsTrailingSlash("chat", "shared");
    assert "/" + "chat" + "/" + "shared" + "/" == "/chat/shared/";
  }

  /** The redirect-with-target branch for shared links is reached only by
      the bare path `/chat/shared/`, which the router reads as `/chat/:id`
      with id `shared`. */
  lemma BareSharedPathRedirects(fullPath: string, redirect: Option<string>)
    ensures Navigate("/chat/shared/", fullPath, false, redirect) == Redirect("/login", Some(fullPath))
  {
    BareSharedPathSegments();
    ChatIdResolves(["chat", "shared"]);
    assert IsPrefix("/chat/shared/", "/chat/shared/");
  }
}
