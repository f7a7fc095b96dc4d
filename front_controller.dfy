/** index.php: the front controller. It chooses the CORS origin, answers
    preflight requests, normalises the path and hands it to the routers by
    prefix; a router that does not handle the request falls through to the
    next prefix and finally to 404. The middleware a route runs is given
    its meaning here on top of the two middleware decisions. */
module FrontController {
  import opened Common
  import opened Text
  import opened Validator
  import opened Users
  import opened Routes
  import AuthMiddleware
  import AdminMiddleware

  const DevOrigin := "http://localhost:5173"

  /** The allowed origins: FRONTEND_URL (the Vite dev server when unset),
      the Vite dev server and port 3000. */
  function AllowedOrigins(frontendUrl: Option<string>): (r: seq<string>)
    ensures |r| == 3 && r[0] == frontendUrl.GetOr(DevOrigin) && r[1] == DevOrigin && r[2] == "http://localhost:3000"
  {
    [frontendUrl.GetOr(DevOrigin), DevOrigin, "http://localhost:3000"]
  }

  /** The Access-Control-Allow-Origin value: the request's Origin ('' when
      absent) when loose `in_array` finds it among the allowed origins,
      otherwise the first allowed origin. A refused origin is never
      echoed. */
  function AllowOrigin(origin: Option<string>, frontendUrl: Option<string>): (r: string)
    ensures var o, allowed := origin.GetOr(""), AllowedOrigins(frontendUrl);
      && ((exists i :: 0 <= i < 3 && LooseEquals(o, allowed[i])) ==> r == o)
      && (!(exists i :: 0 <= i < 3 && LooseEquals(o, allowed[i])) ==> r == allowed[0] && r != o)
  {
    var o, allowed := origin.GetOr(""), AllowedOrigins(frontendUrl);
    if exists i :: 0 <= i < 3 && LooseEquals(o, allowed[i]) then o
    else
      assert LooseEquals(allowed[0], allowed[0]);
      allowed[0]
  }

  /** `parse_url($uri, PHP_URL_PATH)` for a request target in origin form:
      everything before the query or the fragment. */
  function PathOf(uri: string): (p: string)
    ensures |p| <= |uri| && p == uri[..|p|]
    ensures '?' !in p && '#' !in p
    ensures |p| < |uri| ==> uri[|p|] == '?' || uri[|p|] == '#'
  {
    if uri == [] || uri[0] == '?' || uri[0] == '#' then []
    else [uri[0]] + PathOf(uri[1..])
  }

  /** Where a request ends up. */
  datatype Target = Preflight | Root | Health | Action(handler: Handler) | NotFound

  /** The middleware run, in order, and where the request ends up once
      they pass. */
  datatype Dispatch = Dispatch(guards: seq<Guard>, target: Target)

  /** The mount points in the order they are tried, with the length
      `substr` cuts off. */
  const Mounts: seq<(string, nat)> := [("/auth", 5), ("/products", 9), ("/categories", 11), ("/orders", 7), ("/dashboard", 10)]

  function Mounted(k: nat, verb: string, sub: string): Routing
    requires k < 5
  {
    if k == 0 then AuthRouting(verb, sub)
    else if k == 1 then ProductRouting(verb, sub)
    else if k == 2 then CategoryRouting(verb, sub)
    else if k == 3 then OrderRouting(verb, sub)
    else DashboardRouting(verb, sub)
  }

  /** The prefix tests from mount `k` on, after the middleware `ran` of
      the routers already tried. */
  function FallThrough(verb: string, path: string, k: nat, ran: seq<Guard>): (d: Dispatch)
    requires k <= 5
    ensures d.target.Action? || d.target.NotFound?
    ensures |d.guards| >= |ran| && d.guards[..|ran|] == ran
    ensures d.target.Action? ==> exists j :: (k <= j < 5 && StartsWith(path, Mounts[j].0)
      && Mounted(j, verb, Substr(path, Mounts[j].1)).handler == Some(d.target.handler))
    ensures (forall j :: k <= j < 5 ==> !StartsWith(path, Mounts[j].0)) ==> d == Dispatch(ran, NotFound)
    decreases 5 - k
  {
    if k == 5 then Dispatch(ran, NotFound)
    else
      var prefix, cut := Mounts[k].0, Mounts[k].1;
      if StartsWith(path, prefix) then
        var r := Mounted(k, verb, Substr(path, cut));
        if r.handler.Some? then Dispatch(ran + r.guards, Action(r.handler.value))
        else
          var d := FallThrough(verb, path, k + 1, ran + r.guards);
          assert d.guards[..|ran|] == (d.guards[..|ran + r.guards|])[..|ran|];
          d
      else FallThrough(verb, path, k + 1, ran)
  }

  /** Routing in index.php: OPTIONS is answered before anything else; then
      every '/api' is deleted from the path, the root and the health check
      are answered, and the mounts are tried in order. */
  function Route(verb: string, uri: string): (d: Dispatch)
    ensures verb == "OPTIONS" ==> d == Dispatch([], Preflight)
    ensures verb != "OPTIONS" && d.target.Preflight? ==> false
    ensures d.target.Root? <==> verb == "GET" && RemoveAll(PathOf(uri), "/api") == "/"
    ensures d.target.Health? <==> verb == "GET" && RemoveAll(PathOf(uri), "/api") == "/health"
  {
    if verb == "OPTIONS" then Dispatch([], Preflight)
    else
      var path := RemoveAll(PathOf(uri), "/api");
      if path == "/" && verb == "GET" then Dispatch([], Root)
      else if path == "/health" && verb == "GET" then Dispatch([], Health)
      else FallThrough(verb, path, 0, [])
  }

  /** Mounts whose prefix does not match are skipped. */
  lemma {:induction false} SkipMounts(verb: string, path: string, i: nat, k: nat, ran: seq<Guard>)
    requires i <= k <= 5
    requires forall j :: i <= j < k ==> !StartsWith(path, Mounts[j].0)
    ensures FallThrough(verb, path, i, ran) == FallThrough(verb, path, k, ran)
    decreases k - i
  {
    if i < k {
      SkipMounts(verb, path, i + 1, k, ran);
    }
  }

  /** The prefixes differ in their second character, so a path reaches at
      most one router: the result is that router's action, or 404 after
      the middleware it ran. */
  lemma OneRouter(verb: string, path: string, k: nat)
    requires k < 5 && StartsWith(path, Mounts[k].0)
    ensures var r := Mounted(k, verb, Substr(path, Mounts[k].1));
      FallThrough(verb, path, 0, []) ==
        if r.handler.Some? then Dispatch(r.guards, Action(r.handler.value)) else Dispatch(r.guards, NotFound)
  {
    forall j | 0 <= j < 5 && j != k
      ensures !StartsWith(path, Mounts[j].0)
    {
      assert Mounts[j].0[1] != Mounts[k].0[1];
    }
    SkipMounts(verb, path, 0, k, []);
  }

  /** Deleting '/api' leaves a leading part without '/' alone. */
  lemma {:induction false} RemoveAllKeeps(p: string, s: string)
    requires '/' !in p
    ensures RemoveAll(p + s, "/api") == p + RemoveAll(s, "/api")
    decreases |p|
  {
    if p == [] {
      assert p + s == s;
    } else {
      var c, rest := p[0], p[1..];
      assert c in p && '/' !in rest;
      assert p + s == [c] + (rest + s) && p == [c] + rest;
      RemoveAllKeeps(rest, s);
      var t := [c] + (rest + s);
      assert |t| >= 4 ==> t[..4][0] == c;
      RemoveAllHead(t, "/api");
      assert ([c] + (rest + s))[1..] == rest + s;
    }
  }

  /** Taking the path part leaves a leading part without '?' or '#'
      alone. */
  lemma {:induction false} PathOfKeeps(p: string, s: string)
    requires '?' !in p && '#' !in p
    ensures PathOf(p + s) == p + PathOf(s)
    decreases |p|
  {
    if p == [] {
      assert p + s == s;
    } else {
      assert (p + s)[0] == p[0] && p[0] in p;
      assert (p + s)[1..] == p[1..] + s;
      PathOfKeeps(p[1..], s);
      assert p == [p[0]] + p[1..];
    }
  }

  /** A '/' not followed by 'a' survives the deletion of '/api'. */
  lemma RemoveAllAfterSlash(q: string)
    requires q != [] && q[0] != 'a'
    ensures RemoveAll("/" + q, "/api") == "/" + RemoveAll(q, "/api")
  {
    var t := "/" + q;
    assert t[1..] == q;
    if |t| >= 4 {
      assert t[..4][1] == q[0];
    } else {
      assert RemoveAll(q, "/api") == q;
    }
  }

  /** A mount point survives the deletion of '/api': none of them
      contains a '/' past the first, nor has 'a' second. */
  lemma RemoveAllKeepsMount(prefix: string, s: string)
    requires |prefix| >= 2 && prefix[0] == '/' && prefix[1] != 'a' && '/' !in prefix[1..]
    ensures RemoveAll(prefix + s, "/api") == prefix + RemoveAll(s, "/api")
  {
    var tail := prefix[1..];
    var q := tail + s;
    assert prefix == "/" + tail;
    assert prefix + s == "/" + q;
    assert q[0] == prefix[1];
    RemoveAllAfterSlash(q);
    RemoveAllKeeps(tail, s);
    assert RemoveAll(prefix + s, "/api") == "/" + RemoveAll(q, "/api");
    assert "/" + (tail + RemoveAll(s, "/api")) == prefix + RemoveAll(s, "/api");
  }

  /** The normalised path of a request under a mount point keeps the
      mount point. */
  lemma MountPath(prefix: string, sub: string)
    requires |prefix| >= 2 && prefix[0] == '/' && prefix[1] != 'a' && '/' !in prefix[1..]
    requires '?' !in prefix && '#' !in prefix
    ensures RemoveAll(PathOf(prefix + sub), "/api") == prefix + RemoveAll(PathOf(sub), "/api")
  {
    PathOfKeeps(prefix, sub);
    RemoveAllKeepsMount(prefix, PathOf(sub));
  }

  /** Whatever follows '/dashboard', the admin guards run: a dashboard
      request that matches no route is refused before its 404. */
  lemma DashboardGuardsEverything(verb: string, sub: string)
    requires verb != "OPTIONS"
    ensures Route(verb, "/dashboard" + sub).guards == AdminOnly
  {
    assert '/' !in "/dashboard"[1..] && '?' !in "/dashboard" && '#' !in "/dashboard" by {
      assert "/dashboard"[1..] == "dashboard";
    }
    MountPath("/dashboard", sub);
    var path := "/dashboard" + RemoveAll(PathOf(sub), "/api");
    assert |path| >= 10;
    assert Route(verb, "/dashboard" + sub) == FallThrough(verb, path, 0, []);
    assert path[..10] == Mounts[4].0;
    OneRouter(verb, path, 4);
  }

  /** What the middleware of a route decides, given the outcome
      `authenticate` would reach for the request: the first halt wins, and
      `checkAdmin` sees the user that `authenticate` stored. */
  function RunGuards(guards: seq<Guard>, auth: AuthMiddleware.AuthResult, currentUser: Option<Profile>): (g: Gate)
    ensures guards == [] ==> g == Pass
    decreases |guards|
  {
    if guards == [] then Pass
    else if guards[0] == Authenticate then
      match auth
      case Denied(code, message) => Halt(code, message)
      case Authenticated(user) => RunGuards(guards[1..], auth, Some(user))
    else
      match AdminMiddleware.CheckAdmin(currentUser)
      case Halt(code, message) => Halt(code, message)
      case Pass => RunGuards(guards[1..], auth, currentUser)
  }

  /** An admin route passes its middleware iff the token authenticates a
      user whose role is exactly `admin`; otherwise the answer is the
      middleware's 401 or 403. */
  lemma AdminRouteNeedsAdmin(auth: AuthMiddleware.AuthResult, currentUser: Option<Profile>)
    ensures RunGuards(AdminOnly, auth, currentUser) == Pass <==> auth.Authenticated? && auth.user.role == "admin"
    ensures auth.Denied? ==> RunGuards(AdminOnly, auth, currentUser) == Halt(auth.code, auth.message)
    ensures auth.Authenticated? && auth.user.role != "admin" ==>
      RunGuards(AdminOnly, auth, currentUser) == Halt(403, "Access denied. Admin privileges required")
  {
    assert AdminOnly[1..] == [CheckAdmin];
  }

  /** Both dev origins are echoed, whatever FRONTEND_URL says. */
  lemma DevOriginsEchoed(frontendUrl: Option<string>)
    ensures AllowOrigin(Some("http://localhost:3000"), frontendUrl) == "http://localhost:3000"
    ensures AllowOrigin(Some(DevOrigin), frontendUrl) == DevOrigin
  {
    assert LooseEquals("http://localhost:3000", AllowedOrigins(frontendUrl)[2]);
    assert LooseEquals(DevOrigin, AllowedOrigins(frontendUrl)[1]);
  }

  /** A request under '/api' is routed as the same request without it. */
  lemma LeadingApiIgnored(sub: string)
    ensures RemoveAll(PathOf("/api" + sub), "/api") == RemoveAll(PathOf(sub), "/api")
  {
    PathOfKeeps("/api", sub);
    RemoveAllPrefix(PathOf(sub), "/api");
  }

  /** Every '/api' is deleted, not only the leading one: one right after a
      mount point goes too. */
  lemma ApiDeletedAfterMount(prefix: string, s: string)
    requires |prefix| >= 2 && prefix[0] == '/' && prefix[1] != 'a' && '/' !in prefix[1..]
    ensures RemoveAll(prefix + "/api" + s, "/api") == prefix + RemoveAll(s, "/api")
  {
    assert prefix + "/api" + s == prefix + ("/api" + s);
    RemoveAllKeepsMount(prefix, "/api" + s);
    RemoveAllPrefix(s, "/api");
  }
}
