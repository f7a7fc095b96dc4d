/** The five routers under routes/. Each `handle($method, $path)` is an
    ordered chain of (verb, path) tests; the first that matches runs its
    middleware and calls the controller, and `handle` answers true. Here a
    router is a function from the method and the path below its mount
    point to the middleware it runs and the controller action it calls. */
module Routes {
  import opened Common

  /** `AuthMiddleware::authenticate()` and `AdminMiddleware::checkAdmin()`. */
  datatype Guard = Authenticate | CheckAdmin

  /** The pair every admin route runs, authentication first. */
  const AdminOnly: seq<Guard> := [Authenticate, CheckAdmin]

  /** The controller actions the routers call, with the captured id. */
  datatype Handler =
    | ListProducts | GetProduct(id: Id) | CreateProduct | UpdateProduct(id: Id) | DeleteProduct(id: Id) | UploadImage
    | ListOrders | OrderStats | GetOrder(id: Id) | CreateOrder | UpdateOrderStatus(id: Id) | DeleteOrder(id: Id)
    | ListCategories | GetCategory(id: Id) | CreateCategory | UpdateCategory(id: Id) | DeleteCategory(id: Id)
    | Login | Logout | Me | Register
    | DashboardStats | DashboardAnalytics

  /** The actions that address one document through an id in the path. */
  predicate HasId(h: Handler) {
    h.GetProduct? || h.UpdateProduct? || h.DeleteProduct? || h.GetOrder? || h.UpdateOrderStatus? || h.DeleteOrder?
    || h.GetCategory? || h.UpdateCategory? || h.DeleteCategory?
  }

  /** The actions that write to the catalog: products and categories. */
  predicate WritesCatalog(h: Handler) {
    h == CreateProduct || h.UpdateProduct? || h.DeleteProduct? || h == UploadImage
    || h == CreateCategory || h.UpdateCategory? || h.DeleteCategory?
  }

  /** What `handle` does: the middleware it runs, in order, and the action
      it calls; `handle` answers true iff there is an action. */
  datatype Routing = Routing(guards: seq<Guard>, handler: Option<Handler>)

  const Unmatched := Routing([], None)

  /** `preg_match('/^\/([a-f0-9]{24})<tail>$/', $path, $m)` and the capture
      `$m[1]`. Without the D modifier PCRE's `$` also matches before a
      final line feed, so one trailing "\n" is accepted. */
  function IdWithTail(path: string, tail: string): (r: Option<Id>)
    ensures r.Some? <==> exists id :: LowerId(id) && (path == "/" + id + tail || path == "/" + id + tail + "\n")
    ensures r.Some? ==> LowerId(r.value) && ValidObjectId(r.value)
    ensures r.Some? ==> path == "/" + r.value + tail || path == "/" + r.value + tail + "\n"
  {
    var n := 25 + |tail|;
    if (|path| == n || (|path| == n + 1 && path[n] == '\n')) && path[0] == '/'
       && LowerId(path[1..25]) && path[25..n] == tail
    then
      assert path[..n] == "/" + path[1..25] + tail;
      assert |path| == n ==> path == path[..n];
      assert |path| == n + 1 ==> path == path[..n] + "\n";
      Some(path[1..25])
    else
      assert forall id :: LowerId(id) && (path == "/" + id + tail || path == "/" + id + tail + "\n") ==>
        path[1..25] == id && path[25..n] == tail;
      None
  }

  /** The `/<id>` segment of the routers. */
  function IdSegment(path: string): Option<Id> {
    IdWithTail(path, "")
  }

  /** The ids the routes accept are exactly the lower-case ObjectIds:
      upper-case hexadecimal, which the ObjectId constructor would take,
      never reaches a controller. */
  lemma UpperCaseIdNotRouted(id: string, i: nat)
    requires ValidObjectId(id) && i < 24 && 'A' <= id[i] <= 'F'
    ensures IdSegment("/" + id) == None
  {
    assert ("/" + id)[1..25] == id;
    assert !IsLowerHex(id[i]);
  }

  /** `routes/ProductRoutes.php`: reads are public; creating, updating,
      deleting and uploading authenticate and then check for an admin. */
  function ProductRouting(verb: string, path: string): (r: Routing)
    ensures r.handler.None? ==> r == Unmatched
    ensures r.handler.Some? ==> (r.guards == AdminOnly <==> verb != "GET") && (r.guards == [] <==> verb == "GET")
    ensures r.handler.Some? ==> (WritesCatalog(r.handler.value) <==> r.guards == AdminOnly)
    ensures r.handler.Some? && HasId(r.handler.value) ==> IdSegment(path) == Some(r.handler.value.id)
    ensures verb == "GET" ==> (r.handler.Some? <==> path == "" || IdSegment(path).Some?)
    ensures verb == "POST" ==> (r.handler.Some? <==> path == "" || path == "/upload")
    ensures verb == "PUT" || verb == "DELETE" ==> (r.handler.Some? <==> IdSegment(path).Some?)
    ensures verb !in {"GET", "POST", "PUT", "DELETE"} ==> r == Unmatched
  {
    var id := IdSegment(path);
    if path == "" && verb == "GET" then Routing([], Some(ListProducts))
    else if id.Some? && verb == "GET" then Routing([], Some(GetProduct(id.value)))
    else if path == "" && verb == "POST" then Routing(AdminOnly, Some(CreateProduct))
    else if id.Some? && verb == "PUT" then Routing(AdminOnly, Some(UpdateProduct(id.value)))
    else if id.Some? && verb == "DELETE" then Routing(AdminOnly, Some(DeleteProduct(id.value)))
    else if path == "/upload" && verb == "POST" then Routing(AdminOnly, Some(UploadImage))
    else Unmatched
  }

  /** `routes/OrderRoutes.php`: placing an order and reading one by id are
      public; listing, statistics, status changes and deletion are for
      admins. */
  function OrderRouting(verb: string, path: string): (r: Routing)
    ensures r.handler.None? ==> r == Unmatched
    ensures r.handler.Some? ==> r.guards == [] || r.guards == AdminOnly
    ensures r.handler.Some? ==> (r.guards == [] <==> r.handler.value.GetOrder? || r.handler.value == CreateOrder)
    ensures r.handler.Some? && HasId(r.handler.value) && !r.handler.value.UpdateOrderStatus? ==>
      IdSegment(path) == Some(r.handler.value.id)
    ensures r.handler.Some? && r.handler.value.UpdateOrderStatus? ==>
      IdWithTail(path, "/status") == Some(r.handler.value.id) && verb == "PATCH"
    ensures verb == "GET" ==> (r.handler.Some? <==> path == "" || path == "/stats" || IdSegment(path).Some?)
    ensures verb == "POST" ==> (r.handler.Some? <==> path == "")
    ensures verb !in {"GET", "POST", "PATCH", "DELETE"} ==> r == Unmatched
  {
    var id := IdSegment(path);
    var statusId := IdWithTail(path, "/status");
    if path == "" && verb == "GET" then Routing(AdminOnly, Some(ListOrders))
    else if path == "/stats" && verb == "GET" then Routing(AdminOnly, Some(OrderStats))
    else if id.Some? && verb == "GET" then Routing([], Some(GetOrder(id.value)))
    else if path == "" && verb == "POST" then Routing([], Some(CreateOrder))
    else if statusId.Some? && verb == "PATCH" then Routing(AdminOnly, Some(UpdateOrderStatus(statusId.value)))
    else if id.Some? && verb == "DELETE" then Routing(AdminOnly, Some(DeleteOrder(id.value)))
    else Unmatched
  }

  /** `routes/CategoryRoutes.php`: reads are public, writes are for
      admins. */
  function CategoryRouting(verb: string, path: string): (r: Routing)
    ensures r.handler.None? ==> r == Unmatched
    ensures r.handler.Some? ==> (r.guards == AdminOnly <==> verb != "GET") && (r.guards == [] <==> verb == "GET")
    ensures r.handler.Some? ==> (WritesCatalog(r.handler.value) <==> r.guards == AdminOnly)
    ensures r.handler.Some? && HasId(r.handler.value) ==> IdSegment(path) == Some(r.handler.value.id)
    ensures verb == "GET" ==> (r.handler.Some? <==> path == "" || IdSegment(path).Some?)
    ensures verb == "POST" ==> (r.handler.Some? <==> path == "")
    ensures verb == "PUT" || verb == "DELETE" ==> (r.handler.Some? <==> IdSegment(path).Some?)
    ensures verb !in {"GET", "POST", "PUT", "DELETE"} ==> r == Unmatched
  {
    var id := IdSegment(path);
    if path == "" && verb == "GET" then Routing([], Some(ListCategories))
    else if id.Some? && verb == "GET" then Routing([], Some(GetCategory(id.value)))
    else if path == "" && verb == "POST" then Routing(AdminOnly, Some(CreateCategory))
    else if id.Some? && verb == "PUT" then Routing(AdminOnly, Some(UpdateCategory(id.value)))
    else if id.Some? && verb == "DELETE" then Routing(AdminOnly, Some(DeleteCategory(id.value)))
    else Unmatched
  }

  /** `routes/AuthRoutes.php`: login and registration are open; logout and
      `me` authenticate but never check for an admin. */
  function AuthRouting(verb: string, path: string): (r: Routing)
    ensures r.handler.None? ==> r == Unmatched
    ensures CheckAdmin !in r.guards
    ensures r.guards == [Authenticate] <==> r.handler == Some(Logout) || r.handler == Some(Me)
    ensures r.guards == [] <==> r.handler != Some(Logout) && r.handler != Some(Me)
    ensures r.handler.Some? <==> (verb, path) in {("POST", "/login"), ("POST", "/logout"), ("GET", "/me"), ("POST", "/register")}
  {
    if path == "/login" && verb == "POST" then Routing([], Some(Login))
    else if path == "/logout" && verb == "POST" then Routing([Authenticate], Some(Logout))
    else if path == "/me" && verb == "GET" then Routing([Authenticate], Some(Me))
    else if path == "/register" && verb == "POST" then Routing([], Some(Register))
    else Unmatched
  }

  /** `routes/DashboardRoutes.php`: the admin guards run before any path
      is looked at, so an unmatched dashboard request still needs an
      admin. */
  function DashboardRouting(verb: string, path: string): (r: Routing)
    ensures r.guards == AdminOnly
    ensures r.handler.Some? <==> verb == "GET" && (path == "/stats" || path == "/analytics")
    ensures r.handler == Some(DashboardStats) <==> verb == "GET" && path == "/stats"
  {
    var h := if path == "/stats" && verb == "GET" then Some(DashboardStats)
             else if path == "/analytics" && verb == "GET" then Some(DashboardAnalytics)
             else None;
    Routing(AdminOnly, h)
  }
}
