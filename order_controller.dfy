/** controllers/OrderController.php: the order endpoints. The validation
    of `create` is a pure decision; the handlers then call the stateful
    order model. Orders are answered with their id as a string in place
    of `_id`. */
module OrderApi {
  import opened Common
  import opened Validator
  import opened Products
  import opened Orders

  /** An order as the API returns it: `_id` replaced by its string `id`. */
  datatype OrderView = OrderView(id: Id, order: Order)

  /** One entry of the body's `items` array read as an order line: an
      object with a string `productId`, an integer `quantity` and, when
      present and not null, a string `size`. */
  function LineOf(j: Json): (r: Option<LineRequest>)
    ensures r.Some? ==> j.JObj? && "productId" in j.fields && j.fields["productId"] == JStr(r.value.productId)
    ensures r.Some? ==> "quantity" in j.fields && j.fields["quantity"] == JNum(r.value.quantity)
    ensures r.Some? ==> (r.value.size.None? <==> !IsSet(j.fields, "size"))
  {
    match j
    case JObj(f) =>
      if "productId" in f && f["productId"].JStr? && "quantity" in f && f["quantity"].JNum?
         && (!IsSet(f, "size") || f["size"].JStr?)
      then Some(LineRequest(f["productId"].s, f["quantity"].n, if IsSet(f, "size") then Some(f["size"].s) else None))
      else None
    case _ => None
  }

  /** The lines of an `items` array, when every entry is a line object. */
  function LinesOf(elems: seq<Json>): (r: Option<seq<LineRequest>>)
    ensures r.Some? <==> forall i :: 0 <= i < |elems| ==> LineOf(elems[i]).Some?
    ensures r.Some? ==> |r.value| == |elems| && forall i :: 0 <= i < |elems| ==> r.value[i] == LineOf(elems[i]).value
  {
    if elems == [] then Some([])
    else
      var head, tail := LineOf(elems[0]), LinesOf(elems[1..]);
      if head.Some? && tail.Some? then Some([head.value] + tail.value) else None
  }

  /** The modelled bodies: an `items` array consists of line objects. */
  predicate WellFormedItems(data: Body) {
    Field(data, "items").JArr? ==> LinesOf(Field(data, "items").elems).Some?
  }

  const OrderFields: seq<string> := ["customerName", "customerEmail", "items"]

  /** The checks of `create`, in order: the required fields (400 with the
      field map), the e-mail format, a non-empty `items` array. When all
      pass, the order data handed to the model: the sanitised customer
      fields, phone and address defaulting to '', and the items as given. */
  function CreateCheck(data: Body, rt: Runtime): (r: Result<OrderRequest, Response<OrderView>>)
    requires WellFormedItems(data)
    ensures RequiredErrors(data, OrderFields) != map[] ==>
      r == Err(Response(400, "Validation failed", RequiredErrors(data, OrderFields), None))
    ensures RequiredErrors(data, OrderFields) == map[] && !rt.isEmail(AsText(Field(data, "customerEmail"))) ==>
      r == Err(Fail(400, "Invalid email format"))
    ensures r.Ok? <==> && RequiredErrors(data, OrderFields) == map[]
                       && rt.isEmail(AsText(Field(data, "customerEmail")))
                       && Field(data, "items").JArr? && Field(data, "items").elems != []
    ensures r.Err? && r.error.code == 400 && r.error.message == "Order must contain at least one item" ==>
      RequiredErrors(data, OrderFields) == map[] && rt.isEmail(AsText(Field(data, "customerEmail")))
    ensures r.Ok? ==>
      && r.value.customerName == rt.sanitize(AsText(Field(data, "customerName")))
      && r.value.customerEmail == rt.sanitize(AsText(Field(data, "customerEmail")))
      && r.value.customerPhone == Some(if IsSet(data, "customerPhone") then rt.sanitize(AsText(Field(data, "customerPhone"))) else "")
      && r.value.customerAddress == Some(if IsSet(data, "customerAddress") then rt.sanitize(AsText(Field(data, "customerAddress"))) else "")
      && r.value.items == LinesOf(Field(data, "items").elems).value
    ensures r.Err? ==> r.error.code == 400 && r.error.data.None?
  {
    var errors := RequiredErrors(data, OrderFields);
    if errors != map[] then Err(Response(400, "Validation failed", errors, None))
    else
      assert !Missing(data, "customerEmail") && !Missing(data, "items") by {
        assert "customerEmail" in OrderFields && "items" in OrderFields;
      }
      match ValidateEmail(AsText(Field(data, "customerEmail")), rt)
      case Some(message) => Err(Fail(400, message))
      case None =>
        var items := Field(data, "items");
        if !items.JArr? || items.elems == [] then Err(Fail(400, "Order must contain at least one item"))
        else
          assert !Missing(data, "customerName") by { assert "customerName" in OrderFields; }
          Ok(OrderRequest(
            rt.sanitize(AsText(Field(data, "customerName"))),
            rt.sanitize(AsText(Field(data, "customerEmail"))),
            Some(if IsSet(data, "customerPhone") then rt.sanitize(AsText(Field(data, "customerPhone"))) else ""),
            Some(if IsSet(data, "customerAddress") then rt.sanitize(AsText(Field(data, "customerAddress"))) else ""),
            LinesOf(items.elems).value))
  }

  /** `create` as written: `validateRequired` trims `items`, so a body
      whose `items` (or another required field) is an array or an object
      ends in a 500 before any check can answer; otherwise the checks of
      `CreateCheck`. */
  function CreateCheckAsWritten(data: Body, rt: Runtime): (r: Result<OrderRequest, Response<OrderView>>)
    requires WellFormedItems(data)
    ensures RequiredCheck(data, OrderFields).None? ==> r == Err(Fail(500, "Internal server error"))
    ensures RequiredCheck(data, OrderFields).Some? ==> r == CreateCheck(data, rt)
  {
    if RequiredCheck(data, OrderFields).None? then Err(Fail(500, "Internal server error"))
    else CreateCheck(data, rt)
  }

  /** As written, no order can be placed: a body with an `items` array is
      answered 500, and any other body fails a check. */
  lemma NoOrderAsWritten(data: Body, rt: Runtime)
    requires WellFormedItems(data)
    ensures CreateCheckAsWritten(data, rt).Err?
    ensures Field(data, "items").JArr? ==> CreateCheckAsWritten(data, rt) == Err(Fail(500, "Internal server error"))
  {
    if Field(data, "items").JArr? {
      assert "items" in OrderFields && Untrimmable(data, "items");
    }
  }

  /** An empty `items` list is a missing required field: the answer is
      the field map with "Items is required", before the e-mail or the
      item check. */
  lemma EmptyItemsRequired(data: Body, rt: Runtime)
    requires "items" in data && data["items"] == JArr([])
    requires !Missing(data, "customerName") && !Missing(data, "customerEmail")
    ensures CreateCheck(data, rt) == Err(Response(400, "Validation failed", map["items" := "Items is required"], None))
  {
    var e := RequiredErrors(data, OrderFields);
    assert "items" in e;
    assert e.Keys == {"items"};
    assert Required("items") == "Items is required";
    assert e == map["items" := "Items is required"];
  }

  /** An order body whose three required fields are missing gets all three
      reported, before the e-mail or the items are looked at. */
  lemma EmptyBodyReportsAll(rt: Runtime)
    ensures var e := RequiredErrors(map[], OrderFields);
      && CreateCheck(map[], rt) == Err(Response(400, "Validation failed", e, None))
      && e.Keys == {"customerName", "customerEmail", "items"}
  {
    var e := RequiredErrors(map[], OrderFields);
    assert "customerName" in e && "customerEmail" in e && "items" in e;
  }

  class OrderController {
    const model: OrderModel

    constructor (model: OrderModel)
      ensures this.model == model
    {
      this.model := model;
    }

    /** `getById`: 404 "Order not found", or the order with its id. */
    function GetById(id: string): (r: Response<OrderView>)
      reads this, model
      ensures r.code == 200 <==> ValidObjectId(id) && Canonical(id) in model.orders
      ensures r.code != 200 ==> r == Fail(404, "Order not found")
      ensures r.code == 200 ==> r.data == Some(OrderView(Canonical(id), model.orders[Canonical(id)]))
    {
      match model.FindById(id)
      case None => Fail(404, "Order not found")
      case Some(o) => Response(200, "", map[], Some(OrderView(Canonical(id), o)))
    }

    /** `create`: a failed check answers before the model is touched; an
        exception of `Order::create` (an unknown product, too little stock)
        answers 400 with its message, keeping the stock decrements of the
        lines before it; success answers 201 with the stored order. */
    method Create(data: Body, newId: Id, now: int, rt: Runtime) returns (r: Response<OrderView>)
      requires WellFormedItems(data)
      requires model.Valid() && model.catalog.Valid() && LowerId(newId) && newId !in model.orders
      modifies model, model.catalog
      ensures model.Valid() && model.catalog.Valid()
      ensures CreateCheck(data, rt).Err? ==>
        && r == CreateCheck(data, rt).error
        && model.orders == old(model.orders) && model.catalog.products == old(model.catalog.products)
      ensures CreateCheck(data, rt).Ok? ==>
        var d := CreateCheck(data, rt).value;
        var run := Place(old(model.catalog.products), d.items);
        && model.catalog.products == run.products
        && (run.failure.Some? ==> r == Fail(400, run.failure.value) && model.orders == old(model.orders))
        && (run.failure.None? ==>
              var order := Order(d.customerName, d.customerEmail, d.customerPhone.GetOr(""), d.customerAddress.GetOr(""),
                                 run.lines, run.total, "pending", now, now);
              && model.orders == old(model.orders)[newId := order]
              && r == Response(201, "Order created successfully", map[], Some(OrderView(newId, order))))
    {
      var check := CreateCheck(data, rt);
      if check.Err? {
        return check.error;
      }
      var result := model.Create(check.value, newId, now);
      match result
      case Err(message) =>
        r := Fail(400, message);
      case Ok(order) =>
        r := Response(201, "Order created successfully", map[], Some(OrderView(newId, order)));
    }

    /** `updateStatus`: 404 for an unknown order before the body is read,
        then 400 "Status is required", then the model's "Invalid status" as
        400, else 200 with the re-read order. */
    method UpdateStatus(id: string, data: Body, now: int) returns (r: Response<OrderView>)
      requires model.Valid()
      requires IsSet(data, "status") ==> data["status"].JStr?
      modifies model
      ensures model.Valid()
      ensures !(ValidObjectId(id) && Canonical(id) in old(model.orders)) ==>
        r == Fail(404, "Order not found") && model.orders == old(model.orders)
      ensures ValidObjectId(id) && Canonical(id) in old(model.orders) && !IsSet(data, "status") ==>
        r == Fail(400, "Status is required") && model.orders == old(model.orders)
      ensures ValidObjectId(id) && Canonical(id) in old(model.orders) && IsSet(data, "status") ==>
        var status := data["status"].s;
        && (status !in Statuses ==> r == Fail(400, "Invalid status") && model.orders == old(model.orders))
        && (status in Statuses ==>
              && model.orders == old(model.orders)[Canonical(id) := old(model.orders)[Canonical(id)].(status := status, updatedAt := now)]
              && r == Response(200, "Order status updated successfully", map[], Some(OrderView(Canonical(id), model.orders[Canonical(id)]))))
    {
      if model.FindById(id).None? {
        return Fail(404, "Order not found");
      }
      if !IsSet(data, "status") {
        return Fail(400, "Status is required");
      }
      var result := model.UpdateStatus(id, data["status"].s, now);
      if result.Err? {
        return Fail(400, result.error);
      }
      var updated := model.FindById(id);
      r := Response(200, "Order status updated successfully", map[], Some(OrderView(Canonical(id), updated.value)));
    }

    /** `delete`: 404 for an unknown order, otherwise removal and 200. */
    method Delete(id: string) returns (r: Response<OrderView>)
      requires model.Valid()
      modifies model
      ensures model.Valid()
      ensures !(ValidObjectId(id) && Canonical(id) in old(model.orders)) ==>
        r == Fail(404, "Order not found") && model.orders == old(model.orders)
      ensures ValidObjectId(id) && Canonical(id) in old(model.orders) ==>
        r == Response(200, "Order deleted successfully", map[], None) && model.orders == old(model.orders) - {Canonical(id)}
    {
      if model.FindById(id).None? {
        return Fail(404, "Order not found");
      }
      var _ := model.Delete(id);
      r := Response(200, "Order deleted successfully", map[], None);
    }
  }
}
