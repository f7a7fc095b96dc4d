/** models/Order.php: placing orders against the product catalog, and the
    order collection's status update, deletion, lookup and pagination. */
module Orders {
  import opened Common
  import opened Products
  import Paging

  /** One stored order line: the product's name, price and image as they
      were when the line was placed. `image` and `size` are None where the
      stored value is null. */
  datatype OrderLine = OrderLine(
    productId: string,
    productName: string,
    quantity: int,
    price: int,
    image: Option<string>,
    size: Option<string>)

  datatype Order = Order(
    customerName: string,
    customerEmail: string,
    customerPhone: string,
    customerAddress: string,
    items: seq<OrderLine>,
    total: int,
    status: string,
    createdAt: int,
    updatedAt: int)

  /** One entry of `$data['items']`: a product id, a quantity (which the
      code never requires to be positive) and an optional size. */
  datatype LineRequest = LineRequest(productId: string, quantity: int, size: Option<string>)

  /** The `$data` handed to `Order::create`; None marks a key that is not set. */
  datatype OrderRequest = OrderRequest(
    customerName: string,
    customerEmail: string,
    customerPhone: Option<string>,
    customerAddress: Option<string>,
    items: seq<LineRequest>)

  /** The image an order line records: the first of `images` when there is
      one, otherwise the legacy `image` field, otherwise null. */
  function LineImage(p: Product): (r: Option<string>)
    ensures |p.images| > 0 ==> r == Some(p.images[0])
    ensures |p.images| == 0 ==> r == p.image
  {
    if |p.images| > 0 then Some(p.images[0]) else p.image
  }

  /** The image an order line records as the code runs: the client reads
      documents with the driver's default type map, which gives `images`
      as a BSON array object, so `is_array` is false and the legacy `image`
      field (or null) is always taken. */
  function LineImageAsWritten(p: Product): (r: Option<string>)
    ensures r == p.image
  {
    p.image
  }

  /** The two rules agree exactly on products without `images` or whose
      first image is also the legacy `image`. */
  lemma LineImageAsWrittenAgrees(p: Product)
    ensures LineImageAsWritten(p) == LineImage(p) <==> |p.images| == 0 || p.image == Some(p.images[0])
  {
  }

  /** A product with `images` ["a.jpg"] and an empty `image` records ""
      as written, and "a.jpg" by the intended rule. */
  lemma LineImageAsWrittenDiffers(p: Product)
    requires p.images == ["a.jpg"] && p.image == Some("")
    ensures LineImageAsWritten(p) == Some("") && LineImage(p) == Some("a.jpg")
  {
  }

  /** The line stored for `item` once its product `p` has been found. */
  function Snapshot(item: LineRequest, p: Product): OrderLine {
    OrderLine(item.productId, p.name, item.quantity, p.price, LineImage(p), item.size)
  }

  /** The outcome of running the lines of an order from left to right:
      the catalog afterwards, the lines and total accumulated, and the
      exception message of the first line that failed, if any. */
  datatype Placement = Placement(products: map<Id, Product>, lines: seq<OrderLine>, total: int, failure: Option<string>)

  /** The loop of `Order::create`: each line looks its product up, is
      refused if the product is missing or has less stock than requested,
      and otherwise is snapshotted, added to the total and decrements the
      stock through `updateStock` before the next line is looked at. */
  function Place(products: map<Id, Product>, items: seq<LineRequest>): Placement
    decreases |items|
  {
    if items == [] then Placement(products, [], 0, None)
    else
      var item := items[0];
      match Find(products, item.productId)
      case None => Placement(products, [], 0, Some("Product not found: " + item.productId))
      case Some(p) =>
        if p.stock < item.quantity then
          Placement(products, [], 0, Some("Insufficient stock for product: " + p.name))
        else
          var rest := Place(StockUpdated(products, item.productId, item.quantity), items[1..]);
          Placement(rest.products, [Snapshot(item, p)] + rest.lines,
                    p.price * item.quantity + rest.total, rest.failure)
  }

  /** A placement `r` of later lines, preceded by the lines and total of
      earlier ones. */
  function Extend(lines: seq<OrderLine>, total: int, r: Placement): Placement {
    Placement(r.products, lines + r.lines, total + r.total, r.failure)
  }

  /** The sum of price × quantity over order lines. */
  function Subtotal(lines: seq<OrderLine>): int {
    if lines == [] then 0 else lines[0].price * lines[0].quantity + Subtotal(lines[1..])
  }

  lemma SubtotalCons(l: OrderLine, lines: seq<OrderLine>)
    ensures Subtotal([l] + lines) == l.price * l.quantity + Subtotal(lines)
  {
    assert ([l] + lines)[1..] == lines;
  }

  /** The stored total is the sum of price × quantity over the stored lines,
      and a successful placement stores one line per requested line, in
      order, with its product id, quantity and size. */
  lemma {:induction false} PlaceTotalAndLines(products: map<Id, Product>, items: seq<LineRequest>)
    ensures var r := Place(products, items);
      r.failure.None? ==>
        && r.total == Subtotal(r.lines)
        && |r.lines| == |items|
        && forall k :: 0 <= k < |items| ==>
             r.lines[k].productId == items[k].productId
             && r.lines[k].quantity == items[k].quantity
             && r.lines[k].size == items[k].size
    decreases |items|
  {
    if items != [] {
      var item := items[0];
      if Find(products, item.productId).Some? {
        var p := products[Canonical(item.productId)];
        if p.stock >= item.quantity {
          var next := StockUpdated(products, item.productId, item.quantity);
          PlaceTotalAndLines(next, items[1..]);
          SubtotalCons(Snapshot(item, p), Place(next, items[1..]).lines);
        }
      }
    }
  }

  /** Decrementing stock changes neither the set of products nor any
      product's name, price or images, so it changes no snapshot. */
  lemma StockUpdatePreservesSnapshots(products: map<Id, Product>, id: string, quantity: int, item: LineRequest)
    ensures var next := StockUpdated(products, id, quantity);
      && next.Keys == products.Keys
      && forall k :: k in products ==> Snapshot(item, next[k]) == Snapshot(item, products[k])
  {
  }

  /** Each stored line carries the name, price and image of its product as
      found in the catalog before the order was placed. */
  lemma {:induction false} PlaceSnapshots(products: map<Id, Product>, items: seq<LineRequest>)
    ensures var r := Place(products, items);
      r.failure.None? ==>
        && |r.lines| == |items|
        && forall k :: 0 <= k < |items| ==>
             Canonical(items[k].productId) in products
             && r.lines[k] == Snapshot(items[k], products[Canonical(items[k].productId)])
    decreases |items|
  {
    if items != [] {
      var item := items[0];
      if Find(products, item.productId).Some? {
        var p := products[Canonical(item.productId)];
        if p.stock >= item.quantity {
          var next := StockUpdated(products, item.productId, item.quantity);
          PlaceSnapshots(next, items[1..]);
          var r := Place(products, items);
          if r.failure.None? {
            forall k | 0 <= k < |items|
              ensures Canonical(items[k].productId) in products
              ensures r.lines[k] == Snapshot(items[k], products[Canonical(items[k].productId)])
            {
              if k > 0 {
                assert items[1..][k - 1] == items[k];
                StockUpdatePreservesSnapshots(products, item.productId, item.quantity, items[k]);
              }
            }
          }
        }
      }
    }
  }

  /** Running the lines never adds or removes products. */
  lemma {:induction false} PlaceKeepsKeys(products: map<Id, Product>, items: seq<LineRequest>)
    ensures Place(products, items).products.Keys == products.Keys
    decreases |items|
  {
    if items != [] {
      var item := items[0];
      if Find(products, item.productId).Some? && products[Canonical(item.productId)].stock >= item.quantity {
        PlaceKeepsKeys(StockUpdated(products, item.productId, item.quantity), items[1..]);
      }
    }
  }

  /** A line whose product id is malformed or unknown makes the whole
      order fail, wherever the line is. */
  lemma {:induction false} PlaceUnknownProductFails(products: map<Id, Product>, items: seq<LineRequest>, k: nat)
    requires k < |items| && Find(products, items[k].productId).None?
    ensures Place(products, items).failure.Some?
    decreases |items|
  {
    var item := items[0];
    if k > 0 && Find(products, item.productId).Some? && products[Canonical(item.productId)].stock >= item.quantity {
      var next := StockUpdated(products, item.productId, item.quantity);
      assert items[1..][k - 1] == items[k];
      assert next.Keys == products.Keys;
      PlaceUnknownProductFails(next, items[1..], k - 1);
    }
  }

  /** A first line that finds its product with enough stock is
      snapshotted, and the rest runs against the decremented catalog. */
  lemma PlaceFirst(products: map<Id, Product>, items: seq<LineRequest>)
    requires items != []
    requires Find(products, items[0].productId).Some?
    requires Find(products, items[0].productId).value.stock >= items[0].quantity
    ensures var item := items[0];
      var p := Find(products, item.productId).value;
      Place(products, items) ==
        Extend([Snapshot(item, p)], p.price * item.quantity,
               Place(StockUpdated(products, item.productId, item.quantity), items[1..]))
  {
  }

  /** Prefixing lines twice is prefixing their concatenation. */
  lemma ExtendExtend(l1: seq<OrderLine>, t1: int, l2: seq<OrderLine>, t2: int, r: Placement)
    ensures Extend(l1, t1, Extend(l2, t2, r)) == Extend(l1 + l2, t1 + t2, r)
  {
    assert l1 + (l2 + r.lines) == (l1 + l2) + r.lines;
  }

  /** Placing `a + b` runs `a`, then runs `b` against the catalog `a` left
      behind: later lines see the stock earlier lines took, and a failure in
      `b` keeps the decrements made by `a`. */
  lemma {:induction false} PlaceSplit(products: map<Id, Product>, a: seq<LineRequest>, b: seq<LineRequest>)
    ensures var ra := Place(products, a);
      Place(products, a + b) ==
        if ra.failure.Some? then ra else Extend(ra.lines, ra.total, Place(ra.products, b))
    decreases |a|
  {
    if a == [] {
      assert a + b == b;
      var rb := Place(products, b);
      assert [] + rb.lines == rb.lines;
    } else {
      var item := a[0];
      assert (a + b)[0] == item;
      assert (a + b)[1..] == a[1..] + b;
      var found := Find(products, item.productId);
      if found.Some? && found.value.stock >= item.quantity {
        var next := StockUpdated(products, item.productId, item.quantity);
        var p := found.value;
        var head, cost := [Snapshot(item, p)], p.price * item.quantity;
        PlaceSplit(next, a[1..], b);
        PlaceFirst(products, a);
        PlaceFirst(products, a + b);
        var ra1 := Place(next, a[1..]);
        assert Place(products, a) == Extend(head, cost, ra1);
        assert Place(products, a + b) == Extend(head, cost, Place(next, a[1..] + b));
        if ra1.failure.None? {
          var rb := Place(ra1.products, b);
          ExtendExtend(head, cost, ra1.lines, ra1.total, rb);
        }
      }
    }
  }

  /** Two lines for the same product: the second is checked against the
      stock the first left, and when it fails the first decrement stays. */
  lemma SameProductTwice(products: map<Id, Product>, id: string, q1: int, q2: int)
    requires ValidObjectId(id) && Canonical(id) in products && products[Canonical(id)].stock >= q1
    ensures var r := Place(products, [LineRequest(id, q1, None), LineRequest(id, q2, None)]);
      && (r.failure.None? <==> q2 <= products[Canonical(id)].stock - q1)
      && (r.failure.Some? ==>
            r.failure == Some("Insufficient stock for product: " + products[Canonical(id)].name)
            && r.products == StockUpdated(products, id, q1))
      && (r.failure.None? ==> r.products == StockUpdated(StockUpdated(products, id, q1), id, q2))
  {
    var items := [LineRequest(id, q1, None), LineRequest(id, q2, None)];
    var next := StockUpdated(products, id, q1);
    assert next[Canonical(id)].stock == products[Canonical(id)].stock - q1;
    var second := [LineRequest(id, q2, None)];
    assert items[1..] == second && second[1..] == [];
    assert Place(products, items) ==
      Extend([Snapshot(items[0], products[Canonical(id)])], products[Canonical(id)].price * q1, Place(next, second));
    if next[Canonical(id)].stock >= q2 {
      var last := StockUpdated(next, id, q2);
      assert Place(next, second) ==
        Extend([Snapshot(second[0], next[Canonical(id)])], next[Canonical(id)].price * q2, Place(last, []));
    }
  }

  /** A line asking for exactly the remaining stock is accepted and leaves
      the product with stock 0 and not featured. */
  lemma ExactStockAccepted(products: map<Id, Product>, id: string)
    requires ValidObjectId(id) && Canonical(id) in products
    ensures var r := Place(products, [LineRequest(id, products[Canonical(id)].stock, None)]);
      r.failure.None? && Canonical(id) in r.products && r.products[Canonical(id)].stock == 0 && !r.products[Canonical(id)].featured
  {
    var items := [LineRequest(id, products[Canonical(id)].stock, None)];
    assert items[1..] == [];
  }

  /** Running lines keeps every stock non-negative when it started so,
      because `updateStock` clamps and a line never takes more than is left. */
  lemma {:induction false} PlaceKeepsStockNonNegative(products: map<Id, Product>, items: seq<LineRequest>)
    requires forall k :: k in products ==> products[k].stock >= 0
    ensures var r := Place(products, items); forall k :: k in r.products ==> r.products[k].stock >= 0
    decreases |items|
  {
    if items != [] {
      var item := items[0];
      if Find(products, item.productId).Some? && products[Canonical(item.productId)].stock >= item.quantity {
        var next := StockUpdated(products, item.productId, item.quantity);
        assert forall k :: k in next ==> next[k].stock >= 0;
        var rest := Place(next, items[1..]);
        PlaceKeepsStockNonNegative(next, items[1..]);
        assert forall k :: k in Place(next, items[1..]).products ==> Place(next, items[1..]).products[k].stock >= 0;
        assert Place(products, items).products == rest.products;
        assert forall k :: k in rest.products ==> rest.products[k].stock >= 0;
      }
    }
  }

  /** The five statuses `updateStatus` accepts. */
  const Statuses: seq<string> := ["pending", "processing", "shipped", "delivered", "cancelled"]

  /** The pagination of `Order::findAll`: the default limit is 50. */
  function FindAllPaging(page: Option<int>, limit: Option<int>, total: nat): (r: Paging.PageInfo)
    ensures limit.None? ==> r.limit == 50
    ensures 1 <= r.limit <= 100 && r.page >= 1 && r.skip == (r.page - 1) * r.limit
    ensures r.pages * r.limit >= total && (r.pages - 1) * r.limit < total
  {
    Paging.Paginate(page, limit, 50, total)
  }

  class OrderModel {
    var orders: map<Id, Order>
    /** The product collection `create` looks products up in and decrements. */
    const catalog: ProductModel

    ghost predicate Valid()
      reads this
    {
      forall id :: id in orders ==> LowerId(id)
    }

    constructor (catalog: ProductModel)
      ensures Valid() && orders == map[] && this.catalog == catalog
    {
      orders := map[];
      this.catalog := catalog;
    }

    function FindById(id: string): Option<Order>
      reads this
    {
      Find(orders, id)
    }

    /** `create`: runs the lines as `Place` describes; on the first failure
        it throws (here: returns the message) with the earlier decrements
        kept and no order inserted. Otherwise it inserts a `pending` order
        whose phone and address default to ''. */
    method Create(d: OrderRequest, newId: Id, now: int) returns (r: Result<Order, string>)
      requires Valid() && catalog.Valid() && LowerId(newId) && newId !in orders
      modifies this, catalog
      ensures Valid() && catalog.Valid()
      ensures var run := Place(old(catalog.products), d.items);
        && catalog.products == run.products
        && (run.failure.Some? ==> r == Err(run.failure.value) && orders == old(orders))
        && (run.failure.None? ==>
              && r == Ok(Order(d.customerName, d.customerEmail, d.customerPhone.GetOr(""),
                               d.customerAddress.GetOr(""), run.lines, run.total, "pending", now, now))
              && orders == old(orders)[newId := r.value])
    {
      ghost var p0 := catalog.products;
      var lines: seq<OrderLine> := [];
      var total := 0;
      var i := 0;
      while i < |d.items|
        invariant 0 <= i <= |d.items|
        invariant catalog.Valid() && orders == old(orders)
        invariant Place(p0, d.items) == Extend(lines, total, Place(catalog.products, d.items[i..]))
      {
        var item := d.items[i];
        assert d.items[i..][0] == item && d.items[i..][1..] == d.items[i + 1..];
        var found := catalog.FindById(item.productId);
        if found.None? {
          return Err("Product not found: " + item.productId);
        }
        var product := found.value;
        if product.stock < item.quantity {
          return Err("Insufficient stock for product: " + product.name);
        }
        ghost var rest := Place(StockUpdated(catalog.products, item.productId, item.quantity), d.items[i + 1..]);
        assert lines + ([Snapshot(item, product)] + rest.lines) == (lines + [Snapshot(item, product)]) + rest.lines;
        total := total + product.price * item.quantity;
        lines := lines + [Snapshot(item, product)];
        var _ := catalog.UpdateStock(item.productId, item.quantity);
        i := i + 1;
      }
      assert d.items[i..] == [];
      assert lines + [] == lines;
      var order := Order(d.customerName, d.customerEmail,
                         if d.customerPhone.Some? then d.customerPhone.value else "",
                         if d.customerAddress.Some? then d.customerAddress.value else "",
                         lines, total, "pending", now, now);
      orders := orders[newId := order];
      r := Ok(order);
    }

    /** `updateStatus`: a status outside the whitelist throws "Invalid
        status" before anything is written; otherwise the result is true
        iff the id names an order, whose status and updatedAt are set. */
    method UpdateStatus(id: string, status: string, now: int) returns (r: Result<bool, string>)
      requires Valid()
      modifies this
      ensures Valid()
      ensures status !in Statuses ==> r == Err("Invalid status") && orders == old(orders)
      ensures status in Statuses ==> r == Ok(ValidObjectId(id) && Canonical(id) in old(orders))
      ensures status in Statuses && ValidObjectId(id) && Canonical(id) in old(orders) ==>
        orders == old(orders)[Canonical(id) := old(orders)[Canonical(id)].(status := status, updatedAt := now)]
      ensures !(status in Statuses && ValidObjectId(id) && Canonical(id) in old(orders)) ==> orders == old(orders)
    {
      if status !in Statuses {
        return Err("Invalid status");
      }
      if !ValidObjectId(id) {
        return Ok(false);
      }
      var key := Canonical(id);
      var matched := key in orders;
      if matched {
        orders := orders[key := orders[key].(status := status, updatedAt := now)];
      }
      r := Ok(matched);
    }

    /** `delete`: true iff an order was removed. */
    method Delete(id: string) returns (deleted: bool)
      requires Valid()
      modifies this
      ensures Valid()
      ensures deleted <==> ValidObjectId(id) && Canonical(id) in old(orders)
      ensures orders == if deleted then old(orders) - {Canonical(id)} else old(orders)
    {
      var key := Canonical(id);
      if !ValidObjectId(id) || key !in orders {
        return false;
      }
      orders := orders - {key};
      deleted := true;
    }
  }
}
