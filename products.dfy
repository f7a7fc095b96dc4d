/** models/Product.php: the products collection and its operations. */
module Products {
  import opened Common
  import Paging

  /** A product document. Prices are integer cents. `image` is None when the
      document has no `image` field or it is null (legacy documents). */
  datatype Product = Product(
    name: string,
    description: string,
    price: int,
    category: string,
    stock: int,
    image: Option<string>,
    images: seq<string>,
    sizes: seq<string>,
    featured: bool,
    createdAt: int,
    updatedAt: int)

  /** The `$data` handed to `Product::create`, after the `(float)`, `(int)`
      and `(bool)` casts; None marks a key that is not set. */
  datatype NewProduct = NewProduct(
    name: string,
    description: string,
    price: int,
    category: string,
    stock: int,
    image: Option<string>,
    images: Option<seq<string>>,
    sizes: Option<seq<string>>,
    featured: Option<bool>)

  /** The `$data` handed to `Product::update`; None marks a key that is not set. */
  datatype ProductPatch = ProductPatch(
    name: Option<string>,
    description: Option<string>,
    price: Option<int>,
    category: Option<string>,
    stock: Option<int>,
    image: Option<string>,
    images: Option<seq<string>>,
    sizes: Option<seq<string>>,
    featured: Option<bool>)

  /** The product after `updateStock($id, $quantity)`: stock is decremented,
      and a result of zero or less is clamped to 0 with `featured` cleared. */
  function AfterStockUpdate(p: Product, quantity: int): Product {
    var s := p.stock - quantity;
    if s <= 0 then p.(stock := 0, featured := false) else p.(stock := s)
  }

  /** The collection after `updateStock($id, $quantity)`. */
  function StockUpdated(products: map<Id, Product>, id: string, quantity: int): map<Id, Product> {
    var key := Canonical(id);
    if ValidObjectId(id) && key in products then products[key := AfterStockUpdate(products[key], quantity)]
    else products
  }

  /** `updateStock` clamps at zero and clears `featured` exactly when the
      decrement reaches zero or below; it never touches any other field. */
  lemma StockUpdateRule(p: Product, quantity: int)
    ensures var r := AfterStockUpdate(p, quantity);
      && r == p.(stock := r.stock, featured := r.featured)
      && (p.stock - quantity <= 0 ==> r.stock == 0 && !r.featured)
      && (p.stock - quantity > 0 ==> r.stock == p.stock - quantity && r.featured == p.featured)
      && r.stock >= 0
  {
  }

  /** After `updateStock` a featured product always has stock left: the
      rule that featured items must be purchasable holds for the product
      just updated, whatever its state before. */
  lemma StockUpdateKeepsFeaturedInStock(products: map<Id, Product>, id: string, quantity: int)
    requires ValidObjectId(id) && Canonical(id) in products
    ensures var r := StockUpdated(products, id, quantity);
      Canonical(id) in r && (r[Canonical(id)].featured ==> r[Canonical(id)].stock > 0)
  {
  }

  /** `updateStock` touches only the target document, and an unknown or
      malformed id changes nothing. */
  lemma StockUpdateFrame(products: map<Id, Product>, id: string, quantity: int)
    ensures var r := StockUpdated(products, id, quantity);
      && r.Keys == products.Keys
      && (forall k :: k in products && k != Canonical(id) ==> r[k] == products[k])
      && (!(ValidObjectId(id) && Canonical(id) in products) ==> r == products)
  {
  }

  /** The document after `Product::update($id, $data)`: every set field is
      written, `updatedAt` always is, and a stock of 0 forces `featured` to
      false unless the same update sets `featured`. */
  function Patched(p: Product, d: ProductPatch, now: int): Product {
    Product(
      d.name.GetOr(p.name),
      d.description.GetOr(p.description),
      d.price.GetOr(p.price),
      d.category.GetOr(p.category),
      d.stock.GetOr(p.stock),
      if d.image.Some? then d.image else p.image,
      d.images.GetOr(p.images),
      d.sizes.GetOr(p.sizes),
      if d.featured.Some? then d.featured.value
      else if d.stock == Some(0) then false
      else p.featured,
      p.createdAt,
      now)
  }

  /** The `featured` rule of `update`: a supplied value wins, otherwise a
      stock of 0 clears it, otherwise it is kept. */
  lemma UpdateFeaturedRule(p: Product, d: ProductPatch, now: int)
    ensures d.featured.Some? ==> Patched(p, d, now).featured == d.featured.value
    ensures d.featured.None? && d.stock == Some(0) ==> !Patched(p, d, now).featured
    ensures d.featured.None? && d.stock != Some(0) ==> Patched(p, d, now).featured == p.featured
  {
  }

  /** Unlike `updateStock`, `update` can leave a featured product with no
      stock: an update that sets stock 0 and featured true keeps it
      featured. */
  lemma UpdateCanFeatureEmptyStock(p: Product, now: int)
    ensures var d := ProductPatch(None, None, None, None, Some(0), None, None, None, Some(true));
      Patched(p, d, now).featured && Patched(p, d, now).stock == 0
  {
  }

  /** The products whose `category` field equals `categoryId`
      (`findByCategory`). */
  function InCategory(products: map<Id, Product>, categoryId: string): map<Id, Product> {
    map id | id in products && products[id].category == categoryId :: products[id]
  }

  /** `countByCategory`: the number of products in a category. */
  function CountIn(products: map<Id, Product>, categoryId: string): nat {
    |InCategory(products, categoryId).Keys|
  }

  /** A category's product count is positive exactly when some product
      references it. */
  lemma CountPositiveIff(products: map<Id, Product>, categoryId: string)
    ensures CountIn(products, categoryId) > 0 <==>
      exists id :: id in products && products[id].category == categoryId
  {
    var s := InCategory(products, categoryId);
    if exists id :: id in products && products[id].category == categoryId {
      var id :| id in products && products[id].category == categoryId;
      assert id in s.Keys;
    } else {
      assert s.Keys == {};
    }
  }

  /** The pagination of `Product::findAll`: the default limit is 10. */
  function FindAllPaging(page: Option<int>, limit: Option<int>, total: nat): (r: Paging.PageInfo)
    ensures limit.None? ==> r.limit == 10
    ensures 1 <= r.limit <= 100 && r.page >= 1 && r.skip == (r.page - 1) * r.limit
    ensures r.pages * r.limit >= total && (r.pages - 1) * r.limit < total
  {
    Paging.Paginate(page, limit, 10, total)
  }

  /** The document `create` inserts for `d` at time `now`. */
  function Document(d: NewProduct, now: int): Product {
    Product(d.name, d.description, d.price, d.category, d.stock, Some(d.image.GetOr("")),
            d.images.GetOr([]), d.sizes.GetOr([]), d.featured.GetOr(false), now, now)
  }

  class ProductModel {
    var products: map<Id, Product>

    ghost predicate Valid()
      reads this
    {
      forall id :: id in products ==> LowerId(id)
    }

    constructor ()
      ensures Valid() && products == map[]
    {
      products := map[];
    }

    function FindById(id: string): Option<Product>
      reads this
    {
      Find(products, id)
    }

    function FindByCategory(categoryId: string): map<Id, Product>
      reads this
    {
      InCategory(products, categoryId)
    }

    function CountByCategory(categoryId: string): nat
      reads this
    {
      CountIn(products, categoryId)
    }

    /** `create`: image defaults to '', images and sizes to [], featured
        to false; `newId` is the id the driver generates. */
    method Create(d: NewProduct, newId: Id, now: int) returns (p: Product)
      requires Valid() && LowerId(newId) && newId !in products
      modifies this
      ensures Valid() && products == old(products)[newId := p] && p == Document(d, now)
      ensures p.name == d.name && p.description == d.description && p.price == d.price
      ensures p.category == d.category && p.stock == d.stock
      ensures p.image == Some(d.image.GetOr("")) && p.images == d.images.GetOr([])
      ensures p.sizes == d.sizes.GetOr([]) && p.featured == d.featured.GetOr(false)
      ensures p.createdAt == now && p.updatedAt == now
    {
      p := Product(d.name, d.description, d.price, d.category, d.stock,
                   Some(if d.image.Some? then d.image.value else ""),
                   if d.images.Some? then d.images.value else [],
                   if d.sizes.Some? then d.sizes.value else [],
                   if d.featured.Some? then d.featured.value else false,
                   now, now);
      products := products[newId := p];
    }

    /** `update`: builds the `$set` document field by field and applies it;
        the result is true iff a document matched. */
    method Update(id: string, d: ProductPatch, now: int) returns (matched: bool)
      requires Valid()
      modifies this
      ensures Valid()
      ensures matched <==> ValidObjectId(id) && Canonical(id) in old(products)
      ensures products == if matched then old(products)[Canonical(id) := Patched(old(products)[Canonical(id)], d, now)]
                          else old(products)
    {
      var key := Canonical(id);
      if !ValidObjectId(id) || key !in products {
        return false;
      }
      var u := products[key].(updatedAt := now);
      u := u.(name := d.name.GetOr(u.name), description := d.description.GetOr(u.description));
      u := u.(price := d.price.GetOr(u.price), category := d.category.GetOr(u.category));
      if d.stock.Some? {
        u := u.(stock := d.stock.value);
        if d.stock.value == 0 { u := u.(featured := false); }
      }
      u := u.(image := if d.image.Some? then d.image else u.image);
      u := u.(images := d.images.GetOr(u.images), sizes := d.sizes.GetOr(u.sizes));
      if d.featured.Some? { u := u.(featured := d.featured.value); }
      products := products[key := u];
      matched := true;
    }

    /** `updateStock`: an `$inc` of `-quantity`, then a re-read and, when
        the stock is now zero or negative, a second write setting stock 0
        and featured false. The result reports whether the `$inc` modified
        the document, not whether the clamp ran. */
    method UpdateStock(id: string, quantity: int) returns (modified: bool)
      requires Valid()
      modifies this
      ensures Valid()
      ensures products == StockUpdated(old(products), id, quantity)
      ensures modified <==> ValidObjectId(id) && Canonical(id) in old(products) && quantity != 0
    {
      if !ValidObjectId(id) {
        return false;
      }
      var key := Canonical(id);
      var matched := key in products;
      var modifiedCount := matched && quantity != 0;
      if matched {
        products := products[key := products[key].(stock := products[key].stock - quantity)];
        var reread := products[key];
        if reread.stock <= 0 {
          products := products[key := reread.(stock := 0, featured := false)];
        }
      }
      modified := modifiedCount;
    }

    /** `delete`: true iff a document was removed. */
    method Delete(id: string) returns (deleted: bool)
      requires Valid()
      modifies this
      ensures Valid()
      ensures deleted <==> ValidObjectId(id) && Canonical(id) in old(products)
      ensures products == if deleted then old(products) - {Canonical(id)} else old(products)
    {
      var key := Canonical(id);
      if !ValidObjectId(id) || key !in products {
        return false;
      }
      products := products - {key};
      deleted := true;
    }
  }
}
