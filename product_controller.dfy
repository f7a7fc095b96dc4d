/** controllers/ProductController.php: the product endpoints and the
    controller's lazily built category id -> name cache. */
module ProductApi {
  import opened Common
  import opened Validator
  import opened Products
  import opened Categories

  /** A product as the API returns it: its string id and, when the
      category id was found in the cache, `category` replaced by the
      category's name and the id kept as `categoryId`. */
  datatype ProductView = ProductView(id: Id, product: Product, categoryId: Option<string>)

  /** What the cache holds once loaded: every category's name by id. */
  function CategoryNames(cats: map<Id, Category>): (r: map<Id, string>)
    ensures r.Keys == cats.Keys
    ensures forall id :: id in r ==> r[id] == cats[id].name
  {
    map id | id in cats :: cats[id].name
  }

  /** `populateCategoryName` on a product read with id `id`. */
  function Populated(id: Id, p: Product, cache: map<Id, string>): (v: ProductView)
    ensures v.id == id
    ensures v.categoryId.Some? <==> p.category in cache
    ensures v.categoryId.Some? ==> v.categoryId.value == p.category && v.product == p.(category := cache[p.category])
    ensures v.categoryId.None? ==> v.product == p
  {
    if p.category in cache then ProductView(id, p.(category := cache[p.category]), Some(p.category))
    else ProductView(id, p, None)
  }

  const ProductFields: seq<string> := ["name", "description", "price", "category", "stock"]

  /** A number the controller has validated, as the model's cast reads it. */
  function NumberOf(v: Json): int {
    NumericValue(v).GetOr(0)
  }

  /** The checks of `create`, in order: the required fields (where, through
      `empty`, a price or stock of 0 counts as missing), then price >= 0,
      then stock >= 0. When all pass, the data handed to the model: the
      sanitised name, description and category, price and stock, image
      defaulting to '' and featured to false; never images or sizes. */
  function CreateCheck(data: Body, rt: Runtime): (r: Result<NewProduct, Response<ProductView>>)
    ensures RequiredErrors(data, ProductFields) != map[] ==>
      r == Err(Response(400, "Validation failed", RequiredErrors(data, ProductFields), None))
    ensures RequiredErrors(data, ProductFields) == map[] && ValidateNumber(Field(data, "price"), Some(0), None).Some? ==>
      r == Err(Fail(400, "Price " + ValidateNumber(Field(data, "price"), Some(0), None).value))
    ensures RequiredErrors(data, ProductFields) == map[] && ValidateNumber(Field(data, "price"), Some(0), None).None?
            && ValidateNumber(Field(data, "stock"), Some(0), None).Some? ==>
      r == Err(Fail(400, "Stock " + ValidateNumber(Field(data, "stock"), Some(0), None).value))
    ensures r.Ok? <==> && RequiredErrors(data, ProductFields) == map[]
                       && ValidateNumber(Field(data, "price"), Some(0), None).None?
                       && ValidateNumber(Field(data, "stock"), Some(0), None).None?
    ensures r.Ok? ==>
      && r.value.name == rt.sanitize(AsText(Field(data, "name")))
      && r.value.description == rt.sanitize(AsText(Field(data, "description")))
      && r.value.category == rt.sanitize(AsText(Field(data, "category")))
      && NumericValue(Field(data, "price")) == Some(r.value.price) && r.value.price >= 0
      && NumericValue(Field(data, "stock")) == Some(r.value.stock) && r.value.stock >= 0
      && r.value.image == Some(if IsSet(data, "image") then AsText(Field(data, "image")) else "")
      && r.value.featured == Some(IsSet(data, "featured") && Truthy(Field(data, "featured")))
      && r.value.images.None? && r.value.sizes.None?
    ensures r.Err? ==> r.error.code == 400 && r.error.data.None?
  {
    var errors := RequiredErrors(data, ProductFields);
    if errors != map[] then Err(Response(400, "Validation failed", errors, None))
    else
      match ValidateNumber(Field(data, "price"), Some(0), None)
      case Some(m) => Err(Fail(400, "Price " + m))
      case None =>
        match ValidateNumber(Field(data, "stock"), Some(0), None)
        case Some(m) => Err(Fail(400, "Stock " + m))
        case None =>
          Ok(NewProduct(
            rt.sanitize(AsText(Field(data, "name"))),
            rt.sanitize(AsText(Field(data, "description"))),
            NumberOf(Field(data, "price")),
            rt.sanitize(AsText(Field(data, "category"))),
            NumberOf(Field(data, "stock")),
            Some(if IsSet(data, "image") then AsText(Field(data, "image")) else ""),
            None,
            None,
            Some(IsSet(data, "featured") && Truthy(Field(data, "featured")))))
  }

  /** `create` rejects a price of 0 as missing, before the range check
      that would accept it. */
  lemma ZeroPriceIsRequired(data: Body, rt: Runtime)
    requires "price" in data && data["price"] == JNum(0)
    ensures CreateCheck(data, rt).Err?
    ensures "price" in CreateCheck(data, rt).error.errors
  {
    assert "price" in RequiredErrors(data, ProductFields) by {
      assert "price" in ProductFields;
    }
  }

  /** The checks of `update`, which run only on the fields supplied:
      price, then stock. When they pass, the patch forwards exactly the
      set fields among name, description, price, category, stock, image
      and featured. */
  function UpdateCheck(data: Body, rt: Runtime): (r: Result<ProductPatch, Response<ProductView>>)
    ensures IsSet(data, "price") && ValidateNumber(data["price"], Some(0), None).Some? ==>
      r == Err(Fail(400, "Price " + ValidateNumber(data["price"], Some(0), None).value))
    ensures (IsSet(data, "price") ==> ValidateNumber(data["price"], Some(0), None).None?)
            && IsSet(data, "stock") && ValidateNumber(data["stock"], Some(0), None).Some? ==>
      r == Err(Fail(400, "Stock " + ValidateNumber(data["stock"], Some(0), None).value))
    ensures r.Ok? <==> && (IsSet(data, "price") ==> ValidateNumber(data["price"], Some(0), None).None?)
                       && (IsSet(data, "stock") ==> ValidateNumber(data["stock"], Some(0), None).None?)
    ensures r.Ok? ==>
      && (r.value.name.Some? <==> IsSet(data, "name"))
      && (r.value.description.Some? <==> IsSet(data, "description"))
      && (r.value.price.Some? <==> IsSet(data, "price"))
      && (r.value.category.Some? <==> IsSet(data, "category"))
      && (r.value.stock.Some? <==> IsSet(data, "stock"))
      && (r.value.image.Some? <==> IsSet(data, "image"))
      && (r.value.featured.Some? <==> IsSet(data, "featured"))
      && r.value.images.None? && r.value.sizes.None?
      && (r.value.name.Some? ==> r.value.name.value == rt.sanitize(AsText(data["name"])))
      && (r.value.description.Some? ==> r.value.description.value == rt.sanitize(AsText(data["description"])))
      && (r.value.category.Some? ==> r.value.category.value == rt.sanitize(AsText(data["category"])))
      && (r.value.image.Some? ==> r.value.image.value == AsText(data["image"]))
      && (r.value.price.Some? ==> NumericValue(data["price"]) == r.value.price && r.value.price.value >= 0)
      && (r.value.stock.Some? ==> NumericValue(data["stock"]) == r.value.stock && r.value.stock.value >= 0)
      && (r.value.featured.Some? ==> r.value.featured.value == Truthy(data["featured"]))
    ensures r.Err? ==> r.error.code == 400 && r.error.data.None?
  {
    var priceError := if IsSet(data, "price") then ValidateNumber(data["price"], Some(0), None) else None;
    var stockError := if IsSet(data, "stock") then ValidateNumber(data["stock"], Some(0), None) else None;
    if priceError.Some? then Err(Fail(400, "Price " + priceError.value))
    else if stockError.Some? then Err(Fail(400, "Stock " + stockError.value))
    else
      Ok(ProductPatch(
        if IsSet(data, "name") then Some(rt.sanitize(AsText(data["name"]))) else None,
        if IsSet(data, "description") then Some(rt.sanitize(AsText(data["description"]))) else None,
        if IsSet(data, "price") then Some(NumberOf(data["price"])) else None,
        if IsSet(data, "category") then Some(rt.sanitize(AsText(data["category"]))) else None,
        if IsSet(data, "stock") then Some(NumberOf(data["stock"])) else None,
        if IsSet(data, "image") then Some(AsText(data["image"])) else None,
        None,
        None,
        if IsSet(data, "featured") then Some(Truthy(data["featured"])) else None))
  }

  /** An update that only sets stock to 0 unfeatures the product. */
  lemma ZeroStockUpdateUnfeatures(p: Product, rt: Runtime, now: int)
    ensures var patch := UpdateCheck(map["stock" := JNum(0)], rt);
      patch.Ok? && !Patched(p, patch.value, now).featured && Patched(p, patch.value, now).stock == 0
  {
    var data := map["stock" := JNum(0)];
    assert ValidateNumber(data["stock"], Some(0), None) == None;
    assert !IsSet(data, "featured") && !IsSet(data, "price");
  }

  /** The loop of `loadCategoriesCache` over the `findAll` listing of
      `cats`: one entry per category, id to name. */
  method CacheFrom(listed: seq<CategoryListing>, ghost cats: map<Id, Category>) returns (cache: map<Id, string>)
    requires forall k :: 0 <= k < |listed| ==> listed[k].id in cats && listed[k].category == cats[listed[k].id]
    requires forall id :: id in cats ==> exists k :: 0 <= k < |listed| && listed[k].id == id
    ensures cache == CategoryNames(cats)
  {
    cache := map[];
    var i := 0;
    while i < |listed|
      invariant 0 <= i <= |listed|
      invariant forall id :: id in cache ==> id in cats && cache[id] == cats[id].name
      invariant forall k :: 0 <= k < i ==> listed[k].id in cache
    {
      cache := cache[listed[i].id := listed[i].category.name];
      i := i + 1;
    }
    assert cache.Keys == cats.Keys by {
      forall id | id in cats
        ensures id in cache
      {
        var k :| 0 <= k < |listed| && listed[k].id == id;
      }
    }
  }

  class ProductController {
    /** `$categoriesCache`: null until first needed. */
    var categoriesCache: Option<map<Id, string>>
    const products: ProductModel
    const categories: CategoryModel

    constructor (products: ProductModel, categories: CategoryModel)
      ensures categoriesCache.None? && this.products == products && this.categories == categories
    {
      categoriesCache := None;
      this.products := products;
      this.categories := categories;
    }

    /** `loadCategoriesCache`: built from `findAll` on first use only; once
        loaded it is never refreshed. */
    method LoadCategoriesCache()
      requires categories.Valid()
      modifies this
      ensures old(categoriesCache).Some? ==> categoriesCache == old(categoriesCache)
      ensures old(categoriesCache).None? ==> categoriesCache == Some(CategoryNames(categories.categories))
    {
      if categoriesCache.Some? {
        return;
      }
      var listed := categories.FindAll();
      var cache := CacheFrom(listed, categories.categories);
      categoriesCache := Some(cache);
    }

    /** `populateCategoryName`, through the cache. */
    method PopulateCategoryName(id: Id, p: Product) returns (v: ProductView)
      requires categories.Valid()
      modifies this
      ensures categoriesCache.Some? && v == Populated(id, p, categoriesCache.value)
      ensures old(categoriesCache).Some? ==> categoriesCache == old(categoriesCache)
      ensures old(categoriesCache).None? ==> categoriesCache == Some(CategoryNames(categories.categories))
    {
      LoadCategoriesCache();
      var cache := categoriesCache.value;
      if p.category in cache {
        v := ProductView(id, p.(category := cache[p.category]), Some(p.category));
      } else {
        v := ProductView(id, p, None);
      }
    }

    /** `getById`: 404 "Product not found", or the product with its
        category name filled in. */
    method GetById(id: string) returns (r: Response<ProductView>)
      requires categories.Valid()
      modifies this
      ensures !(ValidObjectId(id) && Canonical(id) in products.products) ==>
        r == Fail(404, "Product not found") && categoriesCache == old(categoriesCache)
      ensures ValidObjectId(id) && Canonical(id) in products.products ==>
        && categoriesCache.Some?
        && r == Response(200, "", map[], Some(Populated(Canonical(id), products.products[Canonical(id)], categoriesCache.value)))
      ensures old(categoriesCache).Some? ==> categoriesCache == old(categoriesCache)
      ensures ValidObjectId(id) && Canonical(id) in products.products && old(categoriesCache).None? ==>
        categoriesCache == Some(CategoryNames(categories.categories))
    {
      var found := products.FindById(id);
      if found.None? {
        return Fail(404, "Product not found");
      }
      var v := PopulateCategoryName(Canonical(id), found.value);
      r := Response(200, "", map[], Some(v));
    }

    /** `create`: a failed check answers 400 before the model runs;
        otherwise the product is stored and answered with 201. */
    method Create(data: Body, newId: Id, now: int, rt: Runtime) returns (r: Response<ProductView>)
      requires products.Valid() && LowerId(newId) && newId !in products.products
      modifies products
      ensures products.Valid()
      ensures CreateCheck(data, rt).Err? ==> r == CreateCheck(data, rt).error && products.products == old(products.products)
      ensures CreateCheck(data, rt).Ok? ==>
        var stored := Document(CreateCheck(data, rt).value, now);
        && products.products == old(products.products)[newId := stored]
        && r == Response(201, "Product created successfully", map[], Some(ProductView(newId, stored, None)))
    {
      var check := CreateCheck(data, rt);
      if check.Err? {
        return check.error;
      }
      var p := products.Create(check.value, newId, now);
      r := Response(201, "Product created successfully", map[], Some(ProductView(newId, p, None)));
    }

    /** `update`: 404 for an unknown product before any validation, then
        the checks of `UpdateCheck`, then the patch and 200 with the re-read
        product. */
    method Update(id: string, data: Body, now: int, rt: Runtime) returns (r: Response<ProductView>)
      requires products.Valid()
      modifies products
      ensures products.Valid()
      ensures !(ValidObjectId(id) && Canonical(id) in old(products.products)) ==>
        r == Fail(404, "Product not found") && products.products == old(products.products)
      ensures ValidObjectId(id) && Canonical(id) in old(products.products) && UpdateCheck(data, rt).Err? ==>
        r == UpdateCheck(data, rt).error && products.products == old(products.products)
      ensures ValidObjectId(id) && Canonical(id) in old(products.products) && UpdateCheck(data, rt).Ok? ==>
        && products.products == old(products.products)[Canonical(id) := Patched(old(products.products)[Canonical(id)], UpdateCheck(data, rt).value, now)]
        && r == Response(200, "Product updated successfully", map[], Some(ProductView(Canonical(id), products.products[Canonical(id)], None)))
    {
      if products.FindById(id).None? {
        return Fail(404, "Product not found");
      }
      var check := UpdateCheck(data, rt);
      if check.Err? {
        return check.error;
      }
      var _ := products.Update(id, check.value, now);
      var updated := products.FindById(id);
      r := Response(200, "Product updated successfully", map[], Some(ProductView(Canonical(id), updated.value, None)));
    }

    /** `delete`: 404 for an unknown product; otherwise the image file named
        by a non-empty `image` is removed (`removedImage`), then the
        product, and 200 is answered. */
    method Delete(id: string) returns (r: Response<ProductView>, removedImage: Option<string>)
      requires products.Valid()
      modifies products
      ensures products.Valid()
      ensures !(ValidObjectId(id) && Canonical(id) in old(products.products)) ==>
        r == Fail(404, "Product not found") && removedImage.None? && products.products == old(products.products)
      ensures ValidObjectId(id) && Canonical(id) in old(products.products) ==>
        && r == Response(200, "Product deleted successfully", map[], None)
        && products.products == old(products.products) - {Canonical(id)}
        && var image := old(products.products)[Canonical(id)].image;
           removedImage == if image.Some? && image.value != "" && image.value != "0" then image else None
    {
      var found := products.FindById(id);
      if found.None? {
        return Fail(404, "Product not found"), None;
      }
      var image := found.value.image;
      removedImage := if image.Some? && image.value != "" && image.value != "0" then image else None;
      var _ := products.Delete(id);
      r := Response(200, "Product deleted successfully", map[], None);
    }
  }
}
