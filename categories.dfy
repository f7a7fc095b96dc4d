/** models/Category.php: the categories collection, whose names are unique
    (a unique index), and which refuses to delete a category still
    referenced by products. */
module Categories {
  import opened Common
  import opened Text
  import opened Products

  datatype Category = Category(name: string, description: string, createdAt: int, updatedAt: int)

  /** An entry of `findAll`: the category with its id and `productCount`. */
  datatype CategoryListing = CategoryListing(id: Id, category: Category, productCount: nat)

  /** The result of `findById`: the category with the products that
      reference it. */
  datatype CategoryDetail = CategoryDetail(category: Category, products: map<Id, Product>)

  /** Why `delete` throws: the guard ("Cannot delete category with existing
      products"), or the driver rejecting a malformed id, whose message is
      the driver's own. */
  datatype DeleteError = HasProducts | MalformedId

  /** Names strictly ascending in binary string order. */
  predicate SortedByName(xs: seq<CategoryListing>) {
    forall i, j :: 0 <= i < j < |xs| ==> Less(xs[i].category.name, xs[j].category.name)
  }

  /** Inserts `c` before the first entry whose name is greater. */
  function InsertByName(xs: seq<CategoryListing>, c: CategoryListing): (r: seq<CategoryListing>)
    ensures |r| == |xs| + 1
    ensures forall x :: x in r <==> x in xs || x == c
  {
    if xs == [] || Less(c.category.name, xs[0].category.name) then [c] + xs
    else [xs[0]] + InsertByName(xs[1..], c)
  }

  lemma {:induction false} InsertKeepsSorted(xs: seq<CategoryListing>, c: CategoryListing)
    requires SortedByName(xs)
    requires forall k :: 0 <= k < |xs| ==> xs[k].category.name != c.category.name
    ensures SortedByName(InsertByName(xs, c))
  {
    var r := InsertByName(xs, c);
    if xs == [] {
    } else if Less(c.category.name, xs[0].category.name) {
      forall j | 0 < j < |r|
        ensures Less(r[0].category.name, r[j].category.name)
      {
        if j > 1 {
          LessTransitive(c.category.name, xs[0].category.name, xs[j - 1].category.name);
        }
      }
    } else {
      LessTotal(c.category.name, xs[0].category.name);
      var rest := InsertByName(xs[1..], c);
      InsertKeepsSorted(xs[1..], c);
      forall j | 0 <= j < |rest|
        ensures Less(xs[0].category.name, rest[j].category.name)
      {
        assert rest[j] in rest;
        if rest[j] != c {
          var k :| 0 <= k < |xs[1..]| && xs[1..][k] == rest[j];
          assert xs[k + 1] == rest[j];
        }
      }
      assert r == [xs[0]] + rest;
    }
  }

  /** No two categories share a name. */
  ghost predicate UniqueNames(cats: map<Id, Category>) {
    forall a, b :: a in cats && b in cats && a != b ==> cats[a].name != cats[b].name
  }

  /** `r` lists exactly the categories of `cats` whose ids are in `done`,
      sorted by name, each with count 0. */
  ghost predicate ListsSorted(r: seq<CategoryListing>, cats: map<Id, Category>, done: set<Id>) {
    && SortedByName(r)
    && (forall k :: 0 <= k < |r| ==>
          r[k].id in done && r[k].id in cats && r[k].category == cats[r[k].id] && r[k].productCount == 0)
    && (forall id :: id in done ==> exists k :: 0 <= k < |r| && r[k].id == id)
  }

  /** One step of the insertion: adding a category not yet listed keeps
      the listing sorted and complete. */
  lemma InsertStep(r: seq<CategoryListing>, cats: map<Id, Category>, done: set<Id>, id: Id)
    requires UniqueNames(cats) && ListsSorted(r, cats, done) && id in cats && id !in done
    ensures ListsSorted(InsertByName(r, CategoryListing(id, cats[id], 0)), cats, done + {id})
  {
    var entry := CategoryListing(id, cats[id], 0);
    forall k | 0 <= k < |r|
      ensures r[k].category.name != entry.category.name
    {
      assert r[k].id != id;
    }
    InsertKeepsSorted(r, entry);
    var r' := InsertByName(r, entry);
    forall k | 0 <= k < |r'|
      ensures r'[k].id in done + {id} && r'[k].id in cats
      ensures r'[k].category == cats[r'[k].id] && r'[k].productCount == 0
    {
      assert r'[k] in r';
    }
    forall other | other in done + {id}
      ensures exists k :: 0 <= k < |r'| && r'[k].id == other
    {
      if other == id {
        assert entry in r';
        var k :| 0 <= k < |r'| && r'[k] == entry;
      } else {
        var k :| 0 <= k < |r| && r[k].id == other;
        assert r[k] in r';
        var k' :| 0 <= k' < |r'| && r'[k'] == r[k];
      }
    }
  }

  class CategoryModel {
    var categories: map<Id, Category>
    /** The products collection `findAll`, `findById` and `delete` consult. */
    const catalog: ProductModel

    /** Ids are ObjectIds and names are unique (the unique index). */
    ghost predicate Valid()
      reads this
    {
      && (forall id :: id in categories ==> LowerId(id))
      && UniqueNames(categories)
    }

    constructor (catalog: ProductModel)
      ensures Valid() && categories == map[] && this.catalog == catalog
    {
      categories := map[];
      this.catalog := catalog;
    }

    /** Whether some category other than `id` already has `name`. */
    predicate NameTaken(name: string, id: Id)
      reads this
    {
      exists other :: other in categories && other != id && categories[other].name == name
    }

    /** `create`: the unique index turns a second category of the same
        name into "Category name already exists"; description defaults
        to ''. */
    method Create(name: string, description: Option<string>, newId: Id, now: int)
      returns (r: Result<Category, string>)
      requires Valid() && LowerId(newId) && newId !in categories
      modifies this
      ensures Valid()
      ensures old(NameTaken(name, newId)) ==> r == Err("Category name already exists") && categories == old(categories)
      ensures !old(NameTaken(name, newId)) ==>
        && r == Ok(Category(name, description.GetOr(""), now, now))
        && categories == old(categories)[newId := r.value]
    {
      var c := Category(name, if description.Some? then description.value else "", now, now);
      if exists other :: other in categories && categories[other].name == name {
        return Err("Category name already exists");
      }
      categories := categories[newId := c];
      r := Ok(c);
    }

    function FindById(id: string): (r: Option<CategoryDetail>)
      reads this, catalog
      ensures r.Some? <==> ValidObjectId(id) && Canonical(id) in categories
      ensures r.Some? ==> r.value.category == categories[Canonical(id)]
                          && r.value.products == catalog.FindByCategory(Canonical(id))
    {
      match Find(categories, id)
      case None => None
      case Some(c) => Some(CategoryDetail(c, catalog.FindByCategory(Canonical(id))))
    }

    /** The `find` with `sort => name ascending` of `findAll`, done here by
        insertion: every category once, as a listing with count 0. */
    method ListByName() returns (r: seq<CategoryListing>)
      requires Valid()
      ensures SortedByName(r)
      ensures forall k :: 0 <= k < |r| ==>
        r[k].id in categories && r[k].category == categories[r[k].id] && r[k].productCount == 0
      ensures forall id :: id in categories ==> exists k :: 0 <= k < |r| && r[k].id == id
    {
      var remaining := categories.Keys;
      r := [];
      while remaining != {}
        invariant remaining <= categories.Keys
        invariant ListsSorted(r, categories, categories.Keys - remaining)
        decreases remaining
      {
        var id :| id in remaining;
        InsertStep(r, categories, categories.Keys - remaining, id);
        assert (categories.Keys - remaining) + {id} == categories.Keys - (remaining - {id});
        r := InsertByName(r, CategoryListing(id, categories[id], 0));
        remaining := remaining - {id};
      }
      assert categories.Keys - remaining == categories.Keys;
    }

    /** `findAll`: every category, sorted by name, each with the number of
        products that reference it, written into the entries one by one. */
    method FindAll() returns (r: seq<CategoryListing>)
      requires Valid()
      ensures SortedByName(r)
      ensures forall k :: 0 <= k < |r| ==>
        && r[k].id in categories
        && r[k].category == categories[r[k].id]
        && r[k].productCount == catalog.CountByCategory(r[k].id)
      ensures forall id :: id in categories ==> exists k :: 0 <= k < |r| && r[k].id == id
    {
      r := ListByName();
      ghost var listed := r;
      var i := 0;
      while i < |r|
        invariant 0 <= i <= |r| == |listed|
        invariant forall k :: 0 <= k < |r| ==> r[k].id == listed[k].id
        invariant SortedByName(r)
        invariant forall k :: 0 <= k < |r| ==> r[k].id in categories && r[k].category == categories[r[k].id]
        invariant forall k :: 0 <= k < i ==> r[k].productCount == catalog.CountByCategory(r[k].id)
      {
        r := r[i := r[i].(productCount := catalog.CountByCategory(r[i].id))];
        i := i + 1;
      }
    }

    /** `update`: sets the supplied name and description and updatedAt and
        answers true iff the id matched. A malformed id, or a name another
        category holds (the duplicate-key error), gives false and changes
        nothing. */
    method Update(id: string, name: Option<string>, description: Option<string>, now: int)
      returns (ok: bool)
      requires Valid()
      modifies this
      ensures Valid()
      ensures ok <==> ValidObjectId(id) && Canonical(id) in old(categories)
                      && !(name.Some? && old(NameTaken(name.value, Canonical(id))))
      ensures ok ==> var c := old(categories)[Canonical(id)];
                     categories == old(categories)[Canonical(id) := Category(
                       name.GetOr(c.name), description.GetOr(c.description), c.createdAt, now)]
      ensures !ok ==> categories == old(categories)
    {
      var key := Canonical(id);
      if !ValidObjectId(id) || key !in categories {
        return false;
      }
      if name.Some? && NameTaken(name.value, key) {
        return false;
      }
      var c := categories[key].(updatedAt := now);
      if name.Some? { c := c.(name := name.value); }
      if description.Some? { c := c.(description := description.value); }
      categories := categories[key := c];
      ok := true;
    }

    /** `delete`: refuses while any product references the category, then
        lets the driver reject a malformed id, and otherwise answers whether
        a category was removed. After a successful delete no product
        references the id as given. */
    method Delete(id: string) returns (r: Result<bool, DeleteError>)
      requires Valid()
      modifies this
      ensures Valid()
      ensures catalog.CountByCategory(id) > 0 ==> r == Err(HasProducts)
      ensures catalog.CountByCategory(id) == 0 && !ValidObjectId(id) ==> r == Err(MalformedId)
      ensures catalog.CountByCategory(id) == 0 && ValidObjectId(id) ==> r == Ok(Canonical(id) in old(categories))
      ensures categories == if r == Ok(true) then old(categories) - {Canonical(id)} else old(categories)
      ensures r.Ok? ==> forall p :: p in catalog.products ==> catalog.products[p].category != id
    {
      if catalog.CountByCategory(id) > 0 {
        return Err(HasProducts);
      }
      CountPositiveIff(catalog.products, id);
      if !ValidObjectId(id) {
        return Err(MalformedId);
      }
      var removed := Canonical(id) in categories;
      categories := categories - {Canonical(id)};
      r := Ok(removed);
    }
  }
}
