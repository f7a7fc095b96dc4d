/** controllers/CategoryController.php: the category endpoints over the
    category model. */
module CategoryApi {
  import opened Common
  import opened Text
  import opened Validator
  import opened Products
  import opened Categories

  /** A category as the API returns it, with its string id. */
  datatype CategoryView = CategoryView(id: Id, category: Category)

  /** A category with the products that reference it, as `getById`
      returns it. */
  datatype DetailView = DetailView(id: Id, detail: CategoryDetail)

  /** The body of `getAll`: the listing and its length. */
  datatype CategoryList = CategoryList(categories: seq<CategoryListing>, total: int)

  /** The data `create` hands to the model once `name` is present: the
      sanitised name, and the sanitised description or ''. */
  function CreateCheck(data: Body, rt: Runtime): (r: Result<(string, string), Response<CategoryView>>)
    ensures r.Err? <==> !IsSet(data, "name") || Blank(data["name"])
    ensures r.Err? ==> r == Err(Response(400, "Validation failed", map["name" := "Name is required"], None))
    ensures r.Ok? ==> && r.value.0 == rt.sanitize(AsText(data["name"]))
                      && r.value.1 == (if IsSet(data, "description") then rt.sanitize(AsText(data["description"])) else "")
  {
    var errors := RequiredErrors(data, ["name"]);
    RequiredErrorsSingle(data, "name");
    if errors != map[] then
      assert Ucfirst("name") == "Name";
      assert Required("name") == "Name is required";
      Err(Response(400, "Validation failed", errors, None))
    else
      Ok((rt.sanitize(AsText(data["name"])),
          if IsSet(data, "description") then rt.sanitize(AsText(data["description"])) else ""))
  }

  class CategoryController {
    const model: CategoryModel

    constructor (model: CategoryModel)
      ensures this.model == model
    {
      this.model := model;
    }

    /** `getAll`: the sorted listing with product counts, and its length
        as `total`. */
    method GetAll() returns (r: Response<CategoryList>)
      requires model.Valid()
      ensures r.code == 200 && r.data.Some?
      ensures var list := r.data.value;
        && list.total == |list.categories|
        && SortedByName(list.categories)
        && (forall k :: 0 <= k < |list.categories| ==>
              && list.categories[k].id in model.categories
              && list.categories[k].category == model.categories[list.categories[k].id]
              && list.categories[k].productCount == model.catalog.CountByCategory(list.categories[k].id))
        && (forall id :: id in model.categories ==> exists k :: 0 <= k < |list.categories| && list.categories[k].id == id)
    {
      var listed := model.FindAll();
      r := Response(200, "", map[], Some(CategoryList(listed, |listed|)));
    }

    /** `getById`: 404 "Category not found", or the category with its
        products. */
    function GetById(id: string): (r: Response<DetailView>)
      reads this, model, model.catalog
      ensures r.code == 200 <==> ValidObjectId(id) && Canonical(id) in model.categories
      ensures r.code != 200 ==> r == Fail(404, "Category not found")
      ensures r.code == 200 ==> r.data == Some(DetailView(Canonical(id), CategoryDetail(model.categories[Canonical(id)], model.catalog.FindByCategory(Canonical(id)))))
    {
      match model.FindById(id)
      case None => Fail(404, "Category not found")
      case Some(d) => Response(200, "", map[], Some(DetailView(Canonical(id), d)))
    }

    /** `create`: 400 without a name; the model's duplicate-name error as
        400 with its message; otherwise 201. */
    method Create(data: Body, newId: Id, now: int, rt: Runtime) returns (r: Response<CategoryView>)
      requires model.Valid() && LowerId(newId) && newId !in model.categories
      modifies model
      ensures model.Valid()
      ensures CreateCheck(data, rt).Err? ==> r == CreateCheck(data, rt).error && model.categories == old(model.categories)
      ensures CreateCheck(data, rt).Ok? ==>
        var (name, description) := CreateCheck(data, rt).value;
        && (old(model.NameTaken(name, newId)) ==>
              r == Fail(400, "Category name already exists") && model.categories == old(model.categories))
        && (!old(model.NameTaken(name, newId)) ==>
              && model.categories == old(model.categories)[newId := Category(name, description, now, now)]
              && r == Response(201, "Category created successfully", map[], Some(CategoryView(newId, model.categories[newId]))))
    {
      var check := CreateCheck(data, rt);
      if check.Err? {
        return check.error;
      }
      var result := model.Create(check.value.0, Some(check.value.1), newId, now);
      match result
      case Err(message) =>
        r := Fail(400, message);
      case Ok(c) =>
        r := Response(201, "Category created successfully", map[], Some(CategoryView(newId, c)));
    }

    /** `update`: 404 for an unknown category; otherwise the set name and
        description are forwarded and 200 is answered with the re-read
        category, whether or not the model's update succeeded (a duplicate
        name leaves the category as it was). */
    method Update(id: string, data: Body, now: int, rt: Runtime) returns (r: Response<DetailView>)
      requires model.Valid()
      modifies model
      ensures model.Valid()
      ensures !(ValidObjectId(id) && Canonical(id) in old(model.categories)) ==>
        r == Fail(404, "Category not found") && model.categories == old(model.categories)
      ensures ValidObjectId(id) && Canonical(id) in old(model.categories) ==>
        var name := if IsSet(data, "name") then Some(rt.sanitize(AsText(data["name"]))) else None;
        var description := if IsSet(data, "description") then Some(rt.sanitize(AsText(data["description"]))) else None;
        var c := old(model.categories)[Canonical(id)];
        && model.categories == (if name.Some? && old(model.NameTaken(name.value, Canonical(id))) then old(model.categories)
                                else old(model.categories)[Canonical(id) := Category(name.GetOr(c.name), description.GetOr(c.description), c.createdAt, now)])
        && r == Response(200, "Category updated successfully", map[], Some(DetailView(Canonical(id),
                 CategoryDetail(model.categories[Canonical(id)], model.catalog.FindByCategory(Canonical(id))))))
    {
      if model.FindById(id).None? {
        return Fail(404, "Category not found");
      }
      var name := if IsSet(data, "name") then Some(rt.sanitize(AsText(data["name"]))) else None;
      var description := if IsSet(data, "description") then Some(rt.sanitize(AsText(data["description"]))) else None;
      var _ := model.Update(id, name, description, now);
      var updated := model.FindById(id);
      r := Response(200, "Category updated successfully", map[], Some(DetailView(Canonical(id), updated.value)));
    }

    /** `delete`: 404 for an unknown category; 400 with the guard's message
        while products reference it; otherwise removal and 200. */
    method Delete(id: string) returns (r: Response<CategoryView>)
      requires model.Valid()
      modifies model
      ensures model.Valid()
      ensures !(ValidObjectId(id) && Canonical(id) in old(model.categories)) ==>
        r == Fail(404, "Category not found") && model.categories == old(model.categories)
      ensures ValidObjectId(id) && Canonical(id) in old(model.categories) && model.catalog.CountByCategory(id) > 0 ==>
        r == Fail(400, "Cannot delete category with existing products") && model.categories == old(model.categories)
      ensures ValidObjectId(id) && Canonical(id) in old(model.categories) && model.catalog.CountByCategory(id) == 0 ==>
        r == Response(200, "Category deleted successfully", map[], None) && model.categories == old(model.categories) - {Canonical(id)}
    {
      if model.FindById(id).None? {
        return Fail(404, "Category not found");
      }
      var result := model.Delete(id);
      if result.Err? {
        return Fail(400, "Cannot delete category with existing products");
      }
      r := Response(200, "Category deleted successfully", map[], None);
    }
  }
}
