/** The category service: `createCategory` and `getAllCategories`. */
module CategoryActions {
  import opened Wrappers
  import opened Schema
  import opened CategoryModel
  import opened Store

  /**
    `createCategory({ categoryName })`: `Category.create({ name })`. An empty
    name fails validation, a name already stored (compared exactly) fails the
    unique index; either way nothing is stored. Otherwise exactly one new
    category, named `categoryName` and with a fresh `_id`, is appended and returned.
  */
  method CreateCategory(db: Database, categoryName: string) returns (r: Result<Category, Error>)
    requires db.Valid()
    modifies db
    ensures db.Valid()
    ensures db.users == old(db.users) && db.events == old(db.events) && db.revalidated == old(db.revalidated)
    ensures r.Success? <==> categoryName != "" && forall c :: c in old(db.categories) ==> c.name != categoryName
    ensures categoryName == "" ==> r == Failure(ValidationError(["name"]))
    ensures categoryName != "" && (exists c :: c in old(db.categories) && c.name == categoryName) ==>
      r == Failure(DuplicateKey("name"))
    ensures r.Success? ==>
      && r.value.name == categoryName
      && (forall c :: c in old(db.categories) ==> c.id != r.value.id)
      && db.categories == old(db.categories) + [r.value] && db.nextId == old(db.nextId) + 1
    ensures r.Failure? ==> db.categories == old(db.categories) && db.nextId == old(db.nextId)
  {
    r := NewCategory(categoryName, db.nextId);
    if r.Success? {
      if exists c :: c in db.categories && c.name == categoryName {
        r := Failure(DuplicateKey("name"));
      } else {
        CategoryModel.AppendKeepsInvariant(db.categories, r.value);
        db.categories := db.categories + [r.value];
        db.nextId := db.nextId + 1;
      }
    }
  }

  /** `getAllCategories`: every stored category, in natural order, with no filter. */
  function GetAllCategories(categories: seq<Category>): (r: seq<Category>)
    ensures r == categories
  {
    categories
  }

  /**
    A category created under a fresh name is listed by `getAllCategories`
    exactly once afterwards.
  */
  lemma {:induction false} CreatedCategoryListedOnce(categories: seq<Category>, c: Category)
    requires TableInvariant(categories) && c.name != ""
    requires forall d :: d in categories ==> d.id != c.id && d.name != c.name
    ensures CountNamed(GetAllCategories(categories + [c]), c.name) == 1
  {
    CategoryModel.AppendKeepsInvariant(categories, c);
    NameStoredAtMostOnce(categories + [c], c.name);
    assert c in categories + [c];
  }
}
