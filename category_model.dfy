/** The Category collection: `_id` and a required, unique `name`. */
module CategoryModel {
  import opened Wrappers
  import opened Schema

  /** A stored Category document: exactly an `_id` and a `name`. */
  datatype Category = Category(id: Id, name: string)

  /**
    What the schema guarantees of the stored collection: every name is present
    and non-empty, and no two documents share an `_id` or (as the exact stored
    string) a `name`.
  */
  ghost predicate TableInvariant(categories: seq<Category>)
  {
    && (forall c :: c in categories ==> c.name != "")
    && (forall i, j :: 0 <= i < j < |categories| ==>
          categories[i].id != categories[j].id && categories[i].name != categories[j].name)
  }

  /** Validation of `Category.create({ name })`: the name is required. */
  function NewCategory(name: string, id: Id): (r: Result<Category, Error>)
    ensures r.Success? <==> name != ""
    ensures r.Failure? ==> r.error == ValidationError(["name"])
    ensures r.Success? ==> r.value.id == id && r.value.name == name
  {
    if name == "" then Failure(ValidationError(["name"])) else Success(Category(id, name))
  }

  /** The number of stored categories whose name is exactly `name`. */
  function CountNamed(categories: seq<Category>, name: string): (r: nat)
    ensures r == 0 <==> forall c :: c in categories ==> c.name != name
  {
    if categories == [] then 0
    else (if categories[0].name == name then 1 else 0) + CountNamed(categories[1..], name)
  }

  /** Appending a category keeps the invariant exactly when its id and name are both new. */
  lemma {:induction false} AppendKeepsInvariant(categories: seq<Category>, c: Category)
    requires TableInvariant(categories) && c.name != ""
    ensures TableInvariant(categories + [c]) <==>
      forall d :: d in categories ==> d.id != c.id && d.name != c.name
  {
    var s := categories + [c];
    if forall d :: d in categories ==> d.id != c.id && d.name != c.name {
      forall i, j | 0 <= i < j < |s| ensures s[i].id != s[j].id && s[i].name != s[j].name {
        if j == |categories| {
          assert s[i] in categories;
        } else {
          assert s[i] == categories[i] && s[j] == categories[j];
        }
      }
    } else {
      var d :| d in categories && (d.id == c.id || d.name == c.name);
      var i :| 0 <= i < |categories| && categories[i] == d;
      assert s[i] == d && s[|categories|] == c;
    }
  }

  /** Under the invariant a name is stored at most once. */
  lemma {:induction false} NameStoredAtMostOnce(categories: seq<Category>, name: string)
    requires TableInvariant(categories)
    ensures CountNamed(categories, name) <= 1
    ensures CountNamed(categories, name) == 1 <==> exists c :: c in categories && c.name == name
  {
    if categories != [] {
      var rest := categories[1..];
      assert TableInvariant(rest) by {
        forall i, j | 0 <= i < j < |rest| ensures rest[i].id != rest[j].id && rest[i].name != rest[j].name {
          assert rest[i] == categories[i + 1] && rest[j] == categories[j + 1];
        }
      }
      NameStoredAtMostOnce(rest, name);
      if categories[0].name == name {
        forall c | c in rest ensures c.name != name {
          var k :| 0 <= k < |rest| && rest[k] == c;
          assert categories[k + 1] == c;
        }
      }
      assert forall c :: c in categories <==> c == categories[0] || c in rest;
    }
  }
}
