/**
  The User collection: a document shape, the schema's required and default
  rules, and the three unique indexes (clerkId, email, username).
*/
module UserModel {
  import opened Wrappers
  import opened Schema

  /** A stored User document. `lastName` is null (None) unless it was given. */
  datatype User = User(
    id: Id,
    clerkId: string,
    email: string,
    username: string,
    firstName: string,
    lastName: Option<string>,
    photo: string)

  /** The paths handed to `User.create`; None is a path left unset. */
  datatype UserFields = UserFields(
    clerkId: Option<string>,
    email: Option<string>,
    username: Option<string>,
    firstName: Option<string>,
    lastName: Option<string>,
    photo: Option<string>)

  /** A document that passed validation: every required path holds a non-empty string. */
  predicate Conforms(u: User)
  {
    u.clerkId != "" && u.email != "" && u.username != "" && u.firstName != "" && u.photo != ""
  }

  /** Two documents that one of the unique indexes (or the `_id` index) keeps apart. */
  predicate Clash(a: User, b: User)
  {
    a.id == b.id || a.clerkId == b.clerkId || a.email == b.email || a.username == b.username
  }

  /** What the schema guarantees of the stored collection. */
  ghost predicate TableInvariant(users: seq<User>)
  {
    && (forall u :: u in users ==> Conforms(u))
    && (forall i, j :: 0 <= i < j < |users| ==> !Clash(users[i], users[j]))
  }

  predicate HasUser(users: seq<User>, id: Id)
  {
    exists u :: u in users && u.id == id
  }

  /** The required paths a document leaves missing, each named once, in schema order. */
  function MissingPaths(f: UserFields): (r: seq<string>)
    ensures r == [] <==>
      Required(f.clerkId) && Required(f.email) && Required(f.username) && Required(f.firstName) && Required(f.photo)
    ensures |r| <= 5
    ensures ("clerkId" in r <==> !Required(f.clerkId)) && ("email" in r <==> !Required(f.email))
    ensures ("username" in r <==> !Required(f.username)) && ("firstName" in r <==> !Required(f.firstName))
    ensures "photo" in r <==> !Required(f.photo)
    ensures forall x :: x in r ==> x in ["clerkId", "email", "username", "firstName", "photo"]
  {
    Unless(Required(f.clerkId), "clerkId") +
    Unless(Required(f.email), "email") +
    Unless(Required(f.username), "username") +
    Unless(Required(f.firstName), "firstName") +
    Unless(Required(f.photo), "photo")
  }

  /**
    Validation and defaults of `User.create`: it fails exactly when a required
    path is missing or empty; otherwise every given path is kept and an unset
    `lastName` is null.
  */
  function NewUser(f: UserFields, id: Id): (r: Result<User, Error>)
    ensures r.Success? <==>
      Required(f.clerkId) && Required(f.email) && Required(f.username) &&
      Required(f.firstName) && Required(f.photo)
    ensures r.Failure? ==> r.error == ValidationError(MissingPaths(f)) && r.error.paths != []
    ensures r.Success? ==> Conforms(r.value) && r.value.id == id
    ensures r.Success? ==>
      && r.value.clerkId == f.clerkId.value
      && r.value.email == f.email.value
      && r.value.username == f.username.value
      && r.value.firstName == f.firstName.value
      && r.value.photo == f.photo.value
      && (f.lastName.None? ==> r.value.lastName.None?)
      && (f.lastName.Some? ==> r.value.lastName == f.lastName)
  {
    var missing := MissingPaths(f);
    if missing != [] then Failure(ValidationError(missing))
    else Success(User(id, f.clerkId.value, f.email.value, f.username.value,
                      f.firstName.value, f.lastName, f.photo.value))
  }

  /** The unique path a new document collides on first, in schema order. */
  function DuplicatePath(users: seq<User>, u: User): (r: Option<string>)
    ensures r.None? <==> forall v :: v in users ==> v.clerkId != u.clerkId && v.email != u.email && v.username != u.username
    ensures r == Some("clerkId") <==> exists v :: v in users && v.clerkId == u.clerkId
    ensures r == Some("email") <==>
      (forall v :: v in users ==> v.clerkId != u.clerkId) && exists v :: v in users && v.email == u.email
    ensures r == Some("username") <==>
      (forall v :: v in users ==> v.clerkId != u.clerkId && v.email != u.email) &&
      exists v :: v in users && v.username == u.username
    ensures r.Some? ==> r.value in ["clerkId", "email", "username"]
  {
    if exists v :: v in users && v.clerkId == u.clerkId then Some("clerkId")
    else if exists v :: v in users && v.email == u.email then Some("email")
    else if exists v :: v in users && v.username == u.username then Some("username")
    else None
  }

  /**
    The unique indexes admit a conforming document exactly when it clashes with
    no stored one: appending it keeps the invariant if and only if nothing clashes.
  */
  lemma {:induction false} AppendKeepsInvariant(users: seq<User>, u: User)
    requires TableInvariant(users) && Conforms(u)
    ensures TableInvariant(users + [u]) <==> forall v :: v in users ==> !Clash(v, u)
  {
    var s := users + [u];
    if forall v :: v in users ==> !Clash(v, u) {
      forall i, j | 0 <= i < j < |s| ensures !Clash(s[i], s[j]) {
        if j == |users| {
          assert s[i] in users;
        } else {
          assert s[i] == users[i] && s[j] == users[j];
        }
      }
    } else {
      var v :| v in users && Clash(v, u);
      var i :| 0 <= i < |users| && users[i] == v;
      assert s[i] == v && s[|users|] == u;
    }
  }
}
