/**
  The document store the services run against: the User, Category and Event
  collections in natural (insertion) order, the source of fresh `_id`s, and a
  record of the paths whose cached rendering was revalidated.
*/
module Store {
  import opened Wrappers
  import opened Schema
  import opened UserModel
  import opened CategoryModel
  import opened EventModel

  class Database {
    var users: seq<User>
    var categories: seq<Category>
    var events: seq<Event>
    /** Every `_id` handed out so far is below this one. */
    var nextId: nat
    /** The `revalidatePath` calls made so far, oldest first. */
    ghost var revalidated: seq<string>

    /**
      What the schemas and the services keep true of the store: the user and
      category invariants, unique event ids, every event's organizer exists
      (checked by createEvent, and users are never removed), and `nextId` is fresh.
      Event documents are validated only when inserted, because updates do not
      run validators.
    */
    ghost predicate Valid()
      reads this
    {
      && UserModel.TableInvariant(users)
      && CategoryModel.TableInvariant(categories)
      && UniqueIds(events)
      && (forall e :: e in events ==> HasUser(users, e.organizer))
      && (forall u :: u in users ==> u.id < nextId)
      && (forall c :: c in categories ==> c.id < nextId)
      && (forall e :: e in events ==> e.id < nextId)
    }

    constructor ()
      ensures Valid()
      ensures users == [] && categories == [] && events == [] && revalidated == []
    {
      users, categories, events, nextId := [], [], [], 0;
      revalidated := [];
    }

    /**
      `User.create(fields)`: validation first (ValidationError when a required
      path is missing), then the unique indexes (DuplicateKey when clerkId,
      email or username is taken); only a document that passes both is stored.
    */
    method InsertUser(fields: UserFields) returns (r: Result<User, Error>)
      requires Valid()
      modifies this
      ensures Valid()
      ensures categories == old(categories) && events == old(events) && revalidated == old(revalidated)
      ensures NewUser(fields, old(nextId)).Failure? ==> r == NewUser(fields, old(nextId))
      ensures NewUser(fields, old(nextId)).Success? && DuplicatePath(old(users), NewUser(fields, old(nextId)).value).Some? ==>
        r == Failure(DuplicateKey(DuplicatePath(old(users), NewUser(fields, old(nextId)).value).value))
      ensures NewUser(fields, old(nextId)).Success? && DuplicatePath(old(users), NewUser(fields, old(nextId)).value).None? ==>
        r == NewUser(fields, old(nextId))
      ensures r.Success? ==> r.value == NewUser(fields, old(nextId)).value
      ensures r.Success? ==> users == old(users) + [r.value] && nextId == old(nextId) + 1
      ensures r.Success? ==> forall u :: u in old(users) ==> !Clash(u, r.value)
      ensures r.Failure? ==> users == old(users) && nextId == old(nextId)
    {
      r := NewUser(fields, nextId);
      if r.Success? {
        var taken := DuplicatePath(users, r.value);
        if taken.Some? {
          r := Failure(DuplicateKey(taken.value));
        } else {
          UserModel.AppendKeepsInvariant(users, r.value);
          users := users + [r.value];
          nextId := nextId + 1;
        }
      }
    }

    /**
      Stores an event that passed validation under the next fresh `_id`; its
      organizer must already be a user.
    */
    method InsertEvent(e: Event)
      requires Valid() && e.id == nextId && HasUser(users, e.organizer)
      modifies this
      ensures Valid()
      ensures events == old(events) + [e] && nextId == old(nextId) + 1
      ensures forall x :: x in old(events) ==> x.id != e.id
      ensures users == old(users) && categories == old(categories) && revalidated == old(revalidated)
    {
      AppendKeepsUniqueIds(events, e);
      events := events + [e];
      nextId := nextId + 1;
    }
  }
}
