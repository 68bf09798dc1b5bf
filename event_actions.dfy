/**
  The write side of the event service: `createEvent`, `updateEvent` and
  `deleteEvent`, each one atomic call against the store.
*/
module EventActions {
  import opened Wrappers
  import opened Schema
  import opened Seqs
  import opened UserModel
  import opened CategoryModel
  import opened EventModel
  import opened EventQueries
  import opened Store

  /** The event form a caller sends (`event` of CreateEventParams / UpdateEventParams); None is unset. */
  datatype EventParams = EventParams(
    title: Option<string>,
    description: Option<string>,
    location: Option<string>,
    imageUrl: Option<string>,
    startDateTime: Option<Time>,
    endDateTime: Option<Time>,
    categoryId: Option<Id>,
    price: Option<string>,
    isFree: Option<bool>,
    url: Option<string>)

  /**
    The document createEvent hands to `Event.create`:
    `{ ...event, price: event.price || null, category: event.categoryId, organizer: userId }`.
    An empty or unset price becomes null; `categoryId` itself is not a schema path.
  */
  function CreationDoc(event: EventParams, userId: Id): (d: EventDoc)
    ensures d.organizer == Some(userId) && d.category == event.categoryId && d.createdAt.None?
    ensures d.title == event.title && d.description == event.description
    ensures d.location == event.location && d.imageUrl == event.imageUrl
    ensures d.startDateTime == event.startDateTime && d.endDateTime == event.endDateTime
    ensures d.isFree == event.isFree && d.url == event.url
    ensures d.price.None? <==> event.price.None? || event.price == Some("")
    ensures d.price.Some? ==> d.price == event.price
  {
    EventDoc(event.title, event.description, event.location, None, event.imageUrl,
             event.startDateTime, event.endDateTime,
             if event.price.Some? && event.price.value != "" then event.price else None,
             event.isFree, event.url, event.categoryId, Some(userId))
  }

  /**
    `createEvent`: fails with "Organizer not found", storing nothing, when no
    user has `userId`; otherwise the schema's validation and defaults decide
    (time `now` stands for `Date.now`). A stored event is appended with a fresh
    `_id`, organizer `userId`, category `categoryId` and a null price for an
    empty or unset one. No path is revalidated, whatever the outcome.
  */
  method CreateEvent(db: Database, userId: Id, event: EventParams, path: string, now: Time)
    returns (r: Result<Event, Error>)
    requires db.Valid()
    modifies db
    ensures db.Valid()
    ensures db.users == old(db.users) && db.categories == old(db.categories)
    ensures db.revalidated == old(db.revalidated)
    ensures !HasUser(old(db.users), userId) ==> r == Failure(OrganizerNotFound)
    ensures HasUser(old(db.users), userId) ==> r == NewEvent(CreationDoc(event, userId), old(db.nextId), now)
    ensures r.Success? ==>
      && r.value.organizer == userId && event.categoryId == Some(r.value.category) && r.value.createdAt == now
      && (r.value.price.None? <==> event.price.None? || event.price == Some(""))
    ensures r.Success? ==>
      && db.events == old(db.events) + [r.value] && db.nextId == old(db.nextId) + 1
      && forall e :: e in old(db.events) ==> e.id != r.value.id
    ensures r.Failure? ==> db.events == old(db.events) && db.nextId == old(db.nextId)
  {
    var organizer := FindFirst(db.users, UserWithId(userId));
    if organizer.None? {
      r := Failure(OrganizerNotFound);
    } else {
      assert HasUser(db.users, userId) by {
        assert organizer.value in db.users && organizer.value.id == userId;
      }
      r := NewEvent(CreationDoc(event, userId), db.nextId, now);
      if r.Success? {
        db.InsertEvent(r.value);
      }
    }
  }

  function OtherThan(eventId: Id): Event -> bool { (e: Event) => e.id != eventId }

  /** Keeping some of the events keeps their ids unique. */
  lemma {:induction false} FilterKeepsUniqueIds(events: seq<Event>, p: Event -> bool)
    requires UniqueIds(events)
    ensures UniqueIds(Filter(events, p))
  {
    if events != [] {
      var rest := events[1..];
      assert UniqueIds(rest) by {
        forall i, j | 0 <= i < j < |rest| ensures rest[i].id != rest[j].id {
          assert rest[i] == events[i + 1] && rest[j] == events[j + 1];
        }
      }
      FilterKeepsUniqueIds(rest, p);
      var kept := Filter(rest, p);
      forall x | x in kept ensures x.id != events[0].id {
        var k :| 0 <= k < |rest| && rest[k] == x;
        assert events[k + 1] == x;
      }
      if p(events[0]) {
        assert Filter(events, p) == [events[0]] + kept;
        ConsKeepsUniqueIds(events[0], kept);
      } else {
        assert Filter(events, p) == kept;
      }
    }
  }

  lemma ConsKeepsUniqueIds(x: Event, rest: seq<Event>)
    requires UniqueIds(rest) && forall y :: y in rest ==> y.id != x.id
    ensures UniqueIds([x] + rest)
  {
    var r := [x] + rest;
    forall i, j | 0 <= i < j < |r| ensures r[i].id != r[j].id {
      assert r[j] == rest[j - 1] && rest[j - 1] in rest;
      if i > 0 {
        assert r[i] == rest[i - 1];
      }
    }
  }

  /**
    `deleteEvent`: `findByIdAndDelete(eventId)` removes the event with that id
    and no other, and revalidates `path` only when something was deleted; an
    unknown id leaves the store as it was.
  */
  method DeleteEvent(db: Database, eventId: Id, path: string)
    requires db.Valid()
    modifies db
    ensures db.Valid()
    ensures db.users == old(db.users) && db.categories == old(db.categories) && db.nextId == old(db.nextId)
    ensures db.events == Filter(old(db.events), OtherThan(eventId))
    ensures forall e :: e in db.events <==> e in old(db.events) && e.id != eventId
    ensures (exists e :: e in old(db.events) && e.id == eventId) ==> db.revalidated == old(db.revalidated) + [path]
    ensures (forall e :: e in old(db.events) ==> e.id != eventId) ==>
      db.events == old(db.events) && db.revalidated == old(db.revalidated)
  {
    var deleted := FindFirst(db.events, EventWithId(eventId));
    FilterKeepsUniqueIds(db.events, OtherThan(eventId));
    db.events := Filter(db.events, OtherThan(eventId));
    if deleted.Some? {
      db.revalidated := db.revalidated + [path];
    }
  }

  /**
    After a delete the id reads back as "Event not found", and every other
    event reads back exactly as before.
  */
  lemma {:induction false} DeleteAffectsOnlyItsId(
    events: seq<Event>, users: seq<User>, categories: seq<Category>, eventId: Id, otherId: Id)
    requires UniqueIds(events) && otherId != eventId
    ensures GetEventById(Filter(events, OtherThan(eventId)), users, categories, eventId) == Failure(EventNotFound)
    ensures GetEventById(Filter(events, OtherThan(eventId)), users, categories, otherId)
         == GetEventById(events, users, categories, otherId)
  {
    var after := Filter(events, OtherThan(eventId));
    if e :| e in events && e.id == otherId {
      FindEventById(events, e);
      FilterKeepsUniqueIds(events, OtherThan(eventId));
      FindEventById(after, e);
    }
  }

  /**
    `findByIdAndUpdate(id, { ...event, category: event.categoryId })`: every
    given path overwrites the stored one and every unset path is kept. No
    validator runs, and price is stored as given (an empty price stays "").
  */
  function ApplyUpdate(e: Event, event: EventParams): (u: Event)
    ensures u.id == e.id && u.organizer == e.organizer && u.createdAt == e.createdAt
    ensures event.title.Some? ==> u.title == event.title.value
    ensures event.title.None? ==> u.title == e.title
    ensures event.description.Some? ==> u.description == event.description.value
    ensures event.description.None? ==> u.description == e.description
    ensures event.location.Some? ==> u.location == event.location.value
    ensures event.location.None? ==> u.location == e.location
    ensures event.imageUrl.Some? ==> u.imageUrl == event.imageUrl.value
    ensures event.imageUrl.None? ==> u.imageUrl == e.imageUrl
    ensures event.startDateTime.Some? ==> u.startDateTime == event.startDateTime.value
    ensures event.startDateTime.None? ==> u.startDateTime == e.startDateTime
    ensures event.endDateTime.Some? ==> u.endDateTime == event.endDateTime.value
    ensures event.endDateTime.None? ==> u.endDateTime == e.endDateTime
    ensures event.categoryId.Some? ==> u.category == event.categoryId.value
    ensures event.categoryId.None? ==> u.category == e.category
    ensures event.price.Some? ==> u.price == event.price
    ensures event.price.None? ==> u.price == e.price
    ensures event.isFree.Some? ==> u.isFree == event.isFree.value
    ensures event.isFree.None? ==> u.isFree == e.isFree
    ensures event.url.Some? ==> u.url == event.url
    ensures event.url.None? ==> u.url == e.url
  {
    e.(title := Given(event.title, e.title),
       description := Given(event.description, e.description),
       location := Given(event.location, e.location),
       imageUrl := Given(event.imageUrl, e.imageUrl),
       startDateTime := Given(event.startDateTime, e.startDateTime),
       endDateTime := Given(event.endDateTime, e.endDateTime),
       category := Given(event.categoryId, e.category),
       price := if event.price.Some? then event.price else e.price,
       isFree := Given(event.isFree, e.isFree),
       url := if event.url.Some? then event.url else e.url)
  }

  /** The stored events with the one whose id is `u.id` replaced by `u`, every other one as it was. */
  function ReplaceById(events: seq<Event>, u: Event): (r: seq<Event>)
    ensures |r| == |events|
    ensures forall i :: 0 <= i < |r| ==> r[i] == if events[i].id == u.id then u else events[i]
  {
    seq(|events|, i requires 0 <= i < |events| => if events[i].id == u.id then u else events[i])
  }

  /** Replacing an event by one with the same id keeps the ids unique. */
  lemma ReplaceKeepsUniqueIds(events: seq<Event>, u: Event)
    requires UniqueIds(events)
    ensures UniqueIds(ReplaceById(events, u))
  {
    var after := ReplaceById(events, u);
    forall i, j | 0 <= i < j < |after| ensures after[i].id != after[j].id {
      assert after[i].id == events[i].id && after[j].id == events[j].id;
    }
  }

  /** After an update the event reads back as the updated document. */
  lemma {:induction false} UpdatedEventReadsBack(
    events: seq<Event>, users: seq<User>, categories: seq<Category>, u: Event)
    requires UniqueIds(events) && exists e :: e in events && e.id == u.id
    ensures GetEventById(ReplaceById(events, u), users, categories, u.id) == Success(Populate(u, users, categories))
  {
    ReplaceKeepsUniqueIds(events, u);
    var k :| 0 <= k < |events| && events[k].id == u.id;
    assert ReplaceById(events, u)[k] == u;
    FindEventById(ReplaceById(events, u), u);
  }

  /** An update touches only its own id: every other event reads back exactly as before. */
  lemma {:induction false} UpdateLeavesOthers(
    events: seq<Event>, users: seq<User>, categories: seq<Category>, u: Event, otherId: Id)
    requires UniqueIds(events) && otherId != u.id
    ensures GetEventById(ReplaceById(events, u), users, categories, otherId)
         == GetEventById(events, users, categories, otherId)
  {
    var after := ReplaceById(events, u);
    ReplaceKeepsUniqueIds(events, u);
    if e :| e in events && e.id == otherId {
      var j :| 0 <= j < |events| && events[j] == e;
      assert after[j] == e;
      FindEventById(events, e);
      FindEventById(after, e);
    } else {
      forall x | x in after ensures x.id != otherId {
        var i :| 0 <= i < |after| && after[i] == x;
      }
    }
  }

  /**
    `updateEvent`: fails with "Unauthorized or event not found", changing
    nothing and revalidating nothing, unless an event with the id exists and
    `userId` is its organizer. Then that event, and no other, is overwritten
    by the given paths (category from `categoryId`), `path` is revalidated and
    the post-update document is returned.
  */
  method UpdateEvent(db: Database, userId: Id, eventId: Id, event: EventParams, path: string)
    returns (r: Result<Event, Error>)
    requires db.Valid()
    modifies db
    ensures db.Valid()
    ensures db.users == old(db.users) && db.categories == old(db.categories) && db.nextId == old(db.nextId)
    ensures r.Failure? <==> forall e :: e in old(db.events) && e.id == eventId ==> e.organizer != userId
    ensures r.Failure? ==>
      r.error == Unauthorized && db.events == old(db.events) && db.revalidated == old(db.revalidated)
    ensures r.Success? ==>
      exists e :: e in old(db.events) && e.id == eventId && e.organizer == userId && r.value == ApplyUpdate(e, event)
    ensures r.Success? ==>
      db.events == ReplaceById(old(db.events), r.value) && db.revalidated == old(db.revalidated) + [path]
  {
    var found := FindFirst(db.events, EventWithId(eventId));
    if found.None? || found.value.organizer != userId {
      if found.Some? {
        FindEventById(db.events, found.value);
      }
      r := Failure(Unauthorized);
    } else {
      var updated := ApplyUpdate(found.value, event);
      var before := db.events;
      ReplaceKeepsUniqueIds(before, updated);
      db.events := ReplaceById(db.events, updated);
      assert forall x :: x in db.events ==> x == updated || x in before by {
        forall x | x in db.events ensures x == updated || x in before {
          var i :| 0 <= i < |db.events| && db.events[i] == x;
        }
      }
      db.revalidated := db.revalidated + [path];
      r := Success(updated);
    }
  }
}
