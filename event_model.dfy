/**
  The Event collection: the stored document, the schema's required and default
  rules applied by `Event.create`, and the populated shape in which the
  organizer and category references are replaced by short summaries.
*/
module EventModel {
  import opened Wrappers
  import opened Schema

  /** A stored Event document; `category` and `organizer` hold the referenced `_id`s. */
  datatype Event = Event(
    id: Id,
    title: string,
    description: string,
    location: string,
    createdAt: Time,
    imageUrl: string,
    startDateTime: Time,
    endDateTime: Time,
    price: Option<string>,
    isFree: bool,
    url: Option<string>,
    category: Id,
    organizer: Id)

  /** The paths handed to `Event.create`; None is a path left unset. */
  datatype EventDoc = EventDoc(
    title: Option<string>,
    description: Option<string>,
    location: Option<string>,
    createdAt: Option<Time>,
    imageUrl: Option<string>,
    startDateTime: Option<Time>,
    endDateTime: Option<Time>,
    price: Option<string>,
    isFree: Option<bool>,
    url: Option<string>,
    category: Option<Id>,
    organizer: Option<Id>)

  /** The category reference as `populate('category', '_id name')` materialises it. */
  datatype CategorySummary = CategorySummary(id: Id, name: string)

  /** The organizer reference as `populate('organizer', '_id firstName lastName')` materialises it. */
  datatype OrganizerSummary = OrganizerSummary(id: Id, firstName: string, lastName: Option<string>)

  /** An Event with both references populated; a reference to no document populates to null (None). */
  datatype PopulatedEvent = PopulatedEvent(
    id: Id,
    title: string,
    description: string,
    location: string,
    createdAt: Time,
    imageUrl: string,
    startDateTime: Time,
    endDateTime: Time,
    price: Option<string>,
    isFree: bool,
    url: Option<string>,
    category: Option<CategorySummary>,
    organizer: Option<OrganizerSummary>)

  predicate UniqueIds(events: seq<Event>)
  {
    forall i, j :: 0 <= i < j < |events| ==> events[i].id != events[j].id
  }

  /** Appending an event whose id is fresh keeps the ids unique. */
  lemma AppendKeepsUniqueIds(events: seq<Event>, e: Event)
    requires UniqueIds(events) && forall x :: x in events ==> x.id != e.id
    ensures UniqueIds(events + [e])
  {
    var s := events + [e];
    forall i, j | 0 <= i < j < |s| ensures s[i].id != s[j].id {
      assert s[i] == events[i];
      if j < |events| {
        assert s[j] == events[j];
      }
    }
  }

  /** The required paths a document leaves missing, each named once, in schema order. */
  function MissingPaths(d: EventDoc): (r: seq<string>)
    ensures r == [] <==>
      && Required(d.title) && Required(d.description) && Required(d.location)
      && Required(d.imageUrl) && RequiredRef(d.category) && RequiredRef(d.organizer)
    ensures |r| <= 6
    ensures ("title" in r <==> !Required(d.title)) && ("description" in r <==> !Required(d.description))
    ensures ("location" in r <==> !Required(d.location)) && ("imageUrl" in r <==> !Required(d.imageUrl))
    ensures ("category" in r <==> !RequiredRef(d.category)) && ("organizer" in r <==> !RequiredRef(d.organizer))
    ensures forall x :: x in r ==> x in ["title", "description", "location", "imageUrl", "category", "organizer"]
  {
    MissingText(d) + MissingRefs(d)
  }

  /** The missing String paths among title, description, location and imageUrl. */
  function MissingText(d: EventDoc): (r: seq<string>)
    ensures r == [] <==> Required(d.title) && Required(d.description) && Required(d.location) && Required(d.imageUrl)
    ensures |r| <= 4
    ensures ("title" in r <==> !Required(d.title)) && ("description" in r <==> !Required(d.description))
    ensures ("location" in r <==> !Required(d.location)) && ("imageUrl" in r <==> !Required(d.imageUrl))
    ensures forall x :: x in r ==> x in ["title", "description", "location", "imageUrl"]
  {
    Unless(Required(d.title), "title") +
    (Unless(Required(d.description), "description") +
    (Unless(Required(d.location), "location") +
    Unless(Required(d.imageUrl), "imageUrl")))
  }

  /** The missing reference paths among category and organizer. */
  function MissingRefs(d: EventDoc): (r: seq<string>)
    ensures r == [] <==> RequiredRef(d.category) && RequiredRef(d.organizer)
    ensures |r| <= 2
    ensures ("category" in r <==> !RequiredRef(d.category)) && ("organizer" in r <==> !RequiredRef(d.organizer))
    ensures forall x :: x in r ==> x in ["category", "organizer"]
  {
    Unless(RequiredRef(d.category), "category") + Unless(RequiredRef(d.organizer), "organizer")
  }

  /**
    Validation and defaults of `Event.create` at time `now`. It fails exactly
    when one of title, description, location, imageUrl, category or organizer
    is missing (or an empty string). Otherwise the given paths are kept, an
    unset price or url is null, an unset isFree is false, and an unset
    createdAt, startDateTime or endDateTime is the insertion time.
  */
  function NewEvent(d: EventDoc, id: Id, now: Time): (r: Result<Event, Error>)
    ensures r.Success? <==>
      && Required(d.title) && Required(d.description) && Required(d.location)
      && Required(d.imageUrl) && d.category.Some? && d.organizer.Some?
    ensures r.Failure? ==> r.error == ValidationError(MissingPaths(d)) && r.error.paths != []
    ensures r.Success? ==>
      && r.value.id == id
      && r.value.title == d.title.value && r.value.description == d.description.value
      && r.value.location == d.location.value && r.value.imageUrl == d.imageUrl.value
      && r.value.category == d.category.value && r.value.organizer == d.organizer.value
    ensures r.Success? ==> r.value.price == d.price && r.value.url == d.url
    ensures r.Success? ==> (r.value.isFree <==> d.isFree == Some(true))
    ensures r.Success? ==>
      && (d.createdAt.None? ==> r.value.createdAt == now)
      && (d.startDateTime.None? ==> r.value.startDateTime == now)
      && (d.endDateTime.None? ==> r.value.endDateTime == now)
      && (d.createdAt.Some? ==> r.value.createdAt == d.createdAt.value)
      && (d.startDateTime.Some? ==> r.value.startDateTime == d.startDateTime.value)
      && (d.endDateTime.Some? ==> r.value.endDateTime == d.endDateTime.value)
  {
    var missing := MissingPaths(d);
    if missing != [] then Failure(ValidationError(missing))
    else Success(Event(
      id, d.title.value, d.description.value, d.location.value,
      Given(d.createdAt, now), d.imageUrl.value,
      Given(d.startDateTime, now), Given(d.endDateTime, now),
      d.price, Given(d.isFree, false), d.url,
      d.category.value, d.organizer.value))
  }
}
