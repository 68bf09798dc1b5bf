/**
  The read side of the event service: `populate`, `getCategoryByName`,
  `getEventById` and the three listings. Each listing builds a filter, sorts
  the accepted events by `createdAt` descending, applies skip and limit,
  populates the page and reports `Math.ceil(count / limit)` pages, where
  `count` is the number of accepted events in the whole collection.
*/
module EventQueries {
  import opened Wrappers
  import opened Schema
  import opened Seqs
  import opened Paging
  import opened UserModel
  import opened CategoryModel
  import opened EventModel

  /**
    `{ $regex: pattern, $options: 'i' }`: whether the (caller-supplied)
    regular expression `pattern` accepts a text, ignoring case. The regular
    expression engine is not modelled: every query takes this relation as a
    parameter.
  */
  type Matcher = (string, string) -> bool

  // Conditions the services look documents up by.

  function EventWithId(id: Id): Event -> bool { (e: Event) => e.id == id }

  function UserWithId(id: Id): User -> bool { (u: User) => u.id == id }

  function CategoryWithId(id: Id): Category -> bool { (c: Category) => c.id == id }

  function NameMatching(name: string, matches: Matcher): Category -> bool
  {
    (c: Category) => matches(name, c.name)
  }

  // populate('category', '_id name') and populate('organizer', '_id firstName lastName')

  /** The category summary a reference populates to: null when no category has that `_id`. */
  function CategoryRef(categories: seq<Category>, id: Id): (r: Option<CategorySummary>)
    ensures r.None? <==> forall c :: c in categories ==> c.id != id
    ensures r.Some? ==> r.value.id == id && exists c :: c in categories && c.id == id && c.name == r.value.name
  {
    match FindFirst(categories, CategoryWithId(id))
    case None => None
    case Some(c) => Some(CategorySummary(c.id, c.name))
  }

  /** The organizer summary a reference populates to: null when no user has that `_id`. */
  function OrganizerRef(users: seq<User>, id: Id): (r: Option<OrganizerSummary>)
    ensures r.None? <==> forall u :: u in users ==> u.id != id
    ensures r.Some? ==>
      r.value.id == id &&
      exists u :: u in users && u.id == id && r.value == OrganizerSummary(u.id, u.firstName, u.lastName)
  {
    match FindFirst(users, UserWithId(id))
    case None => None
    case Some(u) => Some(OrganizerSummary(u.id, u.firstName, u.lastName))
  }

  /** An event with its two references populated; every other path is carried over unchanged. */
  function Populate(e: Event, users: seq<User>, categories: seq<Category>): (p: PopulatedEvent)
    ensures p.id == e.id && p.title == e.title && p.description == e.description && p.location == e.location
    ensures p.createdAt == e.createdAt && p.imageUrl == e.imageUrl
    ensures p.startDateTime == e.startDateTime && p.endDateTime == e.endDateTime
    ensures p.price == e.price && p.isFree == e.isFree && p.url == e.url
    ensures p.category == CategoryRef(categories, e.category)
    ensures p.organizer == OrganizerRef(users, e.organizer)
  {
    PopulatedEvent(e.id, e.title, e.description, e.location, e.createdAt, e.imageUrl,
                   e.startDateTime, e.endDateTime, e.price, e.isFree, e.url,
                   CategoryRef(categories, e.category), OrganizerRef(users, e.organizer))
  }

  function PopulateAll(s: seq<Event>, users: seq<User>, categories: seq<Category>): (r: seq<PopulatedEvent>)
    ensures |r| == |s| && forall i :: 0 <= i < |s| ==> r[i] == Populate(s[i], users, categories)
  {
    seq(|s|, i requires 0 <= i < |s| => Populate(s[i], users, categories))
  }

  /**
    `getEventById`: fails with "Event not found" exactly when no stored event
    has the id; otherwise the populated stored event with that id.
  */
  function GetEventById(events: seq<Event>, users: seq<User>, categories: seq<Category>, eventId: Id)
    : (r: Result<PopulatedEvent, Error>)
    ensures r.Failure? <==> forall e :: e in events ==> e.id != eventId
    ensures r.Failure? ==> r.error == EventNotFound
    ensures r.Success? ==> exists e :: e in events && e.id == eventId && r.value == Populate(e, users, categories)
  {
    match FindFirst(events, EventWithId(eventId))
    case None => Failure(EventNotFound)
    case Some(e) => Success(Populate(e, users, categories))
  }

  /** With unique ids, looking an id up finds the one event that has it. */
  lemma FindEventById(events: seq<Event>, e: Event)
    requires UniqueIds(events) && e in events
    ensures FindFirst(events, EventWithId(e.id)) == Some(e)
  {
    forall x | x in events && EventWithId(e.id)(x) ensures x == e {
      var i :| 0 <= i < |events| && events[i] == x;
      var j :| 0 <= j < |events| && events[j] == e;
      assert !(i < j) && !(j < i);
    }
    FindFirstOnly(events, EventWithId(e.id), e);
  }

  /**
    Creating an event and reading it back: with unique ids, the new event comes
    back with its category as (_id, name) and its organizer as (_id, firstName,
    lastName) of the referenced documents.
  */
  lemma {:induction false} CreatedEventReadsBack(
    events: seq<Event>, users: seq<User>, categories: seq<Category>, e: Event, u: User, c: Category)
    requires UniqueIds(events) && forall x :: x in events ==> x.id != e.id
    requires UserModel.TableInvariant(users) && u in users && u.id == e.organizer
    requires CategoryModel.TableInvariant(categories) && c in categories && c.id == e.category
    ensures GetEventById(events + [e], users, categories, e.id) == Success(PopulatedEvent(
      e.id, e.title, e.description, e.location, e.createdAt, e.imageUrl,
      e.startDateTime, e.endDateTime, e.price, e.isFree, e.url,
      Some(CategorySummary(c.id, c.name)), Some(OrganizerSummary(u.id, u.firstName, u.lastName))))
  {
    AppendKeepsUniqueIds(events, e);
    FindEventById(events + [e], e);
    forall v | v in users && UserWithId(u.id)(v) ensures v == u {
      var i :| 0 <= i < |users| && users[i] == v;
      var j :| 0 <= j < |users| && users[j] == u;
      assert !(i < j) && !(j < i);
    }
    FindFirstOnly(users, UserWithId(u.id), u);
    forall d | d in categories && CategoryWithId(c.id)(d) ensures d == c {
      var i :| 0 <= i < |categories| && categories[i] == d;
      var j :| 0 <= j < |categories| && categories[j] == c;
      assert !(i < j) && !(j < i);
    }
    FindFirstOnly(categories, CategoryWithId(c.id), c);
  }

  /**
    `getCategoryByName`: the first category, in natural order, whose name the
    pattern accepts; None when it accepts none.
  */
  function GetCategoryByName(categories: seq<Category>, name: string, matches: Matcher): (r: Option<Category>)
    ensures r.None? <==> forall c :: c in categories ==> !matches(name, c.name)
    ensures r.Some? ==> exists i :: 0 <= i < |categories| && categories[i] == r.value && matches(name, r.value.name) &&
                          forall j :: 0 <= j < i ==> !matches(name, categories[j].name)
  {
    match IndexOf(categories, NameMatching(name, matches))
    case None => None
    case Some(i) => Some(categories[i])
  }

  // Filters and ordering

  /** A conjunction of an optional title condition and an optional category condition; None is `{}`. */
  datatype EventFilter = EventFilter(title: Option<string>, category: Option<Id>)

  predicate Accepts(f: EventFilter, matches: Matcher, e: Event)
  {
    && (f.title.Some? ==> matches(f.title.value, e.title))
    && (f.category.Some? ==> e.category == f.category.value)
  }

  function Satisfying(f: EventFilter, matches: Matcher): Event -> bool
  {
    (e: Event) => Accepts(f, matches, e)
  }

  /**
    The filter `getAllEvents` builds: a title condition for a non-empty query;
    for a non-empty category name, the `_id` of the category it resolves to, or
    `{}` when it resolves to none.
  */
  function AllEventsFilter(categories: seq<Category>, query: Option<string>, category: Option<string>, matches: Matcher)
    : (r: EventFilter)
    ensures r.title.Some? <==> query.Some? && query.value != ""
    ensures r.title.Some? ==> r.title == query
    ensures r.category.Some? <==>
      category.Some? && category.value != "" && GetCategoryByName(categories, category.value, matches).Some?
    ensures r.category.Some? ==>
      exists c :: c in categories && c.id == r.category.value && matches(category.value, c.name) &&
        GetCategoryByName(categories, category.value, matches) == Some(c)
  {
    var titleCondition := if query.Some? && query.value != "" then query else None;
    var categoryCondition :=
      if category.Some? && category.value != "" then GetCategoryByName(categories, category.value, matches) else None;
    EventFilter(titleCondition, if categoryCondition.Some? then Some(categoryCondition.value.id) else None)
  }

  function ByOrganizer(userId: Id): Event -> bool { (e: Event) => e.organizer == userId }

  function RelatedTo(categoryId: Id, eventId: Id): Event -> bool
  {
    (e: Event) => e.category == categoryId && e.id != eventId
  }

  /** `.sort({ createdAt: 'desc' })`: non-increasing creation time. */
  predicate NewestFirst(s: seq<Event>)
  {
    forall i, j :: 0 <= i < j < |s| ==> s[i].createdAt >= s[j].createdAt
  }

  function InsertNewest(e: Event, s: seq<Event>): (r: seq<Event>)
    requires NewestFirst(s)
    ensures NewestFirst(r)
    ensures multiset(r) == multiset(s) + multiset{e}
    ensures forall x :: x in r ==> x == e || x in s
  {
    if s == [] || e.createdAt >= s[0].createdAt then
      ConsNewest(e, s);
      [e] + s
    else
      var rest := InsertNewest(e, s[1..]);
      assert s == [s[0]] + s[1..];
      assert multiset(s) == multiset{s[0]} + multiset(s[1..]);
      assert multiset([s[0]] + rest) == multiset{s[0]} + multiset(rest);
      ConsNewest(s[0], rest);
      [s[0]] + rest
  }

  /** An event no older than everything in a newest-first sequence may go in front of it. */
  lemma ConsNewest(x: Event, rest: seq<Event>)
    requires NewestFirst(rest)
    requires forall y :: y in rest ==> y.createdAt <= x.createdAt
    ensures NewestFirst([x] + rest)
  {
    var s := [x] + rest;
    forall i, j | 0 <= i < j < |s| ensures s[i].createdAt >= s[j].createdAt {
      assert s[j] == rest[j - 1];
      assert s[j] in rest;
      if i > 0 {
        assert s[i] == rest[i - 1];
      }
    }
  }

  /**
    A permutation of `s` in non-increasing creation time. Insertion is stable:
    events with equal creation times keep their order in `s`.
  */
  function SortNewest(s: seq<Event>): (r: seq<Event>)
    ensures NewestFirst(r)
    ensures multiset(r) == multiset(s)
  {
    if s == [] then []
    else
      assert s == [s[0]] + s[1..];
      InsertNewest(s[0], SortNewest(s[1..]))
  }

  /** Every stored event the condition accepts, newest first. */
  function Ranked(events: seq<Event>, p: Event -> bool): (r: seq<Event>)
    ensures NewestFirst(r)
    ensures multiset(r) == multiset(Filter(events, p))
    ensures |r| == |Filter(events, p)|
    ensures forall e :: e in r <==> e in events && p(e)
  {
    var r := SortNewest(Filter(events, p));
    assert forall e :: e in r <==> e in multiset(Filter(events, p));
    assert |r| == |multiset(r)|;
    r
  }

  // Ties in creation time

  /** The creation times of a sequence of events, position by position. */
  function CreationTimes(s: seq<Event>): (r: seq<Time>)
    ensures |r| == |s| && forall i :: 0 <= i < |s| ==> r[i] == s[i].createdAt
  {
    seq(|s|, i requires 0 <= i < |s| => s[i].createdAt)
  }

  /** `NewestFirst` read on the times alone, where events with equal times can no longer be told apart. */
  predicate NonIncreasing(k: seq<Time>)
  {
    forall i, j :: 0 <= i < j < |k| ==> k[i] >= k[j]
  }

  /** Two non-increasing sequences holding the same times are the same sequence. */
  lemma {:induction false} SortedTimesUnique(a: seq<Time>, b: seq<Time>)
    requires NonIncreasing(a) && NonIncreasing(b) && multiset(a) == multiset(b)
    ensures a == b
  {
    if a == [] {
      assert |b| == |multiset(b)| == 0;
    } else {
      assert |b| == |multiset(b)| == |multiset(a)| == |a|;
      LargestFirst(a, b);
      LargestFirst(b, a);
      TailMultiset(a);
      TailMultiset(b);
      SortedTimesUnique(a[1..], b[1..]);
      assert a == [a[0]] + a[1..] && b == [b[0]] + b[1..];
    }
  }

  /** The first time of a non-increasing sequence is at least every time of a sequence holding the same times. */
  lemma LargestFirst(a: seq<Time>, b: seq<Time>)
    requires NonIncreasing(a) && a != [] && multiset(a) == multiset(b) && b != []
    ensures a[0] >= b[0]
  {
    assert b[0] in multiset(a);
    var i :| 0 <= i < |a| && a[i] == b[0];
  }

  lemma TailMultiset<T>(s: seq<T>)
    requires s != []
    ensures multiset(s[1..]) == multiset(s) - multiset{s[0]}
  {
    assert s == [s[0]] + s[1..];
  }

  lemma RemoveAt<T>(s: seq<T>, j: nat)
    requires j < |s|
    ensures multiset(s[..j] + s[j + 1..]) == multiset(s) - multiset{s[j]}
  {
    assert s == s[..j] + [s[j]] + s[j + 1..];
  }

  lemma TimesOfConcat(u: seq<Event>, v: seq<Event>)
    ensures CreationTimes(u + v) == CreationTimes(u) + CreationTimes(v)
  {
    var l, r := CreationTimes(u + v), CreationTimes(u) + CreationTimes(v);
    forall i | 0 <= i < |l| ensures l[i] == r[i] {
      if i < |u| {
        assert (u + v)[i] == u[i];
      } else {
        assert (u + v)[i] == v[i - |u|];
      }
    }
  }

  /** The multiset of creation times depends only on the multiset of events. */
  lemma {:induction false} TimesOfPermutation(a: seq<Event>, b: seq<Event>)
    requires multiset(a) == multiset(b)
    ensures multiset(CreationTimes(a)) == multiset(CreationTimes(b))
    decreases |a|
  {
    if a == [] {
      assert |b| == |multiset(b)| == 0;
      assert CreationTimes(b) == [];
    } else {
      var j := PositionIn(b, a[0]);
      var rest := b[..j] + b[j + 1..];
      var t := multiset{a[0].createdAt};
      assert multiset(a[1..]) == multiset(rest) by {
        TailMultiset(a);
        RemoveAt(b, j);
      }
      TimesOfPermutation(a[1..], rest);
      TimesHead(a);
      assert multiset(CreationTimes(b)) == multiset(CreationTimes(rest)) + t by {
        TimesWithout(b, j);
      }
    }
  }

  lemma PositionIn<T>(s: seq<T>, x: T) returns (j: nat)
    requires x in multiset(s)
    ensures j < |s| && s[j] == x
  {
    j :| j < |s| && s[j] == x;
  }

  lemma TimesHead(s: seq<Event>)
    requires s != []
    ensures multiset(CreationTimes(s)) == multiset(CreationTimes(s[1..])) + multiset{s[0].createdAt}
  {
    var t, rest := CreationTimes(s), CreationTimes(s[1..]);
    assert t[1..] == rest;
    assert t == [t[0]] + t[1..];
  }

  /** Taking event j out of a sequence takes its creation time out of the times. */
  lemma TimesWithout(s: seq<Event>, j: nat)
    requires j < |s|
    ensures multiset(CreationTimes(s)) == multiset(CreationTimes(s[..j] + s[j + 1..])) + multiset{s[j].createdAt}
  {
    var front, back := s[..j], s[j + 1..];
    assert s == front + [s[j]] + back;
    TimesOfConcat(front + [s[j]], back);
    TimesOfConcat(front, [s[j]]);
    TimesOfConcat(front, back);
  }

  /**
    Whatever order the store gives events with equal creation times, position
    k of any newest-first ordering of the same events has the same creation time.
  */
  lemma RankTimesFixed(q: seq<Event>, r: seq<Event>)
    requires NewestFirst(q) && NewestFirst(r) && multiset(q) == multiset(r)
    ensures |q| == |r| && forall k :: 0 <= k < |q| ==> q[k].createdAt == r[k].createdAt
  {
    TimesOfPermutation(q, r);
    SortedTimesUnique(CreationTimes(q), CreationTimes(r));
  }

  /**
    `.skip(skip).limit(pageSize)` over the accepted events ranked newest first:
    element i of the page is element skip + i of the ranking.
  */
  function Page(events: seq<Event>, p: Event -> bool, skip: nat, pageSize: nat): (r: seq<Event>)
    ensures var ranked := Ranked(events, p);
      && |r| == (if skip >= |ranked| then 0 else Min(pageSize, |ranked| - skip))
      && forall i :: 0 <= i < |r| ==> r[i] == ranked[skip + i]
    ensures NewestFirst(r)
    ensures forall e :: e in r ==> e in events && p(e)
  {
    var ranked := Ranked(events, p);
    var r := Window(ranked, skip, pageSize);
    assert forall e :: e in r ==> e in ranked by {
      forall e | e in r ensures e in ranked {
        var i :| 0 <= i < |r| && r[i] == e;
        assert r[i] == ranked[skip + i];
      }
    }
    r
  }

  /** What a listing returns: one populated page and the number of pages. */
  datatype Listing = Listing(data: seq<PopulatedEvent>, totalPages: nat)

  /**
    `find(cond).sort({ createdAt: 'desc' }).skip(skip).limit(pageSize)`,
    populated, with `Math.ceil(countDocuments(cond) / limit)` pages.
  */
  function RunListing(events: seq<Event>, users: seq<User>, categories: seq<Category>,
                      p: Event -> bool, skip: nat, pageSize: nat, limit: nat): (r: Listing)
    requires limit > 0
    ensures var page := Page(events, p, skip, pageSize);
      |r.data| == |page| && forall i :: 0 <= i < |r.data| ==> r.data[i] == Populate(page[i], users, categories)
    ensures forall i, j :: 0 <= i < j < |r.data| ==> r.data[i].createdAt >= r.data[j].createdAt
    ensures var count := |Filter(events, p)|; count <= r.totalPages * limit < count + limit
  {
    Listing(PopulateAll(Page(events, p, skip, pageSize), users, categories), CeilDiv(|Filter(events, p)|, limit))
  }

  /**
    `getAllEvents`: skips (page - 1) * limit of the events the filter accepts,
    newest first, and returns at most 6 of them whatever `limit` is; every one
    matches a non-empty `query` and carries the category a non-empty `category`
    name resolves to; `totalPages` is ceil(count / limit) over all accepted
    events.
  */
  function GetAllEvents(events: seq<Event>, users: seq<User>, categories: seq<Category>, matches: Matcher,
                        query: Option<string>, page: int, category: Option<string>, limit: int := 6): (r: Listing)
    requires page >= 1 && limit >= 1
    ensures |r.data| <= 6
    ensures var p := Satisfying(AllEventsFilter(categories, query, category, matches), matches);
      var window := Page(events, p, (page - 1) * limit, 6);
      |r.data| == |window| && forall i :: 0 <= i < |r.data| ==> r.data[i] == Populate(window[i], users, categories)
    ensures forall i, j :: 0 <= i < j < |r.data| ==> r.data[i].createdAt >= r.data[j].createdAt
    ensures query.Some? && query.value != "" ==>
      forall i :: 0 <= i < |r.data| ==> matches(query.value, r.data[i].title)
    ensures category.Some? && category.value != "" && GetCategoryByName(categories, category.value, matches).Some? ==>
      var c := GetCategoryByName(categories, category.value, matches).value;
      forall i :: 0 <= i < |r.data| ==> r.data[i].category.Some? && r.data[i].category.value.id == c.id
    ensures var count := |Filter(events, Satisfying(AllEventsFilter(categories, query, category, matches), matches))|;
      count <= r.totalPages * limit < count + limit
  {
    var f := AllEventsFilter(categories, query, category, matches);
    var skip: nat := (page - 1) * limit;
    var window := Page(events, Satisfying(f, matches), skip, 6);
    assert forall i :: 0 <= i < |window| ==> window[i] in window;
    assert f.category.Some? ==> GetCategoryByName(categories, category.value, matches).value in categories;
    RunListing(events, users, categories, Satisfying(f, matches), skip, 6, limit)
  }

  /**
    `getEventsByUser`: the first `limit` events organized by `userId`, newest
    first. `page` is ignored (the skip is always 0); `totalPages` is
    ceil(count / limit) over all of the user's events.
  */
  function GetEventsByUser(events: seq<Event>, users: seq<User>, categories: seq<Category>,
                           userId: Id, page: int, limit: int := 6): (r: Listing)
    requires limit >= 1
    ensures |r.data| <= limit
    ensures var window := Page(events, ByOrganizer(userId), 0, limit);
      |r.data| == |window| && forall i :: 0 <= i < |r.data| ==> r.data[i] == Populate(window[i], users, categories)
    ensures forall i :: 0 <= i < |r.data| ==> r.data[i].organizer == OrganizerRef(users, userId)
    ensures forall i, j :: 0 <= i < j < |r.data| ==> r.data[i].createdAt >= r.data[j].createdAt
    ensures var count := |Filter(events, ByOrganizer(userId))|; count <= r.totalPages * limit < count + limit
  {
    var window := Page(events, ByOrganizer(userId), 0, limit);
    assert forall i :: 0 <= i < |window| ==> window[i] in window;
    RunListing(events, users, categories, ByOrganizer(userId), 0, limit, limit)
  }

  /**
    `getRelatedEventsByCategory`: the first `limit` events of category
    `categoryId` other than `eventId`, newest first. `page` is ignored (the skip
    is always 0); `totalPages` is ceil(count / limit) over all such events.
  */
  function GetRelatedEventsByCategory(events: seq<Event>, users: seq<User>, categories: seq<Category>,
                                      categoryId: Id, eventId: Id, page: int := 1, limit: int := 3): (r: Listing)
    requires limit >= 1
    ensures |r.data| <= limit
    ensures var window := Page(events, RelatedTo(categoryId, eventId), 0, limit);
      |r.data| == |window| && forall i :: 0 <= i < |r.data| ==> r.data[i] == Populate(window[i], users, categories)
    ensures forall i :: 0 <= i < |r.data| ==>
      r.data[i].id != eventId && r.data[i].category == CategoryRef(categories, categoryId)
    ensures forall i, j :: 0 <= i < j < |r.data| ==> r.data[i].createdAt >= r.data[j].createdAt
    ensures var count := |Filter(events, RelatedTo(categoryId, eventId))|; count <= r.totalPages * limit < count + limit
  {
    var window := Page(events, RelatedTo(categoryId, eventId), 0, limit);
    assert forall i :: 0 <= i < |window| ==> window[i] in window;
    RunListing(events, users, categories, RelatedTo(categoryId, eventId), 0, limit, limit)
  }

  // Consequences of the listings as written

  /**
    Because `getAllEvents` always fetches 6 events but steps by `limit`, a
    limit below 6 makes consecutive pages overlap: the event at position
    `limit` of one page is the first event of the next.
  */
  lemma {:induction false} PagesOverlapBelowSix(
    events: seq<Event>, users: seq<User>, categories: seq<Category>, matches: Matcher,
    query: Option<string>, category: Option<string>, page: int, limit: int)
    requires page >= 1 && 1 <= limit < 6
    requires |Filter(events, Satisfying(AllEventsFilter(categories, query, category, matches), matches))| > page * limit
    ensures var here := GetAllEvents(events, users, categories, matches, query, page, category, limit);
      var next := GetAllEvents(events, users, categories, matches, query, page + 1, category, limit);
      |here.data| > limit && |next.data| > 0 && here.data[limit] == next.data[0]
  {
    var p := Satisfying(AllEventsFilter(categories, query, category, matches), matches);
    SkipAmounts(page, limit);
    var skip: nat := (page - 1) * limit;
    var nextSkip: nat := (page + 1 - 1) * limit;
    WindowsOverlap(events, p, skip, limit);
    var here := GetAllEvents(events, users, categories, matches, query, page, category, limit);
    var next := GetAllEvents(events, users, categories, matches, query, page + 1, category, limit);
    assert |here.data| > limit && here.data[limit] == Populate(Page(events, p, skip, 6)[limit], users, categories);
    assert |next.data| > 0 && next.data[0] == Populate(Page(events, p, nextSkip, 6)[0], users, categories);
  }

  lemma SkipAmounts(page: int, limit: int)
    requires page >= 1 && limit >= 1
    ensures (page - 1) * limit >= 0 && (page + 1 - 1) * limit == (page - 1) * limit + limit
  {
  }

  lemma WindowsOverlap(events: seq<Event>, p: Event -> bool, skip: nat, limit: nat)
    requires limit < 6 && |Filter(events, p)| > skip + limit
    ensures |Page(events, p, skip, 6)| > limit && |Page(events, p, skip + limit, 6)| > 0
    ensures Page(events, p, skip, 6)[limit] == Page(events, p, skip + limit, 6)[0]
  {
    var ranked := Ranked(events, p);
    var here, next := Page(events, p, skip, 6), Page(events, p, skip + limit, 6);
    assert |ranked| > skip + limit;
    assert |here| > limit && here[limit] == ranked[skip + limit];
    assert |next| > 0 && next[0] == ranked[skip + limit];
  }

  /**
    The overlap does not depend on how the store breaks ties in creation time:
    whichever newest-first orderings of the accepted events the two queries
    for pages p and p + 1 use, event `limit` of the first page and the first
    event of the next were created at the same time.
  */
  lemma PagesOverlapWhateverTieOrder(
    events: seq<Event>, p: Event -> bool, here: seq<Event>, next: seq<Event>, skip: nat, limit: nat)
    requires limit < 6 && |Filter(events, p)| > skip + limit
    requires NewestFirst(here) && multiset(here) == multiset(Filter(events, p))
    requires NewestFirst(next) && multiset(next) == multiset(Filter(events, p))
    ensures |Window(here, skip, 6)| > limit && |Window(next, skip + limit, 6)| > 0
    ensures Window(here, skip, 6)[limit].createdAt == Window(next, skip + limit, 6)[0].createdAt
  {
    RankTimesFixed(here, next);
    assert |here| == |multiset(here)| == |Filter(events, p)|;
    assert Window(here, skip, 6)[limit] == here[skip + limit];
    assert Window(next, skip + limit, 6)[0] == next[skip + limit];
  }

  /**
    A category name that resolves to no category adds no condition at all:
    the listing is the one without a category.
  */
  lemma {:induction false} UnmatchedCategoryIsIgnored(
    events: seq<Event>, users: seq<User>, categories: seq<Category>, matches: Matcher,
    query: Option<string>, page: int, name: string, limit: int)
    requires page >= 1 && limit >= 1
    requires GetCategoryByName(categories, name, matches).None?
    ensures GetAllEvents(events, users, categories, matches, query, page, Some(name), limit)
         == GetAllEvents(events, users, categories, matches, query, page, None, limit)
  {
    assert AllEventsFilter(categories, query, Some(name), matches) == AllEventsFilter(categories, query, None, matches);
  }

  /** An ASCII letter folded to lower case. */
  function Fold(ch: char): char
  {
    if 'A' <= ch <= 'Z' then (ch as int - 'A' as int + 'a' as int) as char else ch
  }

  predicate PrefixIgnoringCase(pattern: string, text: string)
  {
    |pattern| <= |text| && forall i :: 0 <= i < |pattern| ==> Fold(pattern[i]) == Fold(text[i])
  }

  /** What `{ $regex: pattern, $options: 'i' }` does for a pattern of plain letters. */
  predicate ContainsIgnoringCase(pattern: string, text: string)
    decreases |text|
  {
    PrefixIgnoringCase(pattern, text) || (text != [] && ContainsIgnoringCase(pattern, text[1..]))
  }

  function LiteralMatcher(): Matcher
  {
    (pattern: string, text: string) => ContainsIgnoringCase(pattern, text)
  }

  /**
    Uniqueness compares exact stored names while the lookup is a
    case-insensitive pattern: a table may hold both "Musical" and "music", and
    looking up "music" resolves to "Musical", the first that matches.
  */
  lemma LookupMayResolveToAnotherName()
    ensures var categories := [Category(1, "Musical"), Category(2, "music")];
      && CategoryModel.TableInvariant(categories)
      && GetCategoryByName(categories, "music", LiteralMatcher()) == Some(Category(1, "Musical"))
  {
    assert PrefixIgnoringCase("music", "Musical");
  }
}
