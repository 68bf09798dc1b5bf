# Evently event and category service, modelled in Dafny

Evently is an event-ticketing web application. Its server actions create, read, update
and list events and categories held in a MongoDB document store through Mongoose.
This project models that service layer over an abstract store.

- **Store.** `Store.Database` is a class holding three tables: users, categories and
  events.
  - Each table is a sequence in natural (insertion) order, so `find()` without a sort
    has a defined order.
  - A counter stands in for fresh ObjectIds.
  - A ghost log records every `revalidatePath` call.
  - `Database.Valid()` is the store invariant:
    - the unique indexes hold (users' `clerkId`, `email` and `username`; categories'
      `name`);
    - every `_id` is unique;
    - every event's organizer exists;
    - the counter is fresh.
- **Schemas.** `UserModel`, `CategoryModel` and `EventModel` give each document shape
  as a datatype. `NewUser`, `NewCategory` and `NewEvent` apply the `create` validation
  and defaults: a required String rejects a missing or empty value, and defaults fill
  in unset paths. Each schema's uniqueness rules form a table invariant, with a lemma
  on when an append preserves it.
- **Write actions.** `CategoryActions.CreateCategory`, `EventActions.CreateEvent`,
  `EventActions.UpdateEvent` and `EventActions.DeleteEvent` are methods that modify
  the store. Their contracts state the whole new state and every error path.
- **Read actions.** `EventQueries` models the reads as functions over the tables:
  - `getEventById`, with organizer and category references projected to summaries;
  - `getCategoryByName`;
  - the three listings, which filter, sort newest first, skip, limit and compute
    `totalPages = ceil(count / limit)`.
- **Regular expressions.** `$regex` matching with option `i` is a parameter
  `matches(pattern, text)`.

The model follows the code as written, including these behaviours:

- `getAllEvents` always fetches 6 rows, whatever `limit` is, but steps pages by
  `limit` and divides by `limit` for `totalPages`. `EventQueries.PagesOverlapBelowSix`
  proves that consecutive pages overlap when `limit < 6`.
- `getEventsByUser` and `getRelatedEventsByCategory` always skip 0 and ignore `page`.
- A `category` name that matches no category adds no condition at all, so an
  unmatched name returns the unfiltered listing
  (`EventQueries.UnmatchedCategoryIsIgnored`).
- `createEvent` never calls `revalidatePath`, although it receives `path`.
- `createEvent` maps an empty price to null. `updateEvent` stores the price as given.

## Model

| member | source | states |
|---|---|---|
| Paging.CeilDiv | lib/actions/event.actions.ts:119 | `Math.ceil(n / d)` for d > 0: the result r is the least page count covering n, with n <= r*d < n + d |
| Paging.CeilDivUnique | lib/actions/event.actions.ts:119 | exactly one natural q satisfies n <= q*d < n + d, so the bounds determine the page count |
| Paging.Window | lib/actions/event.actions.ts:107-110 | `.skip(skip).limit(limit)`: at most `limit` elements; its length is 0 past the end and min(limit, length - skip) otherwise; element i is element skip + i of the input |
| Seqs.FindFirst | lib/actions/event.actions.ts:37 | a `findById`/`findOne` lookup: None exactly when no element satisfies the condition, otherwise a stored element that satisfies it |
| Seqs.FindFirstOnly | lib/actions/event.actions.ts:58 | when exactly one stored element satisfies the condition, the lookup returns that element |
| Seqs.Filter | lib/actions/event.actions.ts:113 | `find(cond)` / `countDocuments(cond)`: keeps each accepted element as often as it occurs and no other element; returns the input unchanged when every element is accepted |
| Seqs.FilterKeepsOrder | lib/actions/event.actions.ts:72 | filtering keeps the original order: the filter of a concatenation is the concatenation of the filtered parts |
| Seqs.IndexOf | lib/actions/event.actions.ts:26 | the position of the first element in natural order that satisfies the condition, or None when none does |
| UserModel.NewUser | lib/database/models/user.model.ts:12-19 | `User.create` fails with a validation error exactly when clerkId, email, username, firstName or photo is missing or empty, and the error lists exactly the missing paths (MissingPaths); otherwise it keeps every given path, and an unset lastName is null |
| UserModel.DuplicatePath | lib/database/models/user.model.ts:13-15 | the unique indexes on clerkId, email and username: None exactly when no stored user shares any of the three; otherwise the first clashing path in the order clerkId, email, username, each named only when a stored user really shares it |
| UserModel.AppendKeepsInvariant | lib/database/models/user.model.ts:13-15 | appending a conforming user keeps the three unique indexes if and only if no stored user clashes with it |
| UserModel.MissingPaths | lib/database/models/user.model.ts:13-18 | the list of missing required paths is empty exactly when clerkId, email, username, firstName and photo are all present and non-empty; each of the five is listed exactly when it is missing, and nothing else is listed |
| Store.Database.InsertUser | lib/database/models/user.model.ts:12-19 | validation first, then the unique indexes (a DuplicateKey error names the clashing path). A valid user that clashes with nobody is always stored and returned; only such a user is appended, the id counter advances by one, and the store invariant is kept |
| CategoryModel.NewCategory | lib/database/models/category.model.ts:8-10 | `Category.create({ name })` fails with a validation error on `name` exactly when the name is empty; otherwise the record is exactly `_id` and `name` |
| CategoryModel.AppendKeepsInvariant | lib/database/models/category.model.ts:9 | appending a category with a non-empty name keeps the invariant if and only if its id and name are both new |
| CategoryModel.NameStoredAtMostOnce | lib/database/models/category.model.ts:9 | under the unique index a name occurs at most once, and exactly once if and only if it is stored |
| CategoryActions.CreateCategory | lib/actions/category.actions.ts:8-18 | succeeds if and only if the name is non-empty and not stored exactly. Success appends one category with that name and a fresh id, and the id counter advances by one. An empty name gives a validation error and a duplicate gives a duplicate-key error; on failure the table is unchanged. Events, users and revalidations are never touched |
| CategoryActions.GetAllCategories | lib/actions/category.actions.ts:20-28 | every stored category in natural order, unfiltered; as a function it leaves the table unchanged |
| CategoryActions.CreatedCategoryListedOnce | lib/actions/category.actions.ts:13-24 | a category created under a fresh name is listed exactly once by getAllCategories |
| EventModel.NewEvent | lib/database/models/event.model.ts:21-34 | `Event.create` fails exactly when title, description, location or imageUrl is missing or empty, or the category or organizer reference is missing, and the validation error then lists exactly the missing paths (MissingPaths). Otherwise it keeps the given paths; price and url stay null when unset, isFree is false unless given true, and each unset date is the insertion time |
| EventModel.MissingPaths | lib/database/models/event.model.ts:22-33 | the list of missing required paths is empty exactly when title, description, location and imageUrl are non-empty and both references are present; each of the six is listed exactly when it is missing, and nothing else is listed |
| EventModel.AppendKeepsUniqueIds | lib/actions/event.actions.ts:41-46 | inserting an event under a fresh `_id` keeps the ids unique |
| EventQueries.CategoryRef | lib/actions/event.actions.ts:19-23 | `populate('category', '_id name')`: null when no category has the id, otherwise the (_id, name) of that category |
| EventQueries.OrganizerRef | lib/actions/event.actions.ts:19-23 | `populate('organizer', '_id firstName lastName')`: null when no user has the id, otherwise that user's (_id, firstName, lastName) |
| EventQueries.Populate | lib/actions/event.actions.ts:19-23 | a populated event keeps the event's own paths and carries the category and organizer projections |
| EventQueries.GetEventById | lib/actions/event.actions.ts:54-66 | fails with "Event not found" exactly when no event has the id; otherwise returns the populated event with that id |
| EventQueries.FindEventById | lib/actions/event.actions.ts:58 | with unique ids, looking up a stored event's id finds that event |
| EventQueries.CreatedEventReadsBack | lib/actions/event.actions.ts:37-62 | after an event with a fresh id is appended, reading it by id returns its own paths, with category (c._id, c.name) and organizer (u._id, u.firstName, u.lastName) |
| EventQueries.GetCategoryByName | lib/actions/event.actions.ts:25-27 | `findOne` with a name pattern: None exactly when no category's name matches; otherwise the first match in natural order |
| EventQueries.AllEventsFilter | lib/actions/event.actions.ts:91-103 | the `$and` filter: a title condition exactly when the query is non-empty, and then the query itself. A category condition exactly when a non-empty name resolves, and then the `_id` of the category the lookup returns, whose name the pattern matches |
| EventQueries.InsertNewest | lib/actions/event.actions.ts:108 | inserting into a newest-first sequence keeps it newest first and adds exactly that event to the multiset |
| EventQueries.SortNewest | lib/actions/event.actions.ts:108 | `.sort({ createdAt: 'desc' })`: a permutation of its input with non-increasing createdAt |
| EventQueries.Ranked | lib/actions/event.actions.ts:107-108 | the accepted events newest first: a permutation of the filtered events (same multiset), as many as the filter count, and exactly the stored events the condition accepts |
| EventQueries.SortedTimesUnique | lib/actions/event.actions.ts:108 | two non-increasing sequences of times with the same multiset are equal |
| EventQueries.TimesOfPermutation | lib/actions/event.actions.ts:108 | two orderings of the same events have the same multiset of creation times |
| EventQueries.RankTimesFixed | lib/actions/event.actions.ts:108 | any two newest-first orderings of the same events have the same length and the same creation time at every position, whatever the tie order |
| EventQueries.Page | lib/actions/event.actions.ts:107-110 | one page of the ranking: the length of a skip/limit window, element i is ranking element skip + i, newest first, and each element is stored and accepted |
| EventQueries.RunListing | lib/actions/event.actions.ts:112-120 | the page populated element by element, newest first, with count <= totalPages * limit < count + limit over the whole accepted set |
| EventQueries.GetAllEvents | lib/actions/event.actions.ts:79-124 | skips (page - 1) * limit and returns at most 6 events, whatever limit is. Results are newest first, and every title matches a non-empty query. When a non-empty category name resolves, every result carries that category's id. totalPages is ceil(count / limit) over all accepted events |
| EventQueries.GetEventsByUser | lib/actions/event.actions.ts:148-174 | skip 0, ignoring page, then at most limit events. Every organizer projection is that user's, results are newest first, and totalPages is ceil(count / limit) over the user's events |
| EventQueries.GetRelatedEventsByCategory | lib/actions/event.actions.ts:177-206 | skip 0, then at most limit (default 3) events. None has id eventId, every one carries categoryId's projection, results are newest first, and totalPages is ceil(count / limit) over all such events |
| EventQueries.PagesOverlapBelowSix | lib/actions/event.actions.ts:105-110 | with 1 <= limit < 6 and enough accepted events, event `limit` of page p is the first event of page p + 1 (under the model's tie order) |
| EventQueries.PagesOverlapWhateverTieOrder | lib/actions/event.actions.ts:105-110 | with limit < 6 and enough accepted events, whatever newest-first orderings the two page queries use, event `limit` of page p and the first event of page p + 1 have the same creation time |
| EventQueries.WindowsOverlap | lib/actions/event.actions.ts:109-110 | two 6-row windows whose skips differ by limit < 6 share a ranking element |
| EventQueries.UnmatchedCategoryIsIgnored | lib/actions/event.actions.ts:91-103 | a category name that resolves to no category gives exactly the listing without a category |
| EventQueries.LookupMayResolveToAnotherName | lib/actions/event.actions.ts:26 | a table may hold both "Musical" and "music" under the exact-name unique index, and a case-insensitive lookup of "music" resolves to "Musical" |
| EventActions.CreationDoc | lib/actions/event.actions.ts:41-46 | the document handed to `Event.create`: title, description, location, imageUrl, both dates, isFree and url pass through as given; organizer is userId, category is categoryId, createdAt is unset, and price is null exactly when it is unset or empty, otherwise as given |
| EventActions.CreateEvent | lib/actions/event.actions.ts:29-52 | fails with "Organizer not found", storing nothing, when no user has userId; otherwise the result is that of NewEvent on the creation document. A success appends exactly that event under a fresh id, and the id counter advances by one. Nothing is revalidated in either case, and the store invariant is kept |
| Store.Database.InsertEvent | lib/actions/event.actions.ts:41-46 | the insert behind `Event.create` once validation passed: the event is appended under the next fresh `_id`, which no stored event has, nothing else in the store changes, and the store invariant is kept |
| EventActions.FilterKeepsUniqueIds | lib/actions/event.actions.ts:72 | removing events keeps the remaining ids unique |
| EventActions.DeleteEvent | lib/actions/event.actions.ts:68-77 | removes exactly the events with that id and keeps the rest in order. It revalidates only when an event was deleted; an unknown id leaves the store and the log unchanged |
| EventActions.DeleteAffectsOnlyItsId | lib/actions/event.actions.ts:68-77 | after a delete, the id reads back as "Event not found" and every other id reads back as before |
| EventActions.ApplyUpdate | lib/actions/event.actions.ts:135-139 | `findByIdAndUpdate`: for each of title, description, location, imageUrl, both dates, price, isFree and url, a given value overwrites and an unset one keeps the stored value. Category is categoryId when given, and id, organizer and createdAt are unchanged |
| EventActions.ReplaceById | lib/actions/event.actions.ts:135 | the table with the event of the updated id replaced and every other position unchanged |
| EventActions.ReplaceKeepsUniqueIds | lib/actions/event.actions.ts:135 | replacing an event by one with the same id keeps ids unique |
| EventActions.UpdatedEventReadsBack | lib/actions/event.actions.ts:135-142 | after an update, the id reads back as the updated document |
| EventActions.UpdateLeavesOthers | lib/actions/event.actions.ts:135-139 | after an update, every other id reads back exactly as before |
| EventActions.UpdateEvent | lib/actions/event.actions.ts:126-146 | fails with "Unauthorized or event not found", changing and revalidating nothing, if and only if no stored event with the id is organized by userId. On success it returns ApplyUpdate of that event, replaces only that event and revalidates the path once |

## Left out

- The connection cache in lib/database/index.ts is not modelled. It is network I/O shared between concurrent callers; the model assumes the store is available.
- The Order collection (lib/database/models/order.model.ts) is not modelled, because no modelled operation reads or writes it.
- The regular-expression engine behind `$regex` with option `i` is not modelled. It is a parameter; `LiteralMatcher` is a concrete instance for plain-letter patterns, used only to exhibit the lookup behaviour.
- EventQueries.GetAllEvents: always returns a `Listing`, because `Matcher` is a total function. In the source a `query` or `category` that is not a valid regular expression (such as `(`) makes MongoDB reject the `$regex` condition of `getAllEvents` or of `getCategoryByName`, and the call fails through `handleError`. The model leaves out this error path. `EventQueries.GetCategoryByName` leaves it out for the same reason.
- `handleError` is not modelled, because its code is not available. Failures are returned as `Failure(error)` values.
- The React components (EventForm, Dropdown, NavItems and the profile page) are UI and are not modelled.
- `JSON.parse(JSON.stringify(...))` is the identity on plain data, so it is not modelled.
- `Date.now` is passed in as the parameter `now`.
- ObjectId generation is replaced by the store's `nextId` counter.
- `revalidatePath` is modelled only as the ghost log `revalidated`.
- `console.error` is not modelled.
- Each action is one atomic step. The race between the ownership or organizer check and the write in a concurrent store is not modelled.
- `Number(page)` coercion, NaN pages and `limit <= 0` are excluded by the preconditions `page >= 1` and `limit >= 1`. In the source a limit of 0 behaves differently per listing. In `getAllEvents` the query keeps `.limit(6)`, so a limit of 0 only makes the skip 0 and every page is the first page. In `getEventsByUser` and `getRelatedEventsByCategory`, `.limit(0)` places no limit, so every matching event is returned. In all three, `Math.ceil(count / 0)` is Infinity for a positive count and NaN for a count of 0.
- The listings break ties in `createdAt` by natural order (`SortNewest` is a stable insertion sort), which is stronger than the store promises: MongoDB does not fix the order of equal sort keys, not even across two queries. The facts about pages that must hold whatever the tie order are stated in terms of creation times (`RankTimesFixed`, `PagesOverlapWhateverTieOrder`).
- Natural order is modelled as insertion order. MongoDB does not promise this: `find()` without a sort may return documents in any order. `GetCategoryByName`'s "first match" and the example in `LookupMayResolveToAnotherName` depend on this choice. In the store, a case-insensitive lookup that matches several names may return any of them.
- Event schema validity is checked only at insert. `findByIdAndUpdate` runs no validators, so an update may store an empty title and the model allows it.
- Events whose category or organizer is later missing are populated as null projections (`CategoryRef`/`OrganizerRef` return None); a dangling category is not prevented at insert.
