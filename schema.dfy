/**
  What the document store contributes to every collection: abstract document
  identifiers, timestamps, the meaning of `required` on a String path, and the
  errors an operation can end in.
*/
module Schema {
  import opened Wrappers

  /** An ObjectId, treated as an abstract key. */
  type Id = nat

  /** A Date, as milliseconds since the epoch. */
  type Time = int

  /** A `required: true` String path accepts a present, non-empty string. */
  predicate Required(field: Option<string>)
  {
    field.Some? && field.value != ""
  }

  /** A `required: true` reference path accepts any present identifier. */
  predicate RequiredRef(field: Option<Id>)
  {
    field.Some?
  }

  /** The path, as a one-element list, when its check fails; nothing when it passes. */
  function Unless(ok: bool, path: string): (r: seq<string>)
    ensures path in r <==> !ok
    ensures forall x :: x in r ==> x == path
    ensures |r| <= 1
  {
    if ok then [] else [path]
  }

  /** The value a path takes: the given one, or `otherwise` when it is unset. */
  function Given<T>(field: Option<T>, otherwise: T): (r: T)
  {
    if field.Some? then field.value else otherwise
  }

  /**
    The ways a service call fails. `handleError` (not part of this model) turns
    each of them into the value the caller receives.
  */
  datatype Error =
    | ValidationError(paths: seq<string>)  // schema validation: the required paths that are missing
    | DuplicateKey(path: string)           // a unique index rejected the insert
    | OrganizerNotFound                    // createEvent: no User has the given id
    | EventNotFound                        // getEventById: no Event has the given id
    | Unauthorized                         // updateEvent: missing event or not its organizer
}
