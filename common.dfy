/** Vocabulary shared by the whole model: identifiers, time, optional values,
    keyed collections and the replies a controller action can give. */
module Common {

  /** A Guid is only ever compared for equality. */
  type Guid = nat

  /** A DateTime, as a count of 100-nanosecond ticks. */
  type DateTime = int

  /** The ticks in one day (TimeSpan.TicksPerDay). */
  const TicksPerDay: int := 864_000_000_000

  /** default(DateTime): what a DateTime property holds when nobody assigns it. */
  const DefaultDateTime: DateTime := 0

  datatype Option<T> = None | Some(value: T)

  /** What Guid.NewGuid() and DateTime.UtcNow return at the moment an entity is built. */
  datatype Stamp = Stamp(id: Guid, now: DateTime)

  /** The ids of a collection of entities. */
  function IdsOf<C(==)>(xs: seq<C>, idOf: C -> Guid): set<Guid>
  {
    set x | x in xs :: idOf(x)
  }

  /** No two entities of the collection share an id. */
  predicate DistinctIds<C>(xs: seq<C>, idOf: C -> Guid)
  {
    forall i, j | 0 <= i < j < |xs| :: idOf(xs[i]) != idOf(xs[j])
  }

  /** The results of the controller actions, without the HTTP machinery.
      ServerError stands for an exception escaping the action (here: a commit the database refused). */
  datatype ActionResult<T> =
    | Ok(value: T)
    | Created(value: T)
    | NoContent
    | NotFound(detail: Option<string>)
    | BadRequest(reason: string)
    | Unauthorized
    | ServerError
}
