/**
 * The tables behind the Star Wars REST API and the shape of the replies its
 * handlers send. The ORM is replaced by plain values: a table is a sequence of
 * rows, in the order in which the database hands them out.
 */
module Models {
  /** The one user on whose behalf every favourite is listed, written and deleted. */
  const USER_ID: int := 1

  /** The only two values the handlers ever write into `favorite_type`. */
  const PLANET: string := "planet"
  const PERSON: string := "person"

  /**
   * A row of Users, People or Planets: its primary key and its other columns.
   * The columns are not elaborated; the model only carries them along.
   */
  datatype Entity = Entity(id: int, columns: seq<(string, string)>)

  /** A row of the Favorite table: `(id, user_id, favorite_type, favorite_id)`. */
  datatype Favorite = Favorite(id: int, userId: int, favoriteType: string, favoriteId: int)

  /**
   * The serialised form of a row. `serialize()` is a function of the row alone,
   * so the row itself stands for its JSON mapping, tagged with its table.
   */
  datatype Record =
    | UserRecord(user: Entity)
    | PersonRecord(person: Entity)
    | PlanetRecord(planet: Entity)
    | FavoriteRecord(favorite: Favorite)

  /** A JSON body: `{"message": ...}`, one serialised row, or an array of them. */
  datatype Body = Message(message: string) | One(record: Record) | Many(records: seq<Record>)

  /**
   * What a handler produces: an HTTP status with a JSON body, or an exception
   * the handler does not catch (Flask turns it into a server error).
   */
  datatype Reply = Reply(status: int, body: Body) | Fault(error: string)

  /** The row invariant the handlers keep: owned by USER_ID, typed "planet" or "person". */
  predicate WellFormed(f: Favorite)
  {
    f.userId == USER_ID && (f.favoriteType == PLANET || f.favoriteType == PERSON)
  }

  predicate AllWellFormed(s: seq<Favorite>)
  {
    forall i :: 0 <= i < |s| ==> WellFormed(s[i])
  }
}
