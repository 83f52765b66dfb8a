/**
 * The read-only handlers: the three listings, the three lookups by primary key
 * and the favourites listing of the fixed user. None of them touches a table.
 */
module Queries {
  import opened Wrappers
  import opened Models

  /** The message of the 404 sent for an unknown user id. */
  const USER_NOT_FOUND: string := "User not found"

  /** The messages the POST handlers send for a missing person or planet. */
  const PERSON_NOT_FOUND: string := "Person not found"
  const PLANET_NOT_FOUND: string := "Planet not found"

  /** The AttributeError raised when `.first()` found nothing and `serialize` is called on None. */
  const NONE_SERIALIZE: string := "'NoneType' object has no attribute 'serialize'"

  /** The three tables whose rows the API only reads. */
  datatype Table = UsersTable | PeopleTable | PlanetsTable

  function Serialize(t: Table, e: Entity): (r: Record)
  {
    match t
    case UsersTable => UserRecord(e)
    case PeopleTable => PersonRecord(e)
    case PlanetsTable => PlanetRecord(e)
  }

  predicate HasId(rows: seq<Entity>, id: int)
  {
    exists i :: 0 <= i < |rows| && rows[i].id == id
  }

  /** `e` is the row that `filter_by(id=id).first()` returns: the first one with that key. */
  predicate IsFirstWithId(rows: seq<Entity>, id: int, e: Entity)
  {
    exists i :: 0 <= i < |rows| && rows[i] == e && e.id == id &&
      forall j :: 0 <= j < i ==> rows[j].id != id
  }

  /** `filter_by(id=id).first()`: the position of the first row with that key, if any. */
  function FindById(rows: seq<Entity>, id: int): (r: Option<nat>)
    ensures r.None? <==> !HasId(rows, id)
    ensures r.Some? ==>
      && r.value < |rows|
      && rows[r.value].id == id
      && forall j :: 0 <= j < r.value ==> rows[j].id != id
  {
    if rows == [] then None
    else if rows[0].id == id then Some(0)
    else match FindById(rows[1..], id)
      case None => None
      case Some(k) => Some(k + 1)
  }

  /** `list(map(lambda x: x.serialize(), rows))`: one record per row, in table order. */
  function SerializeAll(t: Table, rows: seq<Entity>): (r: seq<Record>)
    ensures |r| == |rows|
    ensures forall i :: 0 <= i < |rows| ==> r[i] == Serialize(t, rows[i])
  {
    if rows == [] then [] else [Serialize(t, rows[0])] + SerializeAll(t, rows[1..])
  }

  /** GET /users */
  function GetUsers(users: seq<Entity>): (r: Reply)
    ensures r.Reply? && r.status == 200 && r.body.Many?
    ensures |r.body.records| == |users|
    ensures forall i :: 0 <= i < |users| ==> r.body.records[i] == UserRecord(users[i])
  {
    Reply(200, Many(SerializeAll(UsersTable, users)))
  }

  /** GET /users/<int:user_id> */
  function GetUserId(users: seq<Entity>, userId: nat): (r: Reply)
    ensures r.Reply?
    ensures r.status == 404 <==> !HasId(users, userId)
    ensures r.status == 404 ==> r.body == Message(USER_NOT_FOUND)
    ensures r.status != 404 ==>
      r.status == 200 && r.body.One? && r.body.record.UserRecord? &&
      IsFirstWithId(users, userId, r.body.record.user)
  {
    match FindById(users, userId)
    case None => Reply(404, Message(USER_NOT_FOUND))
    case Some(i) => Reply(200, One(UserRecord(users[i])))
  }

  /** GET /people */
  function GetPeople(people: seq<Entity>): (r: Reply)
    ensures r.Reply? && r.status == 200 && r.body.Many?
    ensures |r.body.records| == |people|
    ensures forall i :: 0 <= i < |people| ==> r.body.records[i] == PersonRecord(people[i])
  {
    Reply(200, Many(SerializeAll(PeopleTable, people)))
  }

  /** GET /people/<int:person_id>; there is no guard for a missing person. */
  function GetPeopleId(people: seq<Entity>, personId: nat): (r: Reply)
    ensures r.Fault? <==> !HasId(people, personId)
    ensures r.Fault? ==> r.error == NONE_SERIALIZE
    ensures r.Reply? ==>
      r.status == 200 && r.body.One? && r.body.record.PersonRecord? &&
      IsFirstWithId(people, personId, r.body.record.person)
  {
    match FindById(people, personId)
    case None => Fault(NONE_SERIALIZE)
    case Some(i) => Reply(200, One(PersonRecord(people[i])))
  }

  /** GET /planets */
  function GetPlanets(planets: seq<Entity>): (r: Reply)
    ensures r.Reply? && r.status == 200 && r.body.Many?
    ensures |r.body.records| == |planets|
    ensures forall i :: 0 <= i < |planets| ==> r.body.records[i] == PlanetRecord(planets[i])
  {
    Reply(200, Many(SerializeAll(PlanetsTable, planets)))
  }

  /** GET /planets/<int:planet_id>; there is no guard for a missing planet. */
  function GetPlanetId(planets: seq<Entity>, planetId: nat): (r: Reply)
    ensures r.Fault? <==> !HasId(planets, planetId)
    ensures r.Fault? ==> r.error == NONE_SERIALIZE
    ensures r.Reply? ==>
      r.status == 200 && r.body.One? && r.body.record.PlanetRecord? &&
      IsFirstWithId(planets, planetId, r.body.record.planet)
  {
    match FindById(planets, planetId)
    case None => Fault(NONE_SERIALIZE)
    case Some(i) => Reply(200, One(PlanetRecord(planets[i])))
  }

  /** GET /people/999 against a People table without that key raises instead of answering 404. */
  lemma MissingPersonFaults(people: seq<Entity>)
    requires forall i :: 0 <= i < |people| ==> people[i].id != 999
    ensures GetPeopleId(people, 999) == Fault(NONE_SERIALIZE)
  {
  }

  /** GET /planets/999 against a Planets table without that key raises instead of answering 404. */
  lemma MissingPlanetFaults(planets: seq<Entity>)
    requires forall i :: 0 <= i < |planets| ==> planets[i].id != 999
    ensures GetPlanetId(planets, 999) == Fault(NONE_SERIALIZE)
  {
  }

  /** The person lookup guarded the way GET /users/<id> is: 404 "Person not found" for a missing key. */
  function GetPeopleIdChecked(people: seq<Entity>, personId: nat): (r: Reply)
    ensures r.Reply?
    ensures r.status == 404 <==> !HasId(people, personId)
    ensures r.status == 404 ==> r.body == Message(PERSON_NOT_FOUND)
    ensures r.status != 404 ==> r == GetPeopleId(people, personId)
  {
    match FindById(people, personId)
    case None => Reply(404, Message(PERSON_NOT_FOUND))
    case Some(i) => Reply(200, One(PersonRecord(people[i])))
  }

  /** The planet lookup guarded the way GET /users/<id> is: 404 "Planet not found" for a missing key. */
  function GetPlanetIdChecked(planets: seq<Entity>, planetId: nat): (r: Reply)
    ensures r.Reply?
    ensures r.status == 404 <==> !HasId(planets, planetId)
    ensures r.status == 404 ==> r.body == Message(PLANET_NOT_FOUND)
    ensures r.status != 404 ==> r == GetPlanetId(planets, planetId)
  {
    match FindById(planets, planetId)
    case None => Reply(404, Message(PLANET_NOT_FOUND))
    case Some(i) => Reply(200, One(PlanetRecord(planets[i])))
  }

  /** `Favorite.query.filter_by(user_id=USER_ID).all()`: the fixed user's rows, in table order. */
  function OwnedBy(s: seq<Favorite>): (r: seq<Favorite>)
    ensures |r| <= |s|
    ensures forall i :: 0 <= i < |r| ==> r[i].userId == USER_ID
  {
    if s == [] then []
    else if s[0].userId == USER_ID then [s[0]] + OwnedBy(s[1..]) else OwnedBy(s[1..])
  }

  /** The filter loses none of USER_ID's rows and keeps none of anyone else's: each row keeps its multiplicity or drops to zero. */
  lemma {:induction false} OwnedByExactly(s: seq<Favorite>)
    ensures forall f :: multiset(OwnedBy(s))[f] == if f.userId == USER_ID then multiset(s)[f] else 0
  {
    if s != [] {
      assert s == [s[0]] + s[1..];
      OwnedByExactly(s[1..]);
    }
  }

  /** The filter keeps order: it distributes over concatenation. */
  lemma {:induction false} OwnedByAppend(a: seq<Favorite>, b: seq<Favorite>)
    ensures OwnedBy(a + b) == OwnedBy(a) + OwnedBy(b)
  {
    if a == [] {
      assert a + b == b;
    } else {
      assert (a + b)[0] == a[0];
      assert (a + b)[1..] == a[1..] + b;
      OwnedByAppend(a[1..], b);
    }
  }

  /** On a single row the filter keeps it exactly when it belongs to USER_ID. */
  lemma OwnedBySingle(f: Favorite)
    ensures OwnedBy([f]) == if f.userId == USER_ID then [f] else []
  {
    assert [f][1..] == [];
  }

  function FavoriteRecords(s: seq<Favorite>): (r: seq<Record>)
    ensures |r| == |s|
    ensures forall i :: 0 <= i < |s| ==> r[i] == FavoriteRecord(s[i])
  {
    if s == [] then [] else [FavoriteRecord(s[0])] + FavoriteRecords(s[1..])
  }

  /** GET /users/favorites */
  function GetUserFavorites(favorites: seq<Favorite>): (r: Reply)
    ensures r.Reply? && r.status == 200 && r.body.Many?
    ensures forall k :: 0 <= k < |r.body.records| ==>
      r.body.records[k].FavoriteRecord? && r.body.records[k].favorite.userId == USER_ID
    ensures |r.body.records| == |OwnedBy(favorites)|
    ensures forall k :: 0 <= k < |r.body.records| ==>
      r.body.records[k] == FavoriteRecord(OwnedBy(favorites)[k])
  {
    Reply(200, Many(FavoriteRecords(OwnedBy(favorites))))
  }
}
