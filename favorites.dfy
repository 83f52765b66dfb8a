/**
 * The favourites bookkeeping as a pure state machine over the Favorite table:
 * what each POST and DELETE handler answers and what the table is afterwards.
 * The class in module Api runs these steps in place; this module states and
 * proves what they do.
 */
module Favorites {
  import opened Wrappers
  import opened Models
  import opened Queries

  const PLANET_DELETED: string := "Favorite planet deleted"
  const PLANET_NOT_FAVORITE: string := "Favorite planet not found"
  const PERSON_DELETED: string := "Favorite person deleted"
  const PERSON_NOT_FAVORITE: string := "Favorite person not found"

  /** A handler's reply together with the Favorite table it leaves behind. */
  datatype Transition = Transition(reply: Reply, favorites: seq<Favorite>)

  /** The filter of the DELETE handlers: `user_id=USER_ID, favorite_id=targetId, favorite_type=kind`. */
  predicate Matches(f: Favorite, kind: string, targetId: int)
  {
    f.userId == USER_ID && f.favoriteId == targetId && f.favoriteType == kind
  }

  predicate NoMatch(s: seq<Favorite>, kind: string, targetId: int)
  {
    forall i :: 0 <= i < |s| ==> !Matches(s[i], kind, targetId)
  }

  /** The DELETE handlers' `.first()`: the position of the first matching row, if any. */
  function FirstMatch(s: seq<Favorite>, kind: string, targetId: int): (r: Option<nat>)
    ensures r.None? <==> NoMatch(s, kind, targetId)
    ensures r.Some? ==>
      && r.value < |s|
      && Matches(s[r.value], kind, targetId)
      && forall j :: 0 <= j < r.value ==> !Matches(s[j], kind, targetId)
  {
    if s == [] then None
    else if Matches(s[0], kind, targetId) then Some(0)
    else match FirstMatch(s[1..], kind, targetId)
      case None => None
      case Some(k) => Some(k + 1)
  }

  /** How many rows match the filter. */
  function CountMatches(s: seq<Favorite>, kind: string, targetId: int): (n: nat)
    ensures n <= |s|
    ensures n == 0 <==> NoMatch(s, kind, targetId)
  {
    if s == [] then 0
    else (if Matches(s[0], kind, targetId) then 1 else 0) + CountMatches(s[1..], kind, targetId)
  }

  lemma {:induction false} CountMatchesAppend(a: seq<Favorite>, b: seq<Favorite>, kind: string, targetId: int)
    ensures CountMatches(a + b, kind, targetId) == CountMatches(a, kind, targetId) + CountMatches(b, kind, targetId)
  {
    if a == [] {
      assert a + b == b;
    } else {
      assert (a + b)[0] == a[0];
      assert (a + b)[1..] == a[1..] + b;
      CountMatchesAppend(a[1..], b, kind, targetId);
    }
  }

  /**
   * The primary key the database gives a new row. Auto-increment is the
   * database's business; the model takes one more than every key present.
   */
  function FreshId(s: seq<Favorite>): (r: int)
    ensures r >= 1
    ensures forall i :: 0 <= i < |s| ==> s[i].id < r
  {
    if s == [] then 1
    else
      var rest := FreshId(s[1..]);
      if s[0].id + 1 > rest then s[0].id + 1 else rest
  }

  /** The row `Favorite(user_id=USER_ID, favorite_type=kind, favorite_id=targetId)` once committed. */
  function NewFavorite(s: seq<Favorite>, kind: string, targetId: int): Favorite
  {
    Favorite(FreshId(s), USER_ID, kind, targetId)
  }

  /** Look the target up in its table; insert a favourite for it only if it exists. */
  function AddFavorite(targets: seq<Entity>, s: seq<Favorite>, kind: string, targetId: int, notFound: string): Transition
  {
    match FindById(targets, targetId)
    case None => Transition(Reply(404, Message(notFound)), s)
    case Some(_) =>
      var f := NewFavorite(s, kind, targetId);
      Transition(Reply(201, One(FavoriteRecord(f))), s + [f])
  }

  /** POST /favorite/planet/<int:planet_id> */
  function AddFavoritePlanet(planets: seq<Entity>, s: seq<Favorite>, planetId: nat): (t: Transition)
    ensures t.reply.Reply?
    ensures t.reply.status == 404 <==> !HasId(planets, planetId)
    ensures t.reply.status == 404 ==> t.reply.body == Message(PLANET_NOT_FOUND) && t.favorites == s
    ensures t.reply.status != 404 ==>
      && t.reply.status == 201
      && |t.favorites| == |s| + 1
      && t.favorites[..|s|] == s
      && var f := t.favorites[|s|];
         && f.userId == USER_ID && f.favoriteType == PLANET && f.favoriteId == planetId
         && (forall i :: 0 <= i < |s| ==> s[i].id != f.id)
         && t.reply.body == One(FavoriteRecord(f))
  {
    AddFavorite(planets, s, PLANET, planetId, PLANET_NOT_FOUND)
  }

  /** POST /favorite/people/<int:people_id> */
  function AddFavoritePeople(people: seq<Entity>, s: seq<Favorite>, peopleId: nat): (t: Transition)
    ensures t.reply.Reply?
    ensures t.reply.status == 404 <==> !HasId(people, peopleId)
    ensures t.reply.status == 404 ==> t.reply.body == Message(PERSON_NOT_FOUND) && t.favorites == s
    ensures t.reply.status != 404 ==>
      && t.reply.status == 201
      && |t.favorites| == |s| + 1
      && t.favorites[..|s|] == s
      && var f := t.favorites[|s|];
         && f.userId == USER_ID && f.favoriteType == PERSON && f.favoriteId == peopleId
         && (forall i :: 0 <= i < |s| ==> s[i].id != f.id)
         && t.reply.body == One(FavoriteRecord(f))
  {
    AddFavorite(people, s, PERSON, peopleId, PERSON_NOT_FOUND)
  }

  /** `s'` is `s` without its first matching row, the other rows kept in order. */
  predicate RemovedFirstMatch(s: seq<Favorite>, s': seq<Favorite>, kind: string, targetId: int)
  {
    exists i :: 0 <= i < |s| && Matches(s[i], kind, targetId) &&
      (forall j :: 0 <= j < i ==> !Matches(s[j], kind, targetId)) &&
      s' == s[..i] + s[i + 1..]
  }

  /** Find the first matching row; delete it if there is one. */
  function DeleteFavorite(s: seq<Favorite>, kind: string, targetId: int, deleted: string, notFound: string): Transition
  {
    match FirstMatch(s, kind, targetId)
    case None => Transition(Reply(404, Message(notFound)), s)
    case Some(i) => Transition(Reply(200, Message(deleted)), s[..i] + s[i + 1..])
  }

  /** DELETE /favorite/planet/<int:planet_id> */
  function DeleteFavoritePlanet(s: seq<Favorite>, planetId: nat): (t: Transition)
    ensures t.reply.Reply?
    ensures t.reply.status == 404 <==> NoMatch(s, PLANET, planetId)
    ensures t.reply.status == 404 ==> t.reply.body == Message(PLANET_NOT_FAVORITE) && t.favorites == s
    ensures t.reply.status != 404 ==>
      && t.reply.status == 200
      && t.reply.body == Message(PLANET_DELETED)
      && RemovedFirstMatch(s, t.favorites, PLANET, planetId)
  {
    DeleteFavorite(s, PLANET, planetId, PLANET_DELETED, PLANET_NOT_FAVORITE)
  }

  /** DELETE /favorite/people/<int:people_id> */
  function DeleteFavoritePeople(s: seq<Favorite>, peopleId: nat): (t: Transition)
    ensures t.reply.Reply?
    ensures t.reply.status == 404 <==> NoMatch(s, PERSON, peopleId)
    ensures t.reply.status == 404 ==> t.reply.body == Message(PERSON_NOT_FAVORITE) && t.favorites == s
    ensures t.reply.status != 404 ==>
      && t.reply.status == 200
      && t.reply.body == Message(PERSON_DELETED)
      && RemovedFirstMatch(s, t.favorites, PERSON, peopleId)
  {
    DeleteFavorite(s, PERSON, peopleId, PERSON_DELETED, PERSON_NOT_FAVORITE)
  }

  /** Taking out a matching row lowers the count of matches by one. */
  lemma CountWithoutMatchingRow(s: seq<Favorite>, i: nat, kind: string, targetId: int)
    requires i < |s| && Matches(s[i], kind, targetId)
    ensures CountMatches(s[..i] + s[i + 1..], kind, targetId) == CountMatches(s, kind, targetId) - 1
  {
    var a, b := s[..i], s[i + 1..];
    assert s == (a + [s[i]]) + b;
    CountMatchesAppend(a + [s[i]], b, kind, targetId);
    CountMatchesAppend(a, [s[i]], kind, targetId);
    CountMatchesAppend(a, b, kind, targetId);
    assert [s[i]][1..] == [];
  }

  /** Taking out the row at `i` lowers its multiplicity by one and leaves every other row's alone. */
  lemma MultisetWithoutRow(s: seq<Favorite>, i: nat)
    requires i < |s|
    ensures multiset(s) == multiset(s[..i] + s[i + 1..]) + multiset{s[i]}
  {
    assert s == s[..i] + [s[i]] + s[i + 1..];
  }

  /**
   * Removing the first match takes away exactly one matching row and no other:
   * the count of matches drops by one and every non-matching row keeps its
   * multiplicity.
   */
  lemma RemoveFirstMatchExactlyOne(s: seq<Favorite>, s': seq<Favorite>, kind: string, targetId: int)
    requires RemovedFirstMatch(s, s', kind, targetId)
    ensures |s'| == |s| - 1
    ensures CountMatches(s', kind, targetId) == CountMatches(s, kind, targetId) - 1
    ensures forall f :: !Matches(f, kind, targetId) ==> multiset(s')[f] == multiset(s)[f]
  {
    var i :| 0 <= i < |s| && Matches(s[i], kind, targetId) &&
      (forall j :: 0 <= j < i ==> !Matches(s[j], kind, targetId)) &&
      s' == s[..i] + s[i + 1..];
    CountWithoutMatchingRow(s, i, kind, targetId);
    MultisetWithoutRow(s, i);
  }

  /**
   * Type isolation: deleting a planet favourite never takes away a "person"
   * row or a row of another user, even one whose favorite_id is the planet's.
   */
  lemma DeletePlanetIsolation(s: seq<Favorite>, planetId: nat)
    ensures var s' := DeleteFavoritePlanet(s, planetId).favorites;
      forall f: Favorite :: (f.favoriteType != PLANET || f.userId != USER_ID || f.favoriteId != planetId) ==>
        multiset(s')[f] == multiset(s)[f]
  {
    var t := DeleteFavoritePlanet(s, planetId);
    if t.reply.status != 404 {
      RemoveFirstMatchExactlyOne(s, t.favorites, PLANET, planetId);
    }
  }

  /** Type isolation for the person variant. */
  lemma DeletePeopleIsolation(s: seq<Favorite>, peopleId: nat)
    ensures var s' := DeleteFavoritePeople(s, peopleId).favorites;
      forall f: Favorite :: (f.favoriteType != PERSON || f.userId != USER_ID || f.favoriteId != peopleId) ==>
        multiset(s')[f] == multiset(s)[f]
  {
    var t := DeleteFavoritePeople(s, peopleId);
    if t.reply.status != 404 {
      RemoveFirstMatchExactlyOne(s, t.favorites, PERSON, peopleId);
    }
  }

  /** A successful DELETE leaves one row fewer, and one matching row fewer. */
  lemma DeletePlanetRemovesOne(s: seq<Favorite>, planetId: nat)
    requires !NoMatch(s, PLANET, planetId)
    ensures var s' := DeleteFavoritePlanet(s, planetId).favorites;
      |s'| == |s| - 1 && CountMatches(s', PLANET, planetId) == CountMatches(s, PLANET, planetId) - 1
  {
    RemoveFirstMatchExactlyOne(s, DeleteFavoritePlanet(s, planetId).favorites, PLANET, planetId);
  }

  lemma DeletePeopleRemovesOne(s: seq<Favorite>, peopleId: nat)
    requires !NoMatch(s, PERSON, peopleId)
    ensures var s' := DeleteFavoritePeople(s, peopleId).favorites;
      |s'| == |s| - 1 && CountMatches(s', PERSON, peopleId) == CountMatches(s, PERSON, peopleId) - 1
  {
    RemoveFirstMatchExactlyOne(s, DeleteFavoritePeople(s, peopleId).favorites, PERSON, peopleId);
  }

  /** There is no duplicate check: adding an existing planet twice leaves two more matching rows. */
  lemma AddPlanetTwiceNotIdempotent(planets: seq<Entity>, s: seq<Favorite>, planetId: nat)
    requires HasId(planets, planetId)
    ensures var t1 := AddFavoritePlanet(planets, s, planetId);
      var t2 := AddFavoritePlanet(planets, t1.favorites, planetId);
      && t2.reply.status == 201
      && t2.favorites != t1.favorites
      && CountMatches(t2.favorites, PLANET, planetId) == CountMatches(s, PLANET, planetId) + 2
  {
    var t1 := AddFavoritePlanet(planets, s, planetId);
    var t2 := AddFavoritePlanet(planets, t1.favorites, planetId);
    var f1 := NewFavorite(s, PLANET, planetId);
    var f2 := NewFavorite(t1.favorites, PLANET, planetId);
    assert t2.favorites == s + [f1] + [f2];
    CountMatchesAppend(s + [f1], [f2], PLANET, planetId);
    CountMatchesAppend(s, [f1], PLANET, planetId);
    assert [f1][1..] == [] && [f2][1..] == [];
  }

  /** The person variant is not idempotent either. */
  lemma AddPeopleTwiceNotIdempotent(people: seq<Entity>, s: seq<Favorite>, peopleId: nat)
    requires HasId(people, peopleId)
    ensures var t1 := AddFavoritePeople(people, s, peopleId);
      var t2 := AddFavoritePeople(people, t1.favorites, peopleId);
      && t2.reply.status == 201
      && t2.favorites != t1.favorites
      && CountMatches(t2.favorites, PERSON, peopleId) == CountMatches(s, PERSON, peopleId) + 2
  {
    var t1 := AddFavoritePeople(people, s, peopleId);
    var t2 := AddFavoritePeople(people, t1.favorites, peopleId);
    var f1 := NewFavorite(s, PERSON, peopleId);
    var f2 := NewFavorite(t1.favorites, PERSON, peopleId);
    assert t2.favorites == s + [f1] + [f2];
    CountMatchesAppend(s + [f1], [f2], PERSON, peopleId);
    CountMatchesAppend(s, [f1], PERSON, peopleId);
    assert [f1][1..] == [] && [f2][1..] == [];
  }

  /**
   * The row invariant: every row a handler writes is owned by USER_ID and typed
   * "planet" or "person", so a table that satisfies it keeps satisfying it.
   */
  lemma AddsKeepWellFormed(planets: seq<Entity>, people: seq<Entity>, s: seq<Favorite>, id: nat)
    requires AllWellFormed(s)
    ensures AllWellFormed(AddFavoritePlanet(planets, s, id).favorites)
    ensures AllWellFormed(AddFavoritePeople(people, s, id).favorites)
  {
    var p := AddFavoritePlanet(planets, s, id);
    if p.reply.status != 404 {
      AppendKeepsWellFormed(s, p.favorites[|s|]);
      assert p.favorites == s + [p.favorites[|s|]];
    }
    var q := AddFavoritePeople(people, s, id);
    if q.reply.status != 404 {
      AppendKeepsWellFormed(s, q.favorites[|s|]);
      assert q.favorites == s + [q.favorites[|s|]];
    }
  }

  lemma DeletesKeepWellFormed(s: seq<Favorite>, id: nat)
    requires AllWellFormed(s)
    ensures AllWellFormed(DeleteFavoritePlanet(s, id).favorites)
    ensures AllWellFormed(DeleteFavoritePeople(s, id).favorites)
  {
    match FirstMatch(s, PLANET, id) {
      case None =>
      case Some(i) => RemoveKeepsWellFormed(s, i);
    }
    match FirstMatch(s, PERSON, id) {
      case None =>
      case Some(i) => RemoveKeepsWellFormed(s, i);
    }
  }

  lemma AppendKeepsWellFormed(s: seq<Favorite>, f: Favorite)
    requires AllWellFormed(s) && WellFormed(f)
    ensures AllWellFormed(s + [f])
  {
  }

  lemma RemoveKeepsWellFormed(s: seq<Favorite>, i: nat)
    requires AllWellFormed(s) && i < |s|
    ensures AllWellFormed(s[..i] + s[i + 1..])
  {
  }

  /**
   * Adding a planet nobody has favourited yet and deleting it again gives the
   * table back: the delete finds exactly the row the add appended.
   */
  lemma AddThenDeletePlanetRestores(planets: seq<Entity>, s: seq<Favorite>, planetId: nat)
    requires HasId(planets, planetId) && NoMatch(s, PLANET, planetId)
    ensures DeleteFavoritePlanet(AddFavoritePlanet(planets, s, planetId).favorites, planetId)
      == Transition(Reply(200, Message(PLANET_DELETED)), s)
  {
    var s1 := AddFavoritePlanet(planets, s, planetId).favorites;
    var k := FirstMatch(s1, PLANET, planetId);
    assert Matches(s1[|s|], PLANET, planetId);
    assert k == Some(|s|);
    assert s1[..|s|] + s1[|s| + 1..] == s;
  }

  lemma AddThenDeletePeopleRestores(people: seq<Entity>, s: seq<Favorite>, peopleId: nat)
    requires HasId(people, peopleId) && NoMatch(s, PERSON, peopleId)
    ensures DeleteFavoritePeople(AddFavoritePeople(people, s, peopleId).favorites, peopleId)
      == Transition(Reply(200, Message(PERSON_DELETED)), s)
  {
    var s1 := AddFavoritePeople(people, s, peopleId).favorites;
    var k := FirstMatch(s1, PERSON, peopleId);
    assert Matches(s1[|s|], PERSON, peopleId);
    assert k == Some(|s|);
    assert s1[..|s|] + s1[|s| + 1..] == s;
  }

  /** After a successful POST the favourites listing is the old one plus the new row at the end. */
  lemma ListingAfterAddPlanet(planets: seq<Entity>, s: seq<Favorite>, planetId: nat)
    requires HasId(planets, planetId)
    ensures var t := AddFavoritePlanet(planets, s, planetId);
      OwnedBy(t.favorites) == OwnedBy(s) + [t.favorites[|s|]]
  {
    var t := AddFavoritePlanet(planets, s, planetId);
    var f := t.favorites[|s|];
    assert t.favorites == s + [f];
    OwnedByAppend(s, [f]);
    OwnedBySingle(f);
  }

  /** Taking out one of USER_ID's rows shortens the favourites listing by one. */
  lemma ListingWithoutOwnedRow(s: seq<Favorite>, i: nat)
    requires i < |s| && s[i].userId == USER_ID
    ensures |OwnedBy(s[..i] + s[i + 1..])| == |OwnedBy(s)| - 1
  {
    var a, b := s[..i], s[i + 1..];
    assert s == (a + [s[i]]) + b;
    OwnedByAppend(a + [s[i]], b);
    OwnedByAppend(a, [s[i]]);
    OwnedBySingle(s[i]);
    OwnedByAppend(a, b);
  }

  /** After a successful DELETE the favourites listing is one entry shorter. */
  lemma ListingAfterDeletePlanet(s: seq<Favorite>, planetId: nat)
    requires !NoMatch(s, PLANET, planetId)
    ensures |OwnedBy(DeleteFavoritePlanet(s, planetId).favorites)| == |OwnedBy(s)| - 1
  {
    var i := FirstMatch(s, PLANET, planetId).value;
    assert DeleteFavoritePlanet(s, planetId).favorites == s[..i] + s[i + 1..];
    ListingWithoutOwnedRow(s, i);
  }

  lemma ListingAfterDeletePeople(s: seq<Favorite>, peopleId: nat)
    requires !NoMatch(s, PERSON, peopleId)
    ensures |OwnedBy(DeleteFavoritePeople(s, peopleId).favorites)| == |OwnedBy(s)| - 1
  {
    var i := FirstMatch(s, PERSON, peopleId).value;
    assert DeleteFavoritePeople(s, peopleId).favorites == s[..i] + s[i + 1..];
    ListingWithoutOwnedRow(s, i);
  }

  /** After a successful POST of a person the listing is the old one plus the new row at the end. */
  lemma ListingAfterAddPeople(people: seq<Entity>, s: seq<Favorite>, peopleId: nat)
    requires HasId(people, peopleId)
    ensures var t := AddFavoritePeople(people, s, peopleId);
      OwnedBy(t.favorites) == OwnedBy(s) + [t.favorites[|s|]]
  {
    var t := AddFavoritePeople(people, s, peopleId);
    var f := t.favorites[|s|];
    assert t.favorites == s + [f];
    OwnedByAppend(s, [f]);
    OwnedBySingle(f);
  }

  /**
   * Seed Planets with Tatooine (id 1) and no favourites: POST favourites it
   * (201, type "planet", id 1), the listing has one entry, DELETE answers 200,
   * and the listing is empty again.
   */
  lemma TatooineScenario()
    ensures var planets := [Entity(1, [("name", "Tatooine")])];
      var added := AddFavoritePlanet(planets, [], 1);
      var deleted := DeleteFavoritePlanet(added.favorites, 1);
      && added.reply.status == 201
      && added.reply.body.One? && added.reply.body.record.FavoriteRecord?
      && added.reply.body.record.favorite.favoriteType == PLANET
      && added.reply.body.record.favorite.favoriteId == 1
      && |GetUserFavorites(added.favorites).body.records| == 1
      && deleted.reply == Reply(200, Message(PLANET_DELETED))
      && |GetUserFavorites(deleted.favorites).body.records| == 0
  {
    var planets := [Entity(1, [("name", "Tatooine")])];
    assert planets[0].id == 1;
    var added := AddFavoritePlanet(planets, [], 1);
    AddThenDeletePlanetRestores(planets, [], 1);
    ListingAfterAddPlanet(planets, [], 1);
  }
}
