/**
 * The database as the handlers see it: Users, People and Planets are seeded
 * and only read; the Favorite table is changed in place by the POST and
 * DELETE handlers. Each handler method does what its route does and is proved
 * to agree with the step of the same name in module Favorites.
 */
module Api {
  import opened Wrappers
  import opened Models
  import opened Queries
  import Favorites

  class Database {
    const users: seq<Entity>
    const people: seq<Entity>
    const planets: seq<Entity>
    var favorites: seq<Favorite>

    constructor (users: seq<Entity>, people: seq<Entity>, planets: seq<Entity>, favorites: seq<Favorite>)
      ensures this.users == users && this.people == people && this.planets == planets
      ensures this.favorites == favorites
    {
      this.users := users;
      this.people := people;
      this.planets := planets;
      this.favorites := favorites;
    }

    /** `db.session.add(f)` and `commit()`: the row joins the end of the table. */
    method Insert(f: Favorite)
      modifies this
      ensures favorites == old(favorites) + [f]
    {
      favorites := favorites + [f];
    }

    /** `db.session.delete(...)` and `commit()` for the row at position `i`. */
    method Remove(i: nat)
      requires i < |favorites|
      modifies this
      ensures favorites == old(favorites)[..i] + old(favorites)[i + 1..]
    {
      favorites := favorites[..i] + favorites[i + 1..];
    }

    /** POST /favorite/planet/<int:planet_id> */
    method AddFavoritePlanet(planetId: nat) returns (r: Reply)
      modifies this
      ensures Favorites.Transition(r, favorites) == Favorites.AddFavoritePlanet(planets, old(favorites), planetId)
      ensures AllWellFormed(old(favorites)) ==> AllWellFormed(favorites)
    {
      var planet := FindById(planets, planetId);
      if planet.None? {
        return Reply(404, Message(PLANET_NOT_FOUND));
      }
      var newFavorite := Favorite(Favorites.FreshId(favorites), USER_ID, PLANET, planetId);
      Insert(newFavorite);
      r := Reply(201, One(FavoriteRecord(newFavorite)));
    }

    /** POST /favorite/people/<int:people_id> */
    method AddFavoritePeople(peopleId: nat) returns (r: Reply)
      modifies this
      ensures Favorites.Transition(r, favorites) == Favorites.AddFavoritePeople(people, old(favorites), peopleId)
      ensures AllWellFormed(old(favorites)) ==> AllWellFormed(favorites)
    {
      var person := FindById(people, peopleId);
      if person.None? {
        return Reply(404, Message(PERSON_NOT_FOUND));
      }
      var newFavorite := Favorite(Favorites.FreshId(favorites), USER_ID, PERSON, peopleId);
      Insert(newFavorite);
      r := Reply(201, One(FavoriteRecord(newFavorite)));
    }

    /** DELETE /favorite/planet/<int:planet_id> */
    method DeleteFavoritePlanet(planetId: nat) returns (r: Reply)
      modifies this
      ensures Favorites.Transition(r, favorites) == Favorites.DeleteFavoritePlanet(old(favorites), planetId)
      ensures AllWellFormed(old(favorites)) ==> AllWellFormed(favorites)
    {
      var favorite := Favorites.FirstMatch(favorites, PLANET, planetId);
      if favorite.Some? {
        Remove(favorite.value);
        return Reply(200, Message(Favorites.PLANET_DELETED));
      }
      r := Reply(404, Message(Favorites.PLANET_NOT_FAVORITE));
    }

    /** DELETE /favorite/people/<int:people_id> */
    method DeleteFavoritePeople(peopleId: nat) returns (r: Reply)
      modifies this
      ensures Favorites.Transition(r, favorites) == Favorites.DeleteFavoritePeople(old(favorites), peopleId)
      ensures AllWellFormed(old(favorites)) ==> AllWellFormed(favorites)
    {
      var favorite := Favorites.FirstMatch(favorites, PERSON, peopleId);
      if favorite.Some? {
        Remove(favorite.value);
        return Reply(200, Message(Favorites.PERSON_DELETED));
      }
      r := Reply(404, Message(Favorites.PERSON_NOT_FAVORITE));
    }
  }

  /** What a client can prove from the handlers' contracts alone: the Tatooine session. */
  method TatooineSession()
  {
    var db := new Database([], [], [Entity(1, [("name", "Tatooine")])], []);
    assert db.planets[0].id == 1;
    var r := db.AddFavoritePlanet(1);
    assert r.status == 201 && r.body.record.favorite.favoriteId == 1;
    assert |GetUserFavorites(db.favorites).body.records| == 1 by {
      Favorites.ListingAfterAddPlanet(db.planets, [], 1);
    }
    r := db.DeleteFavoritePlanet(1);
    assert r == Reply(200, Message(Favorites.PLANET_DELETED));
    assert db.favorites == [];
    r := db.DeleteFavoritePlanet(1);
    assert r == Reply(404, Message(Favorites.PLANET_NOT_FAVORITE));
  }
}
