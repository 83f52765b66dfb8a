# Star Wars favourites REST API: a Dafny model

This project models the request handlers of a small Flask REST API. The API
serves Users, People (characters) and Planets, and keeps a Favorite table for
one fixed user (`USER_ID = 1`). The ORM is replaced by an in-memory database:

- the Users, People and Planets tables are sequences of `Entity` rows, seeded and only read;
- the Favorite table is a sequence of `(id, user_id, favorite_type, favorite_id)` rows.

The read-only handlers are pure functions over these tables (module `Queries`).
The handlers that add and delete favourites are methods of the class
`Api.Database`, which holds the Favorite table as a mutable field. Each such
method is proved equal to a pure transition of the same name in module
`Favorites`, and the properties are proved as lemmas about those transitions.
Every handler answers with a `Reply(status, body)`, or with a `Fault` for an
exception it does not catch. Module `Config` models how the database URI is
built from `DATABASE_URL`.

Modelling decisions:

- Path parameters are `nat`, because Flask's `<int:...>` converter matches only non-negative integers.
- `serialize()` is a function of the row alone, so a `Record` wraps the row itself.
- `.first()` returns the first row in table order.
- The new favourite's primary key is `FreshId`, one more than the largest key present, and at least 1. Any fresh key would do.
- `if not planet` treats every row object as true; only `None` fails the test.
- The lookups `get_people_id` and `get_plnnet_id` have no guard for a missing row. On a missing key they `Fault` with Python's AttributeError message, as the code does. A 404 guard is not added silently (see Findings).
- `get_plnnet_id` is modelled as `GetPlanetId`.

## Model

| member | source | states |
|---|---|---|
| `Queries.FindById` | src/app.py:47 | `filter_by(id=...).first()` finds nothing exactly when no row has the key; otherwise it returns the first row with that key |
| `Queries.SerializeAll` | src/app.py:42 | the listing has one serialised record per row, in table order |
| `Queries.GetUsers` | src/app.py:39-43 | always 200, with every user record in table order |
| `Queries.GetUserId` | src/app.py:45-50 | 404 with "User not found" exactly when no user has the id; otherwise 200 with the first user that has it |
| `Queries.GetPeople` | src/app.py:52-56 | always 200, with every person record in table order |
| `Queries.GetPeopleId` | src/app.py:58-63 | an uncaught AttributeError exactly when no person has the id; otherwise 200 with the first person that has it |
| `Queries.GetPlanets` | src/app.py:65-69 | always 200, with every planet record in table order |
| `Queries.GetPlanetId` | src/app.py:71-76 | an uncaught AttributeError exactly when no planet has the id; otherwise 200 with the first planet that has it |
| `Queries.MissingPersonFaults` | src/app.py:61-63 | GET /people/999 on a table without id 999 faults instead of answering 404 |
| `Queries.MissingPlanetFaults` | src/app.py:74-76 | GET /planets/999 on a table without id 999 faults instead of answering 404 |
| `Queries.GetPeopleIdChecked` | src/app.py:58-63 | guarded lookup: 404 "Person not found" exactly when the id is missing; otherwise the same reply as the unguarded handler |
| `Queries.GetPlanetIdChecked` | src/app.py:71-76 | guarded lookup: 404 "Planet not found" exactly when the id is missing; otherwise the same reply as the unguarded handler |
| `Queries.OwnedBy` | src/app.py:83 | the favourites filter returns only rows with `user_id == USER_ID`, and no more rows than the table has |
| `Queries.OwnedByExactly` | src/app.py:83 | the filter keeps each of USER_ID's rows as often as the table holds it, and drops every other user's row |
| `Queries.OwnedByAppend` | src/app.py:83 | the filter keeps table order: it distributes over concatenation |
| `Queries.OwnedBySingle` | src/app.py:83 | on one row, the filter keeps it exactly when that row belongs to USER_ID |
| `Queries.FavoriteRecords` | src/app.py:84 | the favourites listing has one record per filtered row, in order |
| `Queries.GetUserFavorites` | src/app.py:81-85 | always 200; the records are exactly the filtered rows of USER_ID, in table order |
| `Favorites.FirstMatch` | src/app.py:111 | the DELETE query finds nothing exactly when no row matches the user, id and type; otherwise it finds the first matching row |
| `Favorites.CountMatches` | src/app.py:111 | the number of matching rows is zero exactly when no row matches |
| `Favorites.FreshId` | src/app.py:92-94 | the committed row's key is at least 1 and differs from every key already in the table |
| `Favorites.AddFavoritePlanet` | src/app.py:87-95 | 404 "Planet not found" with the table unchanged exactly when the planet is missing; otherwise 201 and exactly one row appended: user 1, type "planet", the planet's id, a fresh key; prior rows unchanged; the body is the new row |
| `Favorites.AddFavoritePeople` | src/app.py:98-106 | the same for people: 404 "Person not found", or 201 with one "person" row appended |
| `Favorites.DeleteFavoritePlanet` | src/app.py:109-116 | 404 "Favorite planet not found" with the table unchanged exactly when no row matches `(1, id, "planet")`; otherwise 200 "Favorite planet deleted" and the first match removed, the other rows kept in order |
| `Favorites.DeleteFavoritePeople` | src/app.py:118-125 | the same for people, with "person" and the person messages |
| `Favorites.CountWithoutMatchingRow` | src/app.py:113 | deleting a matching row lowers the count of matches by one |
| `Favorites.RemoveFirstMatchExactlyOne` | src/app.py:111-114 | removing the first match takes exactly one row, and that row matches; every row that does not match keeps its multiplicity |
| `Favorites.DeletePlanetIsolation` | src/app.py:111 | deleting a planet favourite never takes a "person" row, another user's row, or a row for another id, even when the `favorite_id` values coincide |
| `Favorites.DeletePeopleIsolation` | src/app.py:120 | deleting a person favourite never takes a "planet" row, another user's row, or a row for another id |
| `Favorites.DeletePlanetRemovesOne` | src/app.py:111-115 | when a match exists, the table shrinks by exactly one row and by exactly one match |
| `Favorites.DeletePeopleRemovesOne` | src/app.py:120-124 | the same for people |
| `Favorites.AddPlanetTwiceNotIdempotent` | src/app.py:92-94 | there is no duplicate check: posting an existing planet twice leaves two more matching rows, and the second post changes the table |
| `Favorites.AddPeopleTwiceNotIdempotent` | src/app.py:103-105 | the same for people |
| `Favorites.AddsKeepWellFormed` | src/app.py:92-103 | both POST handlers keep the invariant that every row has user 1 and type "planet" or "person" |
| `Favorites.DeletesKeepWellFormed` | src/app.py:111-125 | both DELETE handlers keep that invariant |
| `Favorites.AddThenDeletePlanetRestores` | src/app.py:87-116 | posting a planet nobody has favourited yet and then deleting it restores the table exactly, and the delete answers 200 |
| `Favorites.AddThenDeletePeopleRestores` | src/app.py:98-125 | the same for people |
| `Favorites.ListingAfterAddPlanet` | src/app.py:83-95 | after a successful planet POST, the favourites listing is the old listing plus the new row at the end |
| `Favorites.ListingAfterAddPeople` | src/app.py:83-106 | the same for people |
| `Favorites.ListingWithoutOwnedRow` | src/app.py:83-113 | deleting one of USER_ID's rows shortens the listing by one |
| `Favorites.ListingAfterDeletePlanet` | src/app.py:109-115 | after a successful planet DELETE, the listing is one entry shorter |
| `Favorites.ListingAfterDeletePeople` | src/app.py:118-124 | the same for people |
| `Favorites.TatooineScenario` | src/app.py:81-116 | with only Tatooine (id 1) seeded: POST answers 201 with a "planet" row for id 1; the listing then has length 1; DELETE answers 200; the listing then has length 0 |
| `Api.Database.Insert` | src/app.py:93-94 | `db.session.add` plus `commit` appends exactly the new row |
| `Api.Database.Remove` | src/app.py:113-114 | `db.session.delete` plus `commit` removes exactly the row at that position |
| `Api.Database.AddFavoritePlanet` | src/app.py:87-95 | the in-place handler gives the reply and the new table of `Favorites.AddFavoritePlanet`, and keeps the row invariant |
| `Api.Database.AddFavoritePeople` | src/app.py:98-106 | the in-place handler agrees with `Favorites.AddFavoritePeople` and keeps the row invariant |
| `Api.Database.DeleteFavoritePlanet` | src/app.py:109-116 | the in-place handler agrees with `Favorites.DeleteFavoritePlanet` and keeps the row invariant |
| `Api.Database.DeleteFavoritePeople` | src/app.py:118-125 | the in-place handler agrees with `Favorites.DeleteFavoritePeople` and keeps the row invariant |
| `Config.DatabaseUri` | src/app.py:17-21 | the SQLite fallback when `DATABASE_URL` is unset; otherwise a URI with no "postgres://" left in it, equal to the variable's value when it held none, and otherwise the text before the leftmost "postgres://" kept, that occurrence turned into "postgresql://", and the rest rewritten the same way |
| `Config.ReplaceScheme` | src/app.py:19 | every "postgres://" is replaced, left to right, without overlap (determined by `Config.ReplaceIdentity` and `Config.FirstOccurrence`); its own contract: the result is never shorter than the input |
| `Config.FirstOccurrence` | src/app.py:19 | the general step of `str.replace`: text before the leftmost occurrence is copied, the occurrence becomes "postgresql://", and the rewrite continues after it |
| `Config.ReplaceAtFirstOccurrence` | src/app.py:19 | the same step stated by the position of the leftmost occurrence |
| `Config.ReplaceRewritesLeading` | src/app.py:19 | a leading "postgres://" becomes "postgresql://" and the rest is rewritten the same way |
| `Config.ReplaceIdentity` | src/app.py:19 | a URL without "postgres://" anywhere is left unchanged |
| `Config.ReplaceHerokuUrl` | src/app.py:19 | "postgres://" followed by a rest without the old scheme becomes "postgresql://" followed by the same rest |
| `Config.ReplaceLeavesNoOldScheme` | src/app.py:19 | after the rewrite, "postgres://" occurs nowhere, including across the boundaries of replacements |
| `Config.PrefixWithoutP` | src/app.py:19 | a prefix without 'p' of the rewritten string is already a prefix of the original |
| `Config.NoOccurrenceAfterNewScheme` | src/app.py:19 | "postgresql://" followed by text without the old scheme contains no "postgres://" |
| `Config.NoOccurrenceAfterCopy` | src/app.py:19 | a character copied where no occurrence starts cannot begin one in the result |

`Api.TatooineSession` walks through the same scenario as `Favorites.TatooineScenario` against the class, proved from the handlers' contracts alone, and adds a second DELETE that answers 404. It is a client method with no contract, so it has no row. Lemmas that only state facts about sequences, used inside the proofs above, have no row either.

## Findings

| source | as written | input that shows it | evidently intended | confidence | as-written member | corrected member |
|---|---|---|---|---|---|---|
| src/app.py:58-63 | `person.serialize()` is called without checking that `.first()` found a row | GET /people/999 with no person 999 raises an AttributeError (a server error) | a 404 like GET /users/<id> gives, "Person not found" | medium: the user lookup guards the same case; not executed | `Queries.MissingPersonFaults` | `Queries.GetPeopleIdChecked` |
| src/app.py:71-76 | `planet.serialize()` is called without checking that `.first()` found a row | GET /planets/999 with no planet 999 raises an AttributeError (a server error) | a 404, "Planet not found" | medium: the user lookup guards the same case; not executed | `Queries.MissingPlanetFaults` | `Queries.GetPlanetIdChecked` |

The routes themselves keep the code's behaviour: `GetPeopleId` and `GetPlanetId` model the handlers as written. No other member needs a lookup's reply, so the guarded versions stand beside them and are proved to agree with them wherever a row is found.

## Left out

- Flask routing, `jsonify`, CORS, `setup_admin`, `Migrate` and swagger are framework I/O. A reply is an abstract `(status, body)` pair (src/app.py:5-27).
- The sitemap at `/` and the `APIException` error handler are left out (src/app.py:30-37). They rely on `utils`, which is not part of this model, and no route raises that exception.
- The column lists and `serialize()` bodies of Users, People, Planets and Favorite are left out, because `models.py` is not part of this model. A serialised row is the row itself.
- Auto-increment keys and the order of `.first()` belong to the database. The model takes `FreshId` for the new key and the first row in sequence order.
- `print(person_id)` and `print(planet_id)` (src/app.py:60, 73) are output only.
- `app.run` and the parsing of `PORT` (src/app.py:129-131) are process start-up.
- `db.session.commit`, transactions and races between concurrent writers belong to the database. Each handler is modelled as one atomic step.
- Ids are unbounded integers in the model. Flask's `<int:...>` converter accepts ids of any size, but with the default SQLite database the driver raises OverflowError when a `filter_by(id=...)` binds an id above 2^63-1 (src/app.py:47, 61, 74, 89, 100, 111, 120). That server error is not modelled: for such an id the model answers 404, 201 or 200, as it does for any other id.
- `os.getenv` is a parameter of `Config.DatabaseUri`: the value of `DATABASE_URL`, or none.
- `Config.DatabaseUri`: models only the one `str.replace` call the code makes, with its fixed pattern and replacement, not Python's general `replace` (for example with an empty pattern).
- `Queries.GetPeopleId`: Flask's conversion of the uncaught AttributeError into an HTTP 500 page is the framework's. The model stops at the `Fault`.
- `Queries.GetPlanetId`: the same as `Queries.GetPeopleId`.
