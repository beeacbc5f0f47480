# Film store of the `/films` router, modelled in Dafny

The repository is a series of teaching exercises for an Express application
whose `/films` router keeps an in-memory list of films. That list starts as
five seed films. The router lists films, with an optional
`minimum-duration` filter. It also looks a film up by id, creates films, and
in its last stage deletes, patches and upserts them.

This project models the router at three stages. Each handler is a pure
transition from the store before a request to a `Step`: the response
(status code and payload) and the store after the request.

- `Router13` (exercise 1.3) has list, lookup and create. An invalid body gets
  the message "Wrong film format" with status 200. There is no duplicate
  check.
- `Router15` (exercise 1.5) adds status codes: 400 for an invalid body and 409
  for a duplicate title and director. Lookup and listing answer errors with
  `sendStatus`.
- `Router16` (exercise 1.6) adds `DELETE`, `PATCH` and `PUT`. It also has a
  dispatcher, `Handle`, and `Serve`, which runs a sequence of requests.

The shared parts are in `Films`: the stored records, the body validators, the
id counter (`films.reduce(...) + 1`), the searches (`find`, `findIndex`,
`filter`), the two spreads, the response shapes and the seed list. `Json`
models the request bodies. A body is a parsed JSON value: null, boolean,
number, string, array or object. `Json` also models the JavaScript primitives
the handlers apply to a body: `typeof`/truthiness, `in`, `Object.keys`,
spread, `trim` and `toLowerCase`.

A stored film is the JavaScript object itself, a map from keys to JSON
values. The handlers build stored films as `{ id: nextId, ...body }` and
`{ ...old, ...body }`, so every key of the body lands in the store. That
includes unknown keys and an `id` key, which overrides the assigned one. The
`Film` datatype is the declared TypeScript shape. `Decode` reads a record as a
`Film` exactly when the record is one the store can hold: a valid film body
with a positive integer id.

The store invariant `ValidStore` says every record is valid and no two share
an id. The seed list satisfies it. Every handler of the last stage preserves
it when the request body has no `id` key, and so does any sequence of such
requests (`ServeKeepsValid`). `BodyIdOverridesAssignedId` shows what happens
without that condition: posting `id: 1` to the seed list leaves two films with
id 1.

Some consequences of the code that a reader of the routes might not expect:

- `PUT` on an existing id spreads the body over the stored record, so the
  optional fields the body omits keep their old values
  (`PutKeepsOmittedFields`), and a body `id` key replaces the id.
- The spreads let a POST, PUT or PATCH body set or change `id`; nothing keeps
  ids assigned by the store.
- `PATCH` on an unknown id answers 400, not 404 (`PatchUnknownIs400`).
- A non-empty JSON array passes the PATCH validator, because
  `typeof [] === "object"` and `Object.keys` counts its indices. Its indices
  then become keys of the film (`ArrayIsValidPatch`, `PatchWithArray`).

Request parameters arrive already parsed. `minimum-duration` is a
`QueryParam`: `Absent`, `NotANumber` or `Num(x)`. The `:id` of `GET` goes
through `parseInt`, so it is an `Option<int>`. The `:id` of
`DELETE`/`PATCH`/`PUT` goes through `Number`, so it is an `Option<real>`. In
both, `None` stands for `NaN`.

## Model

| member | source | states |
|---|---|---|
| Json.AsObject | exercises/1.6/routes/films.ts:118-120 | a body passes the guard `!film \|\| typeof film !== "object"`, with JavaScript truthiness and `typeof` (`typeof null` is "object"), exactly when it is a JSON object or array; an object is then seen as its own fields and an array as its index properties |
| Json.NatToStringInjective | exercises/1.6/routes/films.ts:202-205 | two different indices never share a decimal spelling, so no two array elements share a property name |
| Json.ArrayProperties | exercises/1.6/routes/films.ts:202-205 | an array, spread or passed to `Object.keys`, has a property for each index, every property name is a digit string, and it has no properties exactly when it is empty |
| Json.IndexOfProperty | exercises/1.6/routes/films.ts:202-205 | every property of a spread array names an index below its length |
| Json.ArrayPropertiesAreIndices | exercises/1.6/routes/films.ts:202-205 | an array has no property besides the spellings of its indices |
| Json.ArrayPropertiesValues | exercises/1.6/routes/films.ts:222 | the property named by index `i` holds the element at `i`, which is what the PATCH spread copies into the film |
| Json.NamedKeyNotInArray | exercises/1.6/routes/films.ts:206-217 | a key that starts with a non-digit, such as `title`, is never a property of an array |
| Json.LowerIsIdempotent | exercises/1.6/routes/films.ts:144-145 | lower-casing leaves no capital letter, so lower-casing again changes nothing |
| Json.SameIgnoringCaseIsEquivalence | exercises/1.6/routes/films.ts:142-146 | the case-insensitive comparison of the duplicate check is reflexive, symmetric and transitive |
| Json.SameIgnoringCaseCharwise | exercises/1.6/routes/films.ts:144-145 | two strings match ignoring case iff they have the same length and agree character by character after lower-casing |
| Films.ValidFilmBodyIff | exercises/1.6/routes/films.ts:118-138 | the POST/PUT body is accepted iff it is a JSON object whose title and director are non-blank strings, duration a positive number, budget (if present) a positive number, description and imageUrl (if present) non-blank strings; no array or scalar passes |
| Films.ArrayIsValidPatch | exercises/1.6/routes/films.ts:202-220 | every non-empty array passes the PATCH validator |
| Films.ValidNewFilmIsValidPatch | exercises/1.6/routes/films.ts:202-218 | every body the full validator accepts also passes the patch validator |
| Films.Encode | exercises/1.6/routes/films.ts:7-18 | a typed film is written as an object with only the declared keys, under its id, and a well-formed film gives a storable record |
| Films.Decode | exercises/1.6/routes/films.ts:7-18 | a record reads as a typed film exactly when it is storable (valid body plus positive integer id), and the film it reads obeys the field rules and keeps the id |
| Films.DecodeEncode | exercises/1.6/routes/films.ts:7-18 | writing a well-formed film and reading it back gives the same film |
| Films.EncodeDecode | exercises/1.6/routes/films.ts:7-18 | a storable record with only declared keys is exactly the object written for the film it reads as |
| Films.FindIndexFrom | exercises/1.6/routes/films.ts:171 | the search from a start index finds the first film with that id at or after it, or reports that none has it |
| Films.FindIndex | exercises/1.6/routes/films.ts:171-175 | `findIndex` returns the first position whose film has the id, and returns -1 (None) exactly when no film has it |
| Films.FindIndexUnique | exercises/1.6/routes/films.ts:104 | with unique ids the film found for an id is the one film that has it |
| Films.FilterMinDuration | exercises/1.6/routes/films.ts:90 | the filter never grows the list and keeps exactly the films whose numeric duration is at least the minimum |
| Films.FilterOne | exercises/1.6/routes/films.ts:90 | a single film is kept exactly when it is long enough |
| Films.FilterConcat | exercises/1.6/routes/films.ts:90 | filtering a concatenation concatenates the filtered parts, so storage order is preserved |
| Films.FilterKeepsAll | exercises/1.6/routes/films.ts:90 | a minimum no film falls short of returns the store unchanged |
| Films.MaxIdFrom | exercises/1.6/routes/films.ts:153-154 | the reduce result is at least its start, at least every numeric id, and either the start or one of the ids |
| Films.NextId | exercises/1.6/routes/films.ts:153-154 | the next id is at least 1 and strictly greater than every stored id |
| Films.NextIdIsPositiveInt | exercises/1.6/routes/films.ts:153-154 | over valid records the next id is a positive integer |
| Films.MaxIdOfNumbered | exercises/1.6/routes/films.ts:153-154 | folding over films numbered consecutively from the start value ends at the last number |
| Films.NextIdOfNumbered | exercises/1.6/routes/films.ts:153-154 | a store holding ids 1..n in order gets next id n + 1 |
| Films.NewRecord | exercises/1.6/routes/films.ts:157 | `{ id: nextId, ...body }` has the body's keys plus `id`, the body's values win, and without a body `id` the id is the assigned one |
| Films.Merge | exercises/1.6/routes/films.ts:222 | `{ ...old, ...body }` has the keys of both, the body's values overwrite, and every key absent from the body keeps its old value |
| Films.MergeKeepsValid | exercises/1.6/routes/films.ts:222-224 | merging a well-formed patch without an `id` key keeps a record storable and keeps its id |
| Films.NewRecordIsValid | exercises/1.6/routes/films.ts:153-157 | a valid body without an `id` key under a positive integer id is a storable record |
| Films.AppendKeepsValid | exercises/1.6/routes/films.ts:159 | pushing a storable record with a fresh id keeps the store invariant |
| Films.ReplaceKeepsValid | exercises/1.6/routes/films.ts:224 | overwriting a record with a storable one of the same id keeps the store invariant |
| Films.Remove | exercises/1.6/routes/films.ts:180 | `splice(i, 1)` shortens the store by one and keeps every other film in its relative order |
| Films.RemoveKeepsValid | exercises/1.6/routes/films.ts:180 | removing a film keeps the store invariant |
| Films.RemoveLeavesNoMatch | exercises/1.6/routes/films.ts:171-180 | with unique ids, after the splice no film carries the removed film's id |
| Films.SeedFilmsOk | exercises/1.6/routes/films.ts:7-62 | every seed film obeys the field rules and the ids run 1 to 5 |
| Films.SeedFields | exercises/1.6/routes/films.ts:7-62 | the seed records hold each seed film's title, director and duration |
| Films.SeedIsValid | exercises/1.6/routes/films.ts:7-62 | the seed store satisfies the store invariant with ids 1 to 5 in order |
| Router13.List | exercises/1.3/routes/films.ts:64-95 | no parameter gives 200 with the whole store; a non-number or a value <= 0 gives 400 "Wrong minimum duration"; otherwise 200 with exactly the films at least that long, in order; the store is unchanged |
| Router13.GetById | exercises/1.3/routes/films.ts:97-115 | NaN gives 400 "id is not a number", an unknown id 404 with an empty body, otherwise 200 with the first stored film of that id, as `find` returns it; the store is unchanged |
| Router13.Create | exercises/1.3/routes/films.ts:117-154 | the status is always 200; an invalid body gets "Wrong film format" and leaves the store alone; a valid one is appended with its keys and the next id |
| Router13.DuplicateIsAppended | exercises/1.3/routes/films.ts:143-153 | a valid body repeating a stored title and director is still appended after the existing films |
| Router13.CreateKeepsValid | exercises/1.3/routes/films.ts:146-151 | creation keeps the store invariant for bodies without an `id` key |
| Router15.List | exercises/1.5/routes/films.ts:64-93 | no parameter gives the whole store; a non-number or a value <= 0 gives 400; otherwise exactly the films at least that long, in order; the store is unchanged |
| Router15.GetById | exercises/1.5/routes/films.ts:95-112 | NaN gives 400, an unknown id 404, otherwise 200 with the first stored film of that id, as `find` returns it; the store is unchanged |
| Router15.Create | exercises/1.5/routes/films.ts:114-162 | an invalid body gives 400 and a duplicate title and director 409, both with the store unchanged; otherwise the film is appended with its keys and the next id |
| Router15.OnlyAppends | exercises/1.5/routes/films.ts:64-162 | no request changes an existing film: the store is unchanged or has one film appended, and only POST can append |
| Router15.CreateKeepsValid | exercises/1.5/routes/films.ts:153-161 | creation keeps ids unique and records storable for bodies without an `id` key |
| Router15.CreatedIdIsFresh | exercises/1.5/routes/films.ts:153-157 | a created film's id is greater than every id already stored |
| Router16.List | exercises/1.6/routes/films.ts:64-93 | no parameter gives the whole store in storage order; a non-number or a value <= 0 gives 400; otherwise exactly the films at least that long, in order; the store is unchanged |
| Router16.GetById | exercises/1.6/routes/films.ts:95-112 | NaN gives 400, an id no film has 404, otherwise 200 with the first stored film of that id, as `find` returns it; the store is unchanged |
| Router16.Create | exercises/1.6/routes/films.ts:114-162 | an invalid body gives 400 and a case-insensitive title and director match 409, both with the store unchanged; otherwise the film is appended last with the body's keys and, without a body `id`, id max+1 |
| Router16.Delete | exercises/1.6/routes/films.ts:164-185 | NaN gives 400 and an unknown id 404, store unchanged; otherwise the first film with the id is removed, returned, and the rest keep their order |
| Router16.Patch | exercises/1.6/routes/films.ts:187-229 | it answers 200 iff the id is a number, some film has it and the patch is valid; every other case is 400 with the store unchanged; on success the merged film replaces the old one at the same index |
| Router16.Put | exercises/1.6/routes/films.ts:231-282 | an invalid body or NaN id gives 400; an unknown id appends the body under the next id; a known id merges the body over the film at its index |
| Router16.CreateKeepsValid | exercises/1.6/routes/films.ts:153-161 | POST keeps the store invariant for bodies without an `id` key |
| Router16.DeleteKeepsValid | exercises/1.6/routes/films.ts:171-180 | DELETE keeps the store invariant |
| Router16.PatchKeepsValid | exercises/1.6/routes/films.ts:222-224 | PATCH keeps the store invariant for patches without an `id` key |
| Router16.PutKeepsValid | exercises/1.6/routes/films.ts:263-281 | PUT keeps the store invariant for bodies without an `id` key, on both the create and the update path |
| Router16.HandleKeepsValid | exercises/1.6/routes/films.ts:64-282 | every request whose body has no `id` key keeps the store invariant |
| Router16.ServeKeepsValid | exercises/1.6/routes/films.ts:64-282 | any sequence of such requests from a valid store leaves a valid store |
| Router16.CreateThenGet | exercises/1.6/routes/films.ts:97-161 | after a successful POST, `GET /:id` with the new id returns exactly the film POST returned |
| Router16.DeleteThenGet | exercises/1.6/routes/films.ts:97-182 | after a successful DELETE, `GET /:id` with that id answers 404 |
| Router16.PatchKeepsIdAndPlace | exercises/1.6/routes/films.ts:222-224 | a successful PATCH without an `id` key keeps the length, keeps the film's id at its index, leaves every other film alone and keeps every field the patch omits |
| Router16.PutCreateIgnoresUrlId | exercises/1.6/routes/films.ts:263-274 | PUT on an unknown id does the same whatever that id is, and the new film gets the next id |
| Router16.PutKeepsOmittedFields | exercises/1.6/routes/films.ts:277-279 | PUT on a known id keeps every stored field the body omits |
| Router16.SameAsRouter15 | exercises/1.6/routes/films.ts:64-162 | list, lookup and create behave exactly as in the previous stage |
| Scenarios.SeedNextId | exercises/1.6/routes/films.ts:153-154 | the seed store's next id is 6 |
| Scenarios.NoDuplicateByTitleLength | exercises/1.6/routes/films.ts:142-146 | a title whose length differs from every stored title cannot be a duplicate |
| Scenarios.InceptionIsNew | exercises/1.6/routes/films.ts:118-146 | the body for "Inception" by "Nolan" is valid and repeats no seed film |
| Scenarios.CreateAccepted | exercises/1.6/routes/films.ts:153-161 | a valid non-duplicate body is answered with the new record and appended |
| Scenarios.InceptionRecord | exercises/1.6/routes/films.ts:157 | the stored record is the posted body with `id: 6` added |
| Scenarios.PostNewFilm | exercises/1.6/routes/films.ts:114-162 | posting "Inception" to the seed store returns it with id 6 and appends it |
| Scenarios.CreateConflict | exercises/1.6/routes/films.ts:142-150 | a valid body matching stored film i ignoring case gives 409 with the store unchanged |
| Scenarios.HerMatchesIgnoringCase | exercises/1.6/routes/films.ts:144-145 | "her"/"HER" and "Spike Jonze"/"spike jonze" match ignoring case |
| Scenarios.HerIsStored | exercises/1.6/routes/films.ts:51-61 | the fifth seed film matches "HER" by "spike jonze" |
| Scenarios.PostDuplicateIgnoringCase | exercises/1.6/routes/films.ts:142-150 | posting the fifth seed film in other letter case gives 409 |
| Scenarios.FilterFirstTwo | exercises/1.6/routes/films.ts:90 | on five films of which only the first two are long enough, the filter returns those two in order |
| Scenarios.SeedAt130 | exercises/1.6/routes/films.ts:7-62 | only the first two seed films last at least 130 minutes |
| Scenarios.ListAtLeast130 | exercises/1.6/routes/films.ts:64-93 | `minimum-duration=130` on the seed store returns films 1 and 2 |
| Scenarios.DeleteUnknown | exercises/1.6/routes/films.ts:164-175 | deleting id 999 from the seed store answers 404 |
| Scenarios.PatchEmptyBody | exercises/1.6/routes/films.ts:200-220 | an empty patch on film 1 answers 400 |
| Scenarios.PatchUnknownIs400 | exercises/1.6/routes/films.ts:194-198 | patching id 999 answers 400, not 404 |
| Scenarios.PatchWithArray | exercises/1.6/routes/films.ts:200-226 | patching film 1 with `[5]` succeeds and stores key "0" with value 5 |
| Scenarios.InceptionWithId1IsNew | exercises/1.6/routes/films.ts:118-157 | the "Inception" body carrying `id: 1` is valid, repeats no seed film, and its stored record keeps id 1 |
| Scenarios.AppendRepeatedId | exercises/1.6/routes/films.ts:159 | pushing a record whose id a stored film already has breaks id uniqueness |
| Scenarios.BodyIdOverridesAssignedId | exercises/1.6/routes/films.ts:153-159 | posting a body with `id: 1` to the seed store succeeds and leaves two films with id 1 |

## Left out

- `exercises/1.3/app.ts`: the Express application, its body parsers and the GET request counter that logs to the console. This is framework wiring and I/O.
- Routing and response mechanics are not modelled. A `Response` carries the status and a `Payload`. `sendStatus(code)` is `ReasonPhrase`, without the phrase text. `send(undefined)` is `Empty`. Key order in serialised JSON is not modelled, because a record is a map.
- `Number(...)` and `parseInt(...)` are not modelled. Parameters arrive parsed, and `None`/`NotANumber` stands for `NaN`. JavaScript parsing quirks such as `parseInt("3abc") === 3` and `Number("") === 0` are out of scope.
- Numbers are Dafny reals. IEEE-754 rounding is not modelled. A JSON number literal too large for a double, such as `1e400`, parses to `Infinity`; the model treats it as a large finite real, which passes the same positivity checks. `NaN` cannot come out of a JSON body.
- JavaScript coercion is not modelled. A stored film without a numeric `id` is skipped by the id reduce, where JavaScript would compare with coercion. A film without a numeric `duration` fails the duration filter. A stored non-string title or director counts as "no match" in the duplicate check, where JavaScript would throw. In a valid store the last two cannot occur, and the first needs a body `id` key.
- `toLowerCase` is modelled on ASCII letters only. `trim` is modelled exactly, by its set of whitespace and line-terminator code points.
- The `in` operator sees only own properties. Inherited properties such as `toString` are never known keys, so this does not change any validator.
- Bodies the JSON parser rejects, and urlencoded bodies, are not modelled. A urlencoded body has only string values and fails every numeric check, like a JSON body with string values.
- The `../types` module (`Film`, `NewFilm`) is not part of this model. The `Film` datatype is built from the fields the handlers use.
- Router16.CreateKeepsValid: stated only for bodies without an `id` key, because such a key overrides the assigned id (`BodyIdOverridesAssignedId`).
- Router16.PatchKeepsValid: stated only for patches without an `id` key, because a patch may overwrite the id with any JSON value.
- Router16.PutKeepsValid: stated only for bodies without an `id` key, for the same reason.
- Router16.PatchKeepsIdAndPlace: stated only for patches without an `id` key, for the same reason.
