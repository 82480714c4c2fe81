# crud-api user store and request handler, in Dafny

The crud-api service keeps user records (`id`, `username`, `age`, `hobbies`)
in one in-memory, insertion-ordered collection. It serves them over a small
REST interface under `/api/users`:

- `GET /api/users` lists the whole collection;
- `GET`, `PUT` and `DELETE /api/users/<id>` read, merge into and remove one
  record;
- `POST /api/users` creates a record under a freshly generated UUID.

The id in a path is its last `/`-separated segment. It must be UUID-shaped
before the collection is consulted.

This project models two parts of the service:

- **`Db`** (`db.dfy`) models the store of `src/db.ts`. It is a `Store` class
  whose `users: seq<User>` field the methods `AddUser`, `UpdateUser` and
  `DeleteUser` reassign, and whose function `GetUserById` reads it. The class
  invariant `Valid()` says that no two records share an id. `AddUser` is
  specified by the appended collection. The lookup, update and delete are
  specified against the pure functions `FindIndex` (the first match, or -1),
  `RemoveAt` (a splice of one position) and `Apply` (the merge of a patch).
- **`UserHandlers`** (`user_handlers.dfy`) models the decision logic of
  `handleRequest` in `src/userHandlers.ts`, in two pure steps:
  - `Route` maps the method, the pathname and the already received body to
    an `Action`, following the source's branches in their order;
  - `Perform` answers that action against a collection: it gives the
    response's status and payload and the collection after the request.

  `Dispatch` composes the two. The method `HandleRequest` performs the same
  decision against a `Store` object, and its postcondition is that it agrees
  with `Dispatch`.
- **`UuidFormat`** (`uuid_format.dfy`) models `isValidUUID`. The regular
  expression is written as a list of character-class atoms with fixed counts,
  read by an anchored matcher. It is proved equivalent to a position-by-position
  description of the 36-character layout.
- **`UserHandlersProperties`** (`user_handlers_properties.dfy`) states, for
  every request and every collection:
  - the status of each branch;
  - that every error leaves the collection unchanged;
  - that every success performs exactly one store operation;
  - that ids stay unique;
  - how the requests compose: get after post, get after put, get and list
    after delete.
- **`Json`** (`json.dfy`) holds the parsed JSON value and the JavaScript
  semantics the handlers rely on: property reads, truthiness (`!username`),
  `typeof ... === "number"` and `Array.isArray`.
  **`Wrappers`** (`wrappers.dfy`) holds `Option`.

The PUT route validates the id only. Any parsed body is merged, and no field
check is made. POST requires a truthy `username`, a numeric `age` and an array
`hobbies`. The model keeps this asymmetry.

The UUID check wants hyphens at positions 8, 13, 18 and 23 and a digit
1-5 at position 14. At position 19 it accepts only one of the lower-case
`8`, `9`, `a`, `b`, so an upper-case `A` or `B` is rejected there. Every
other position takes a hexadecimal digit of either case. Section 3 of RFC
4122 treats hexadecimal digits as case-insensitive on input; the
expression's `[89ab]` class does not (`UuidFormat.VariantIsLowerCaseOnly`).

## Model

| member | source | states |
|---|---|---|
| Db.FindIndex | src/db.ts:31 | the first position whose record carries the id, -1 exactly when no record does, and no earlier record carries it |
| Db.RemoveAt | src/db.ts:33 | splicing out position i: one record fewer, the records before i in place, the records after it shifted down by one in their order |
| Db.PatchOf | src/db.ts:23 | definition: the declared `username`, `age` and `hobbies` of a parsed body, absent where the body has none; properties in UserHandlersProperties.ApplyBody and Db.PatchAgreesWithAssignOnDeclaredFields |
| Db.Apply | src/db.ts:26 | definition: the declared-field merge; properties in Db.ApplyKeepsUniqueIds, Db.PatchAgreesWithAssignOnDeclaredFields and UserHandlersProperties.ApplyBody |
| Db.Store.constructor | src/db.ts:10 | the store starts as an empty collection, which trivially has unique ids |
| Db.Store.AddUser | src/db.ts:12-16 | with a fresh id: returns the record with that id and the given fields, appended at the end with every earlier record unchanged, and ids stay unique |
| Db.Store.GetUserById | src/db.ts:18-19 | nothing exactly when no record carries the id; otherwise the record at a position carrying it with no earlier one doing so; reads the store without changing it |
| Db.Store.UpdateUser | src/db.ts:21-28 | nothing, with the collection unchanged, exactly when the id is absent; otherwise the first matching record is replaced by its merge, the merged record is returned, every other position is unchanged, and ids stay unique |
| Db.Store.DeleteUser | src/db.ts:30-37 | true exactly when some record carried the id, and then the first such record is spliced out; false leaves the collection unchanged; afterwards no record carries the id |
| Db.ApplyKeepsUniqueIds | src/db.ts:21-26 | merging a declared-field patch into one record of a collection with unique ids keeps them unique |
| Db.AppendFreshKeepsUnique | src/db.ts:13-14 | appending a record under a fresh id keeps ids unique |
| Db.RemoveAtKeepsUnique | src/db.ts:33 | splicing out one record keeps ids unique |
| Db.FindIndexSameIds | src/db.ts:18-19 | collections carrying the same ids at the same positions find the same first match, so a merge that keeps ids does not move any lookup |
| Db.FindIndexAfterAppend | src/db.ts:13-14 | a record appended under a fresh id is found at the new last position |
| Db.FindIndexAppendOther | src/db.ts:14 | appending a record does not move where an id already present is found |
| Db.RemoveFirstMatchLeavesNone | src/db.ts:31-34 | with unique ids, once the first record carrying an id is spliced out, no record carries it |
| Db.AssignAsWritten | src/db.ts:26 | `Object.assign` of an object body onto a record: the keys are the record's and the body's except `__proto__`, every other body key is copied, and every property the body lacks is kept |
| Db.AssignAsWrittenDuplicatesId | src/db.ts:26 | as written, a body `{"id": <b's id>}` merged into a record a distinct from b gives a the id of b, so two records share one id |
| Db.PatchAgreesWithAssignOnDeclaredFields | src/db.ts:21-26 | the declared-field merge keeps the id, and on `username`, `age` and `hobbies` it gives what `Object.assign` gives |
| UuidFormat.IsValidUuid | src/userHandlers.ts:110-114 | definition: the anchored match of the expression's atoms; properties in UuidFormat.IsValidUuidIffShaped |
| UuidFormat.MatchesIffGroups | src/userHandlers.ts:111 | the anchored match of the atom list holds exactly when the string has 36 characters and each group of the expression sits at its fixed offset |
| UuidFormat.GroupsIffShaped | src/userHandlers.ts:111 | the groups at their offsets are the position-by-position layout |
| UuidFormat.IsValidUuidIffShaped | src/userHandlers.ts:110-114 | `isValidUUID` accepts exactly the 36-character strings with hyphens at 8, 13, 18 and 23, a digit 1-5 at 14, one of the lower-case 8, 9, a, b at 19 and hexadecimal digits of either case elsewhere |
| UuidFormat.ValidUuidHasNoSlash | src/userHandlers.ts:111 | an accepted id is non-empty and contains no `/` |
| UuidFormat.VariantIsLowerCaseOnly | src/userHandlers.ts:111 | any 36-character string with an upper-case `A` at position 19 is rejected |
| Json.Prop | src/userHandlers.ts:42 | definition: a property read, defined only on an object that has the key; properties in UserHandlersProperties.PostOutcome and UserHandlersProperties.ApplyBody |
| Json.Truthy | src/userHandlers.ts:43 | definition: the `!username` test, false for `undefined`, `null`, `false`, `0` and `""`; properties in UserHandlersProperties.PostOutcome |
| Json.IsNumber | src/userHandlers.ts:43 | definition: `typeof age === "number"`; properties in UserHandlersProperties.PostOutcome |
| Json.IsArray | src/userHandlers.ts:43 | definition: `Array.isArray(hobbies)`; properties in UserHandlersProperties.PostOutcome |
| UserHandlers.Message | src/userHandlers.ts:21-105 | definition: the exact error text of each error kind |
| UserHandlers.StartsWith | src/userHandlers.ts:17 | definition: `startsWith`, the prefix is the string's first characters; properties in UserHandlersProperties.IdPath |
| UserHandlers.MethodOf | src/userHandlers.ts:11 | the method name selects each of the four routed methods exactly when it is that name, compared case-sensitively |
| UserHandlers.LastSegment | src/userHandlers.ts:19 | `split("/").pop()`: a `/`-free suffix of the path preceded by a `/` unless it is the whole path |
| UserHandlers.AcceptableId | src/userHandlers.ts:20 | definition: the segment is non-empty and `isValidUUID` accepts it; properties in UserHandlersProperties.InvalidIdRejected |
| UserHandlers.CreateAction | src/userHandlers.ts:41-54 | definition: 500 for a body that is not JSON or is `null`, 400 without the three fields, otherwise a create; properties in UserHandlersProperties.PostOutcome |
| UserHandlers.Route | src/userHandlers.ts:13-106 | definition: the branch table in the source's order, giving the action before the store is consulted; properties in UserHandlersProperties.IdRouteAction and UserHandlersProperties.UnmatchedRouteIsNotFound |
| UserHandlers.Perform | src/userHandlers.ts:25-101 | definition: the response and new collection of each action; properties in UserHandlersProperties.FailureLeavesStoreUnchanged, UserHandlersProperties.CollectionSizeChange and UserHandlersProperties.DispatchKeepsUniqueIds |
| UserHandlers.Dispatch | src/userHandlers.ts:8-107 | definition: route, then perform; properties in the UserHandlersProperties lemmas |
| UserHandlersProperties.LastSegmentUnique | src/userHandlers.ts:19 | any `/`-free suffix that is the whole path or preceded by a `/` is the last segment, so the segment is the longest `/`-free suffix |
| UserHandlersProperties.IdPath | src/userHandlers.ts:17-19 | `/api/users/<id>` with a `/`-free id takes the id branches, is not the collection path, and yields that id |
| UserHandlers.HandleRequest | src/userHandlers.ts:8-107 | performed on a store, with an id that is fresh whenever a record is created: the response and the new collection are exactly those of `Dispatch`, and ids stay unique |
| UserHandlers.Carry | src/userHandlers.ts:25-101 | carried out on a store, with a fresh id when the action is a create: the response and the new collection are exactly those `Perform` gives for the action, and ids stay unique |
| UserHandlersProperties.IdRouteAction | src/userHandlers.ts:17-92 | on the three id routes the action depends only on the method, the id test and, for PUT, whether the body parsed |
| UserHandlersProperties.ApplyBody | src/db.ts:26 | merging a parsed body overwrites each declared field the body carries and keeps the record's other fields and its id |
| UserHandlersProperties.FailureLeavesStoreUnchanged | src/userHandlers.ts:8-107 | every status is one of 200, 201, 204, 400, 404, 500; the statuses 400, 404 and 500 are exactly the error payloads; and every error leaves the collection unchanged |
| UserHandlersProperties.OkIsReadOrMerge | src/userHandlers.ts:8-107 | a 200 is a GET that leaves the collection alone, or a PUT that replaces one record carrying the path's id by a record with the same id, in the same position |
| UserHandlersProperties.CreatedAppendsOne | src/userHandlers.ts:48-50 | a 201 answers a POST and appends exactly the returned record, under the fresh id |
| UserHandlersProperties.NoContentRemovesOne | src/userHandlers.ts:94-101 | a 204 answers a DELETE, has no body, and splices out one record carrying the path's id |
| UserHandlersProperties.CollectionSizeChange | src/userHandlers.ts:8-107 | the collection grows by one on a 201, shrinks by one on a 204 and keeps its length otherwise |
| UserHandlersProperties.DispatchKeepsUniqueIds | src/userHandlers.ts:8-107 | no request breaks id uniqueness, given a fresh id for a create |
| UserHandlersProperties.UnmatchedRouteIsNotFound | src/userHandlers.ts:102-106 | 404 "Resource not found" exactly for the method and path pairs the table does not name, with the collection unchanged |
| UserHandlersProperties.UnmatchedRouteExamples | src/userHandlers.ts:102-106 | POST to `/api/users/x`, and PUT or DELETE on `/api/users`, are answered 404 "Resource not found" |
| UserHandlersProperties.ListAllOutcome | src/userHandlers.ts:13-16 | `GET /api/users` answers 200 with the whole collection in insertion order and changes nothing |
| UserHandlersProperties.InvalidIdRejected | src/userHandlers.ts:19-24 | on GET, PUT and DELETE under `/api/users/`, the answer is 400 exactly when the last segment is empty or not UUID-shaped, and then it is "Invalid userId" with the collection untouched |
| UserHandlersProperties.GetByIdOutcome | src/userHandlers.ts:25-32 | with an acceptable id: 404 "User not found" exactly when no record carries it, otherwise 200 with the first record that does; the collection is unchanged |
| UserHandlersProperties.PostOutcome | src/userHandlers.ts:33-55 | 500 exactly for a body that is not JSON or is `null`; 400 "Missing required fields" exactly for another body lacking a truthy `username`, a numeric `age` or an array `hobbies`; otherwise 201 with the record appended under the fresh id; nothing changes except on 201 |
| UserHandlersProperties.PutOutcome | src/userHandlers.ts:56-84 | with an acceptable id: 500 for a body that is not JSON, 404 "User not found" when no record carries the id, otherwise 200 with the first such record merged in place (declared fields the body carries overwritten, the rest and the id kept) and every other record as it was |
| UserHandlersProperties.PutMalformed | src/userHandlers.ts:80-83 | a PUT body that is not JSON answers 500 "Internal Server Error" with the collection unchanged |
| UserHandlersProperties.PutUnknownId | src/userHandlers.ts:72-75 | a parsed PUT naming an absent id answers 404 "User not found" with the collection unchanged |
| UserHandlersProperties.PutMerges | src/userHandlers.ts:72-79 | a parsed PUT naming a present id answers 200 with the merge of the first matching record, which replaces it in place |
| UserHandlersProperties.PutOkIsMerge | src/userHandlers.ts:56-79 | a PUT answered 200 named an acceptable id that some record carries, and its body parsed |
| UserHandlersProperties.DeleteRoutesToRemove | src/userHandlers.ts:85-94 | DELETE on an acceptable id asks the store to remove exactly that id |
| UserHandlersProperties.DeleteOutcome | src/userHandlers.ts:85-101 | with an acceptable id: 204 with no body exactly when some record carries it, and then the first such record is spliced out; otherwise 404 "User not found" with nothing changed; with unique ids no record carries the id afterwards |
| UserHandlersProperties.GetAfterPost | src/userHandlers.ts:25-50 | a record created under a UUID-shaped fresh id is what `GET /api/users/<that id>` answers next |
| UserHandlersProperties.GetAfterPut | src/userHandlers.ts:25-79 | after a 200 PUT, GET on the same path answers 200 with the merged record |
| UserHandlersProperties.DeleteThenGet | src/userHandlers.ts:25-101 | with unique ids, after a 204 DELETE, GET on the same path answers 404 "User not found" |
| UserHandlersProperties.ListAfterDelete | src/userHandlers.ts:13-101 | with unique ids, after a 204 DELETE the listing has one record fewer and none carrying the deleted id |

## Left out

- `src/index.ts` is not part of this model. It only creates the server,
  reads the port from the environment and logs.
- The HTTP transport is not modelled. `res.writeHead` and `res.end` become
  the returned `Response` (status and payload). The
  `Content-Type: application/json` header goes with every payload except
  the 204 `NoContent`, and is not represented separately.
- The asynchronous accumulation of the body through `req.on("data")` and
  `req.on("end")` is not modelled. The body is taken as fully received.
- `JSON.parse` and `JSON.stringify` are not modelled. The body is a parsed
  `Json` value or `Malformed`, and the payload is abstract (an error kind,
  one record, the collection, or nothing). Parsed numbers are reals, so the
  rounding and overflow of double precision are not represented.
- `url.parse` is not modelled. The pathname is an input string with the
  query already stripped. A missing pathname (an empty URL) behaves like
  `""`: both fall through to 404 "Resource not found".
- `uuid()` is not modelled. The new id is a parameter, and a create
  requires it to be absent from the collection.
- Concurrency between requests is not modelled. Each request runs to
  completion against the collection left by the previous one.
- Db.Store.UpdateUser: models the merge over the declared fields only. At
  run time, `Object.assign` also copies an `id` key and unknown keys from the
  parsed body; that is recorded under Findings. It also copies the index
  keys of a string or array body, which leave the three declared fields
  unchanged.
- Db.Store.GetUserById: returns the record as a value. The source returns
  the stored object itself, so a later in-place merge would also be visible
  through a reference taken earlier; the model has no such aliasing.

## Findings

| source | as written | input that shows it | evidently intended | confidence | as-written member | corrected member |
|---|---|---|---|---|---|---|
| src/db.ts:26 | the update merges the raw parsed PUT body with `Object.assign`, so an `id` key in the body overwrites the record's id | a collection holding records a and b, then `PUT /api/users/<a's id>` with body `{"id": "<b's id>"}`: both records now carry b's id | only the declared fields `username`, `age` and `hobbies` change, and a record's id is never reassigned, so ids stay unique | not executed | Db.AssignAsWrittenDuplicatesId | Db.ApplyKeepsUniqueIds |
