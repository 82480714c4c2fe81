/**
 * What the request handler promises, stated over `Dispatch` for every
 * request and every collection: the status of each branch, which branches
 * leave the collection alone, and which single store operation each
 * successful branch performs; then the request sequences a client relies on.
 */
module UserHandlersProperties {
  import opened Wrappers
  import opened Json
  import opened Db
  import opened UuidFormat
  import opened UserHandlers

  /** The three routes that address one record by the last path segment. */
  predicate IsIdRoute(verb: Method, path: string) {
    StartsWith(path, UsersPrefix) && (verb == Get || verb == Put || verb == Delete)
  }

  /** The method and path pairs the routing table answers. */
  predicate RouteMatches(verb: Method, path: string) {
    (path == UsersPath && (verb == Get || verb == Post))
    || IsIdRoute(verb, path)
  }

  /** A create body carries a truthy `username`, a numeric `age` and an array `hobbies`. */
  predicate HasCreateFields(v: Json) {
    && v.JObject?
    && "username" in v.fields && Truthy(Some(v.fields["username"]))
    && "age" in v.fields && v.fields["age"].JNumber?
    && "hobbies" in v.fields && v.fields["hobbies"].JArray?
  }

  /** The value a PUT body gives a declared field: the body's own, or the record's when the body has none. */
  function Merged(body: Json, key: string, current: Json): Json {
    if body.JObject? && key in body.fields then body.fields[key] else current
  }

  /** Merging a parsed body overwrites the declared fields it carries and keeps the rest. */
  lemma ApplyBody(u: User, body: Json)
    ensures Apply(u, PatchOf(body)) ==
      User(u.id, Merged(body, "username", u.username), Merged(body, "age", u.age), Merged(body, "hobbies", u.hobbies))
  {
  }

  // ---------------------------------------------------------------------
  // Extracting the id from the path

  /** A non-empty sequence is its prefix followed by its last element. */
  lemma SplitLast(s: string)
    requires s != []
    ensures s == s[..|s| - 1] + [s[|s| - 1]]
  {
  }

  /** A non-empty suffix holds the last character. */
  lemma LastInSuffix(path: string, seg: string)
    requires |seg| <= |path| && seg == path[|path| - |seg|..]
    ensures seg != [] ==> path[|path| - 1] in seg
  {
    if seg != [] {
      assert seg[|seg| - 1] == path[|path| - 1];
    }
  }

  /** The longest `/`-free suffix is unique: any suffix with that description is the last segment. */
  lemma {:induction false} LastSegmentUnique(path: string, seg: string)
    requires '/' !in seg
    requires |seg| <= |path| && seg == path[|path| - |seg|..]
    requires |seg| < |path| ==> path[|path| - |seg| - 1] == '/'
    ensures LastSegment(path) == seg
  {
    if path == [] {
    } else if path[|path| - 1] == '/' {
      // A non-empty `seg` would end with this `/`, so `seg` is empty.
      LastInSuffix(path, seg);
    } else {
      // `seg` is not empty, or the character before it (the last one) would be `/`;
      // dropping the last character of both keeps the description.
      assert seg != [];
      var init := path[..|path| - 1];
      var segInit := seg[..|seg| - 1];
      assert segInit == init[|init| - |segInit|..];
      assert forall c | c in segInit :: c in seg;
      LastSegmentUnique(init, segInit);
      assert seg[|seg| - 1] == path[|path| - 1];
      SplitLast(seg);
    }
  }

  /** `/api/users/<id>` with a `/`-free id is an id route whose last segment is the id. */
  lemma IdPath(id: string)
    requires '/' !in id
    ensures StartsWith(UsersPrefix + id, UsersPrefix)
    ensures UsersPrefix + id != UsersPath
    ensures LastSegment(UsersPrefix + id) == id
  {
    var path := UsersPrefix + id;
    assert path[..|UsersPrefix|] == UsersPrefix;
    assert path[|path| - |id|..] == id;
    assert |id| < |path| ==> path[|path| - |id| - 1] == '/';
    LastSegmentUnique(path, id);
  }

  /** On the id routes the action depends only on the method, the id test and, for PUT, the body. */
  lemma IdRouteAction(verb: Method, path: string, body: Body)
    requires IsIdRoute(verb, path)
    ensures var id := LastSegment(path);
      Route(verb, path, body) ==
        if !AcceptableId(id) then Reject(400, InvalidUserId)
        else if verb == Get then GetOne(id)
        else if verb == Put then (if body.Malformed? then Reject(500, InternalError) else Update(id, PatchOf(body.value)))
        else Remove(id)
  {
    assert path != UsersPath;
  }

  // ---------------------------------------------------------------------
  // Every request

  /**
   * Every response status is one of 200, 201, 204, 400, 404, 500; the error
   * statuses are exactly the responses with an error payload, and those
   * leave the collection as it was.
   */
  lemma FailureLeavesStoreUnchanged(verb: Method, path: string, body: Body, freshId: string, users: seq<User>)
    ensures var h := Dispatch(verb, path, body, freshId, users);
      && h.response.status in {200, 201, 204, 400, 404, 500}
      && (h.response.status in {400, 404, 500} <==> h.response.payload.Error?)
      && (h.response.payload.Error? ==> h.users == users)
  {
  }

  /**
   * A 200 is either a read (GET), which leaves the collection alone, or the
   * merge (PUT) of one record carrying the path's id: the record keeps its
   * id and its position, and no other record changes.
   */
  lemma OkIsReadOrMerge(verb: Method, path: string, body: Body, freshId: string, users: seq<User>)
    ensures var h := Dispatch(verb, path, body, freshId, users);
      h.response.status == 200 ==>
        || (verb == Get && h.users == users)
        || (verb == Put && h.response.payload.OneUser?
            && exists i | 0 <= i < |users| ::
                 users[i].id == LastSegment(path) && h.response.payload.user.id == users[i].id
                 && h.users == users[i := h.response.payload.user])
  {
    var action := Route(verb, path, body);
    if action.Update? && HasId(users, action.id) {
      var i := FindIndex(users, action.id);
      var u := Apply(users[i], action.patch);
      assert Dispatch(verb, path, body, freshId, users) == Handled(Response(200, OneUser(u)), users[i := u]);
    }
  }

  /** A 201 answers a POST and appends exactly one record, the one it returns, under the fresh id. */
  lemma CreatedAppendsOne(verb: Method, path: string, body: Body, freshId: string, users: seq<User>)
    ensures var h := Dispatch(verb, path, body, freshId, users);
      h.response.status == 201 ==>
        && verb == Post && h.response.payload.OneUser?
        && h.response.payload.user.id == freshId
        && h.users == users + [h.response.payload.user]
  {
  }

  /** A 204 answers a DELETE, has no body, and splices out one record carrying the path's id. */
  lemma NoContentRemovesOne(verb: Method, path: string, body: Body, freshId: string, users: seq<User>)
    ensures var h := Dispatch(verb, path, body, freshId, users);
      h.response.status == 204 ==>
        && verb == Delete && h.response.payload == NoContent
        && exists i | 0 <= i < |users| :: users[i].id == LastSegment(path) && h.users == RemoveAt(users, i)
  {
    var action := Route(verb, path, body);
    if action.Remove? && HasId(users, action.id) {
      var i := FindIndex(users, action.id);
      assert Dispatch(verb, path, body, freshId, users) == Handled(Response(204, NoContent), RemoveAt(users, i));
    }
  }

  /** The collection grows by one on a 201, shrinks by one on a 204, and keeps its length otherwise. */
  lemma CollectionSizeChange(verb: Method, path: string, body: Body, freshId: string, users: seq<User>)
    ensures var h := Dispatch(verb, path, body, freshId, users);
      |h.users| == |users| + (if h.response.status == 201 then 1 else if h.response.status == 204 then -1 else 0)
  {
  }

  /** No request breaks id uniqueness, provided the id a create uses is fresh. */
  lemma DispatchKeepsUniqueIds(verb: Method, path: string, body: Body, freshId: string, users: seq<User>)
    requires UniqueIds(users)
    requires Route(verb, path, body).Create? ==> !HasId(users, freshId)
    ensures UniqueIds(Dispatch(verb, path, body, freshId, users).users)
  {
    var action := Route(verb, path, body);
    var h := Perform(action, freshId, users);
    match action
    case Create(username, age, hobbies) =>
      AppendFreshKeepsUnique(users, User(freshId, username, age, hobbies));
      assert h.users == users + [User(freshId, username, age, hobbies)];
    case Update(id, patch) =>
      if HasId(users, id) {
        var i := FindIndex(users, id);
        assert h.users == users[i := Apply(users[i], patch)];
        assert forall k | 0 <= k < |users| :: h.users[k].id == users[k].id;
      } else {
        assert h.users == users;
      }
    case Remove(id) =>
      if HasId(users, id) {
        var i := FindIndex(users, id);
        RemoveAtKeepsUnique(users, i);
        assert h.users == RemoveAt(users, i);
      } else {
        assert h.users == users;
      }
    case _ =>
      assert h.users == users;
  }

  /** Exactly the unmatched method and path pairs get 404 "Resource not found", with the collection unchanged. */
  lemma UnmatchedRouteIsNotFound(verb: Method, path: string, body: Body, freshId: string, users: seq<User>)
    ensures Dispatch(verb, path, body, freshId, users).response.payload == Error(ResourceNotFound)
            <==> !RouteMatches(verb, path)
    ensures !RouteMatches(verb, path) ==>
      Dispatch(verb, path, body, freshId, users) == Handled(Response(404, Error(ResourceNotFound)), users)
  {
  }

  /** POST to an id path, and PUT or DELETE on the collection path, are unmatched routes. */
  lemma UnmatchedRouteExamples(body: Body, freshId: string, users: seq<User>)
    ensures Dispatch(Post, "/api/users/x", body, freshId, users).response == Response(404, Error(ResourceNotFound))
    ensures Dispatch(Put, UsersPath, body, freshId, users).response == Response(404, Error(ResourceNotFound))
    ensures Dispatch(Delete, UsersPath, body, freshId, users).response == Response(404, Error(ResourceNotFound))
  {
    UnmatchedRouteIsNotFound(Post, "/api/users/x", body, freshId, users);
    UnmatchedRouteIsNotFound(Put, UsersPath, body, freshId, users);
    UnmatchedRouteIsNotFound(Delete, UsersPath, body, freshId, users);
  }

  // ---------------------------------------------------------------------
  // Branch by branch

  /** `GET /api/users` answers 200 with the whole collection in insertion order. */
  lemma ListAllOutcome(body: Body, freshId: string, users: seq<User>)
    ensures Dispatch(Get, UsersPath, body, freshId, users) == Handled(Response(200, AllUsers(users)), users)
  {
  }

  /**
   * On the three id routes the answer is 400 "Invalid userId" exactly when
   * the last path segment is empty or not UUID-shaped, and then the
   * collection is not touched.
   */
  lemma InvalidIdRejected(verb: Method, path: string, body: Body, freshId: string, users: seq<User>)
    requires IsIdRoute(verb, path)
    ensures var h := Dispatch(verb, path, body, freshId, users);
      && (h.response.status == 400 <==> !AcceptableId(LastSegment(path)))
      && (!AcceptableId(LastSegment(path)) ==> h == Handled(Response(400, Error(InvalidUserId)), users))
  {
    if !AcceptableId(LastSegment(path)) {
      IdRouteAction(verb, path, body);
      assert Route(verb, path, body) == Reject(400, InvalidUserId);
    } else if verb == Get {
      GetByIdOutcome(path, body, freshId, users);
    } else if verb == Put {
      PutOutcome(path, body, freshId, users);
    } else {
      DeleteOutcome(path, body, freshId, users);
    }
  }

  /**
   * `GET /api/users/<id>` with an acceptable id: 404 "User not found" exactly
   * when no record carries the id, otherwise 200 with the first record that
   * does; the collection is unchanged.
   */
  lemma GetByIdOutcome(path: string, body: Body, freshId: string, users: seq<User>)
    requires StartsWith(path, UsersPrefix) && AcceptableId(LastSegment(path))
    ensures var h := Dispatch(Get, path, body, freshId, users);
      var id := LastSegment(path);
      && h.users == users
      && (h.response == Response(404, Error(UserNotFound)) <==> !HasId(users, id))
      && (HasId(users, id) ==> h.response == Response(200, OneUser(users[FindIndex(users, id)])))
  {
  }

  /**
   * `POST /api/users`: 500 "Internal Server Error" when the body is not JSON
   * or is `null`; otherwise 400 "Missing required fields" unless it carries a
   * truthy `username`, a numeric `age` and an array `hobbies`, in which case
   * 201 with the record appended under the fresh id. Every answer but 201
   * leaves the collection unchanged.
   */
  lemma PostOutcome(body: Body, freshId: string, users: seq<User>)
    ensures var h := Dispatch(Post, UsersPath, body, freshId, users);
      && (h.response == Response(500, Error(InternalError)) <==> body.Malformed? || body.value.JNull?)
      && (h.response == Response(400, Error(MissingFields)) <==>
            body.Parsed? && !body.value.JNull? && !HasCreateFields(body.value))
      && (h.response.status == 201 <==> body.Parsed? && HasCreateFields(body.value))
      && (h.response.status != 201 ==> h.users == users)
      && (h.response.status == 201 ==>
            var created := User(freshId, body.value.fields["username"], body.value.fields["age"], body.value.fields["hobbies"]);
            h.response == Response(201, OneUser(created)) && h.users == users + [created])
  {
  }

  /**
   * `PUT /api/users/<id>` with an acceptable id: 500 when the body is not
   * JSON; 404 "User not found" when no record carries the id; otherwise 200
   * with the first such record merged. The merge overwrites each declared
   * field the body carries, keeps the others and the id, and leaves every
   * other record and the order as they were.
   */
  lemma PutOutcome(path: string, body: Body, freshId: string, users: seq<User>)
    requires StartsWith(path, UsersPrefix) && AcceptableId(LastSegment(path))
    ensures var h := Dispatch(Put, path, body, freshId, users);
      var id := LastSegment(path);
      && (body.Malformed? ==> h == Handled(Response(500, Error(InternalError)), users))
      && (body.Parsed? && !HasId(users, id) ==> h == Handled(Response(404, Error(UserNotFound)), users))
      && (body.Parsed? && HasId(users, id) ==>
            var i := FindIndex(users, id);
            var old_ := users[i];
            var u := User(id,
                          Merged(body.value, "username", old_.username),
                          Merged(body.value, "age", old_.age),
                          Merged(body.value, "hobbies", old_.hobbies));
            h == Handled(Response(200, OneUser(u)), users[i := u]))
  {
    if body.Malformed? {
      PutMalformed(path, body, freshId, users);
    } else if HasId(users, LastSegment(path)) {
      PutMerges(path, body, freshId, users);
      ApplyBody(users[FindIndex(users, LastSegment(path))], body.value);
    } else {
      PutUnknownId(path, body, freshId, users);
    }
  }

  /** PUT with a body that is not JSON. */
  lemma PutMalformed(path: string, body: Body, freshId: string, users: seq<User>)
    requires StartsWith(path, UsersPrefix) && AcceptableId(LastSegment(path)) && body.Malformed?
    ensures Dispatch(Put, path, body, freshId, users) == Handled(Response(500, Error(InternalError)), users)
  {
    IdRouteAction(Put, path, body);
  }

  /** PUT naming an id no record carries. */
  lemma PutUnknownId(path: string, body: Body, freshId: string, users: seq<User>)
    requires StartsWith(path, UsersPrefix) && AcceptableId(LastSegment(path)) && body.Parsed?
    requires !HasId(users, LastSegment(path))
    ensures Dispatch(Put, path, body, freshId, users) == Handled(Response(404, Error(UserNotFound)), users)
  {
    IdRouteAction(Put, path, body);
    assert Route(Put, path, body) == Update(LastSegment(path), PatchOf(body.value));
  }

  /** PUT naming an id some record carries: the first such record is merged in place. */
  lemma PutMerges(path: string, body: Body, freshId: string, users: seq<User>)
    requires StartsWith(path, UsersPrefix) && AcceptableId(LastSegment(path)) && body.Parsed?
    requires HasId(users, LastSegment(path))
    ensures var i := FindIndex(users, LastSegment(path));
      var u := Apply(users[i], PatchOf(body.value));
      Dispatch(Put, path, body, freshId, users) == Handled(Response(200, OneUser(u)), users[i := u])
  {
    IdRouteAction(Put, path, body);
    assert Route(Put, path, body) == Update(LastSegment(path), PatchOf(body.value));
  }

  /**
   * `DELETE /api/users/<id>` with an acceptable id: 204 with no body exactly
   * when some record carries the id, and then the first such record is
   * spliced out; otherwise 404 "User not found" and nothing changes. With
   * unique ids, no record carries the id afterwards.
   */
  lemma DeleteOutcome(path: string, body: Body, freshId: string, users: seq<User>)
    requires StartsWith(path, UsersPrefix) && AcceptableId(LastSegment(path))
    ensures var h := Dispatch(Delete, path, body, freshId, users);
      var id := LastSegment(path);
      && (h.response == Response(204, NoContent) <==> HasId(users, id))
      && (!HasId(users, id) ==> h == Handled(Response(404, Error(UserNotFound)), users))
      && (HasId(users, id) ==> h.users == RemoveAt(users, FindIndex(users, id)))
      && (UniqueIds(users) ==> !HasId(h.users, id))
  {
    var id := LastSegment(path);
    DeleteRoutesToRemove(path, body);
    if HasId(users, id) {
      if UniqueIds(users) {
        RemoveFirstMatchLeavesNone(users, id);
      }
    }
  }

  /** DELETE on an acceptable id asks the store to remove that id. */
  lemma DeleteRoutesToRemove(path: string, body: Body)
    requires StartsWith(path, UsersPrefix) && AcceptableId(LastSegment(path))
    ensures Route(Delete, path, body) == Remove(LastSegment(path))
  {
    IdRouteAction(Delete, path, body);
  }

  // ---------------------------------------------------------------------
  // Request sequences

  /**
   * A record created by POST, under a UUID-shaped fresh id, is what
   * `GET /api/users/<that id>` answers right afterwards.
   */
  lemma GetAfterPost(body: Body, freshId: string, users: seq<User>, body2: Body, freshId2: string)
    requires !HasId(users, freshId) && IsValidUuid(freshId)
    requires Dispatch(Post, UsersPath, body, freshId, users).response.status == 201
    ensures var created := Dispatch(Post, UsersPath, body, freshId, users);
      Dispatch(Get, UsersPrefix + freshId, body2, freshId2, created.users)
        == Handled(Response(200, created.response.payload), created.users)
  {
    var created := Dispatch(Post, UsersPath, body, freshId, users);
    ValidUuidHasNoSlash(freshId);
    IdPath(freshId);
    FindIndexAfterAppend(users, created.response.payload.user);
  }

  /** After a record is deleted, fetching the same path answers 404 "User not found". */
  lemma DeleteThenGet(path: string, body: Body, freshId: string, users: seq<User>, body2: Body, freshId2: string)
    requires UniqueIds(users)
    requires Dispatch(Delete, path, body, freshId, users).response.status == 204
    ensures var deleted := Dispatch(Delete, path, body, freshId, users);
      Dispatch(Get, path, body2, freshId2, deleted.users)
        == Handled(Response(404, Error(UserNotFound)), deleted.users)
  {
    DeleteOutcome(path, body, freshId, users);
  }

  /** After a record is deleted, the listing has one record fewer and none carrying the deleted id. */
  lemma ListAfterDelete(path: string, body: Body, freshId: string, users: seq<User>, body2: Body, freshId2: string)
    requires UniqueIds(users)
    requires Dispatch(Delete, path, body, freshId, users).response.status == 204
    ensures var deleted := Dispatch(Delete, path, body, freshId, users);
      var listing := Dispatch(Get, UsersPath, body2, freshId2, deleted.users).response;
      && listing.status == 200 && listing.payload.AllUsers?
      && |listing.payload.users| == |users| - 1
      && !HasId(listing.payload.users, LastSegment(path))
  {
    DeleteOutcome(path, body, freshId, users);
  }

  /** A PUT answered 200 named an acceptable, present id and carried a JSON body. */
  lemma PutOkIsMerge(path: string, body: Body, freshId: string, users: seq<User>)
    requires Dispatch(Put, path, body, freshId, users).response.status == 200
    ensures StartsWith(path, UsersPrefix) && AcceptableId(LastSegment(path))
    ensures body.Parsed? && HasId(users, LastSegment(path))
  {
    if !StartsWith(path, UsersPrefix) {
      UnmatchedRouteIsNotFound(Put, path, body, freshId, users);
    } else if !AcceptableId(LastSegment(path)) {
      InvalidIdRejected(Put, path, body, freshId, users);
    } else if body.Malformed? {
      PutMalformed(path, body, freshId, users);
    } else if !HasId(users, LastSegment(path)) {
      PutUnknownId(path, body, freshId, users);
    }
  }

  /** After a record is merged by PUT, fetching the same path answers 200 with the merged record. */
  lemma GetAfterPut(path: string, body: Body, freshId: string, users: seq<User>, body2: Body, freshId2: string)
    requires Dispatch(Put, path, body, freshId, users).response.status == 200
    ensures var updated := Dispatch(Put, path, body, freshId, users);
      Dispatch(Get, path, body2, freshId2, updated.users)
        == Handled(updated.response, updated.users)
  {
    PutOkIsMerge(path, body, freshId, users);
    var id := LastSegment(path);
    PutMerges(path, body, freshId, users);
    var i := FindIndex(users, id);
    var u := Apply(users[i], PatchOf(body.value));
    FindIndexSameIds(users, users[i := u], id);
    GetByIdOutcome(path, body2, freshId2, users[i := u]);
  }
}
