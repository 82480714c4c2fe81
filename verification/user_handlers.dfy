/**
 * The request handler: how a request's method, pathname and (already fully
 * received) body select a store operation, and which status and payload the
 * response carries.
 *
 * The decision is split in two pure steps, `Route` (what to do, before the
 * store is consulted) and `Dispatch` (the response and the collection that
 * result), and `HandleRequest` performs it against a `Store` object.
 */
module UserHandlers {
  import opened Wrappers
  import opened Json
  import opened Db
  import opened UuidFormat

  const UsersPath: string := "/api/users"
  const UsersPrefix: string := "/api/users/"

  /** The request methods the routing table names; any other method name is `Other`. */
  datatype Method = Get | Post | Put | Delete | Other

  /** `req.method` compared, case-sensitively, with the four names of the table. */
  function MethodOf(name: string): (m: Method)
    ensures m == Get <==> name == "GET"
    ensures m == Post <==> name == "POST"
    ensures m == Put <==> name == "PUT"
    ensures m == Delete <==> name == "DELETE"
  {
    if name == "GET" then Get
    else if name == "POST" then Post
    else if name == "PUT" then Put
    else if name == "DELETE" then Delete
    else Other
  }

  /** The errors a response can report, each sent as `{"error": Message(kind)}`. */
  datatype ErrorKind = InvalidUserId | UserNotFound | MissingFields | InternalError | ResourceNotFound

  function Message(kind: ErrorKind): string {
    match kind
    case InvalidUserId => "Invalid userId"
    case UserNotFound => "User not found"
    case MissingFields => "Missing required fields"
    case InternalError => "Internal Server Error"
    case ResourceNotFound => "Resource not found"
  }

  /** The request body once fully received: a parsed JSON value, or text `JSON.parse` rejects. */
  datatype Body = Malformed | Parsed(value: Json)

  /**
   * What a response carries: a JSON `{"error": Message(kind)}`, one record, the
   * whole collection, or nothing at all (the 204 response, the only one sent
   * without a JSON content type).
   */
  datatype Payload =
    | Error(kind: ErrorKind)
    | OneUser(user: User)
    | AllUsers(users: seq<User>)
    | NoContent

  datatype Response = Response(status: int, payload: Payload)

  /** A response together with the collection as it is after the request. */
  datatype Handled = Handled(response: Response, users: seq<User>)

  /** `s.startsWith(prefix)`. */
  predicate StartsWith(s: string, prefix: string) {
    |prefix| <= |s| && s[..|prefix|] == prefix
  }

  /**
   * `path.split("/").pop()`: the text after the last `/`, or the whole path
   * when it has none; that is, the longest suffix free of `/`.
   */
  function LastSegment(path: string): (seg: string)
    ensures '/' !in seg
    ensures |seg| <= |path| && seg == path[|path| - |seg|..]
    ensures |seg| < |path| ==> path[|path| - |seg| - 1] == '/'
  {
    if path == [] then []
    else if path[|path| - 1] == '/' then []
    else LastSegment(path[..|path| - 1]) + [path[|path| - 1]]
  }

  /** The id test of the three id routes: `userId` is non-empty and `isValidUUID(userId)`. */
  predicate AcceptableId(id: string) {
    id != "" && IsValidUuid(id)
  }

  /** What a request asks of the store, decided before the store is consulted. */
  datatype Action =
    | ListAll
    | GetOne(id: string)
    | Create(username: Json, age: Json, hobbies: Json)
    | Update(id: string, patch: Patch)
    | Remove(id: string)
    | Reject(status: int, kind: ErrorKind)

  /**
   * The create route's body handling. Destructuring `JSON.parse(body)` throws
   * on text that is not JSON and on the value `null`; both end in 500. Then
   * `username` must be truthy, `age` a number and `hobbies` an array.
   */
  function CreateAction(body: Body): Action {
    if body.Malformed? || body.value.JNull? then Reject(500, InternalError)
    else
      var username := Prop(body.value, "username");
      var age := Prop(body.value, "age");
      var hobbies := Prop(body.value, "hobbies");
      if !Truthy(username) || !IsNumber(age) || !IsArray(hobbies) then Reject(400, MissingFields)
      else Create(username.value, age.value, hobbies.value)
  }

  /** The routing table of `handleRequest`, branch by branch in the source's order. */
  function Route(verb: Method, path: string, body: Body): Action {
    if path == UsersPath && verb == Get then ListAll
    else if StartsWith(path, UsersPrefix) && verb == Get then
      var id := LastSegment(path);
      if !AcceptableId(id) then Reject(400, InvalidUserId) else GetOne(id)
    else if path == UsersPath && verb == Post then CreateAction(body)
    else if StartsWith(path, UsersPrefix) && verb == Put then
      var id := LastSegment(path);
      if !AcceptableId(id) then Reject(400, InvalidUserId)
      else if body.Malformed? then Reject(500, InternalError)
      else Update(id, PatchOf(body.value))
    else if StartsWith(path, UsersPrefix) && verb == Delete then
      var id := LastSegment(path);
      if !AcceptableId(id) then Reject(400, InvalidUserId) else Remove(id)
    else Reject(404, ResourceNotFound)
  }

  /**
   * The outcome of carrying out `action` against the collection `users`;
   * `freshId` is the id `uuid()` yields if a record is created.
   */
  function Perform(action: Action, freshId: string, users: seq<User>): Handled {
    match action
    case ListAll => Handled(Response(200, AllUsers(users)), users)
    case GetOne(id) =>
      var i := FindIndex(users, id);
      if i == -1 then Handled(Response(404, Error(UserNotFound)), users)
      else Handled(Response(200, OneUser(users[i])), users)
    case Create(username, age, hobbies) =>
      var u := User(freshId, username, age, hobbies);
      Handled(Response(201, OneUser(u)), users + [u])
    case Update(id, patch) =>
      var i := FindIndex(users, id);
      if i == -1 then Handled(Response(404, Error(UserNotFound)), users)
      else
        var u := Apply(users[i], patch);
        Handled(Response(200, OneUser(u)), users[i := u])
    case Remove(id) =>
      var i := FindIndex(users, id);
      if i == -1 then Handled(Response(404, Error(UserNotFound)), users)
      else Handled(Response(204, NoContent), RemoveAt(users, i))
    case Reject(status, kind) => Handled(Response(status, Error(kind)), users)
  }

  /** The outcome of one request: route it, then carry out what the route decided. */
  function Dispatch(verb: Method, path: string, body: Body, freshId: string, users: seq<User>): Handled {
    Perform(Route(verb, path, body), freshId, users)
  }

  /**
   * `handleRequest`: route the request, call at most one store operation,
   * and answer. The response and the new collection are those `Dispatch`
   * gives, and ids stay unique.
   */
  method HandleRequest(store: Store, httpMethod: string, path: string, body: Body, freshId: string)
    returns (response: Response)
    requires store.Valid()
    requires Route(MethodOf(httpMethod), path, body).Create? ==> !HasId(store.users, freshId)
    modifies store
    ensures store.Valid()
    ensures Handled(response, store.users) == Dispatch(MethodOf(httpMethod), path, body, freshId, old(store.users))
  {
    var action := Route(MethodOf(httpMethod), path, body);
    response := Carry(store, action, freshId);
  }

  /** Carry out a routed action on the store and build the response. */
  method Carry(store: Store, action: Action, freshId: string) returns (response: Response)
    requires store.Valid()
    requires action.Create? ==> !HasId(store.users, freshId)
    modifies store
    ensures store.Valid()
    ensures Handled(response, store.users) == Perform(action, freshId, old(store.users))
  {
    match action
    case ListAll =>
      response := Response(200, AllUsers(store.users));
    case GetOne(id) =>
      var user := store.GetUserById(id);
      if user.None? {
        response := Response(404, Error(UserNotFound));
      } else {
        response := Response(200, OneUser(user.value));
      }
    case Create(username, age, hobbies) =>
      var newUser := store.AddUser(freshId, username, age, hobbies);
      response := Response(201, OneUser(newUser));
    case Update(id, patch) =>
      var user := store.UpdateUser(id, patch);
      if user.None? {
        response := Response(404, Error(UserNotFound));
      } else {
        response := Response(200, OneUser(user.value));
      }
    case Remove(id) =>
      var deleted := store.DeleteUser(id);
      if !deleted {
        response := Response(404, Error(UserNotFound));
      } else {
        response := Response(204, NoContent);
      }
    case Reject(status, kind) =>
      response := Response(status, Error(kind));
  }
}
