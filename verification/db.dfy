/**
 * The in-memory user store: one ordered collection of user records, held by
 * the process and changed only through the operations below.
 */
module Db {
  import opened Wrappers
  import opened Json

  /**
   * A user record. The declared field types (a string, a number, an array of
   * strings) are not checked when a record is stored, so each field holds
   * whatever JSON value the request carried.
   */
  datatype User = User(id: string, username: Json, age: Json, hobbies: Json)

  /**
   * The data an update merges into a record, as declared
   * (`Partial<Omit<User, "id">>`): each of the three fields is either absent
   * or a new value, and the id is never among them.
   */
  datatype Patch = Patch(username: Option<Json>, age: Option<Json>, hobbies: Option<Json>)

  /** Some record of the collection carries `id`. */
  predicate HasId(users: seq<User>, id: string) {
    exists k | 0 <= k < |users| :: users[k].id == id
  }

  /** No two records of the collection carry the same id. */
  predicate UniqueIds(users: seq<User>) {
    forall i, j | 0 <= i < j < |users| :: users[i].id != users[j].id
  }

  /**
   * `users.findIndex(user => user.id === id)`: the first position whose
   * record carries `id`, or -1 when there is none.
   */
  function FindIndex(users: seq<User>, id: string): (r: int)
    ensures -1 <= r < |users|
    ensures r == -1 <==> !HasId(users, id)
    ensures 0 <= r ==> users[r].id == id && forall k | 0 <= k < r :: users[k].id != id
  {
    if users == [] then -1
    else if users[0].id == id then 0
    else
      var r := FindIndex(users[1..], id);
      if r == -1 then -1 else r + 1
  }

  /** `users.splice(i, 1)`: the collection without position `i`, the rest in their order. */
  function RemoveAt(users: seq<User>, i: nat): (r: seq<User>)
    requires i < |users|
    ensures |r| == |users| - 1
    ensures forall k | 0 <= k < i :: r[k] == users[k]
    ensures forall k | i <= k < |r| :: r[k] == users[k + 1]
  {
    users[..i] + users[i + 1..]
  }

  /**
   * The declared view of the parsed body an update receives: the values of
   * its `username`, `age` and `hobbies` properties, absent where the body has
   * no such property (a body that is not an object has none).
   */
  function PatchOf(body: Json): Patch {
    Patch(Prop(body, "username"), Prop(body, "age"), Prop(body, "hobbies"))
  }

  /** `Object.assign(user, patch)` over the declared fields. */
  function Apply(u: User, p: Patch): User {
    User(u.id,
         if p.username.Some? then p.username.value else u.username,
         if p.age.Some? then p.age.value else u.age,
         if p.hobbies.Some? then p.hobbies.value else u.hobbies)
  }

  /** A record as a JavaScript object: its own properties by name. */
  function AsObject(u: User): map<string, Json> {
    map["id" := JString(u.id), "username" := u.username, "age" := u.age, "hobbies" := u.hobbies]
  }

  /**
   * `Object.assign(user, body)` as it runs when the parsed body is an object:
   * every own key of the body is copied onto the record, `id` and unknown keys
   * included. The one exception is `__proto__`: assigning it runs the
   * inherited prototype setter and creates no own property.
   */
  function AssignAsWritten(u: User, body: map<string, Json>): (r: map<string, Json>)
    ensures r.Keys == AsObject(u).Keys + (body.Keys - {"__proto__"})
    ensures forall k | k in body && k != "__proto__" :: r[k] == body[k]
    ensures forall k | k in AsObject(u) && k !in body :: r[k] == AsObject(u)[k]
  {
    AsObject(u) + (body - {"__proto__"})
  }

  /**
   * As written, an update whose body is `{"id": <b's id>}` applied to record
   * `a` leaves `a` carrying the id of the distinct record `b`: two records of
   * a collection that had unique ids now share one.
   */
  lemma AssignAsWrittenDuplicatesId(a: User, b: User)
    requires a.id != b.id
    ensures UniqueIds([a, b])
    ensures AssignAsWritten(a, map["id" := JString(b.id)])["id"] == AsObject(b)["id"]
    ensures AssignAsWritten(a, map["id" := JString(b.id)])["id"] != AsObject(a)["id"]
  {
  }

  /**
   * The merge the model uses keeps the id, and on the three declared fields
   * agrees with the as-written merge of the same object body.
   */
  lemma PatchAgreesWithAssignOnDeclaredFields(u: User, body: map<string, Json>)
    ensures Apply(u, PatchOf(JObject(body))).id == u.id
    ensures forall k | k in {"username", "age", "hobbies"} ::
      AsObject(Apply(u, PatchOf(JObject(body))))[k] == AssignAsWritten(u, body)[k]
  {
  }

  /** Merging a patch into one record keeps ids unique: the merged record keeps its id. */
  lemma ApplyKeepsUniqueIds(users: seq<User>, i: nat, p: Patch)
    requires UniqueIds(users) && i < |users|
    ensures UniqueIds(users[i := Apply(users[i], p)])
  {
    var r := users[i := Apply(users[i], p)];
    assert forall k | 0 <= k < |users| :: r[k].id == users[k].id;
  }

  /** Appending a record whose id is fresh keeps ids unique. */
  lemma AppendFreshKeepsUnique(users: seq<User>, u: User)
    requires UniqueIds(users) && !HasId(users, u.id)
    ensures UniqueIds(users + [u])
  {
  }

  /** Removing a record keeps ids unique. */
  lemma RemoveAtKeepsUnique(users: seq<User>, i: nat)
    requires UniqueIds(users) && i < |users|
    ensures UniqueIds(RemoveAt(users, i))
  {
  }

  /** Two collections that carry the same ids at the same positions have the same first match. */
  lemma {:induction false} FindIndexSameIds(a: seq<User>, b: seq<User>, id: string)
    requires |a| == |b|
    requires forall k | 0 <= k < |a| :: a[k].id == b[k].id
    ensures FindIndex(a, id) == FindIndex(b, id)
  {
    if a != [] && a[0].id != id {
      FindIndexSameIds(a[1..], b[1..], id);
    }
  }

  /** After a record is appended with a fresh id, that id is found at the new last position. */
  lemma FindIndexAfterAppend(users: seq<User>, u: User)
    requires !HasId(users, u.id)
    ensures FindIndex(users + [u], u.id) == |users|
  {
    assert (users + [u])[|users|].id == u.id;
  }

  /** Appending a record does not change where an id already present is found. */
  lemma FindIndexAppendOther(users: seq<User>, u: User, id: string)
    requires HasId(users, id)
    ensures FindIndex(users + [u], id) == FindIndex(users, id)
  {
    var i := FindIndex(users, id);
    assert (users + [u])[i].id == id;
  }

  /**
   * With unique ids, once the first record carrying `id` is removed no record
   * carries `id` any more.
   */
  lemma RemoveFirstMatchLeavesNone(users: seq<User>, id: string)
    requires UniqueIds(users) && HasId(users, id)
    ensures !HasId(RemoveAt(users, FindIndex(users, id)), id)
  {
    var i := FindIndex(users, id);
    var r := RemoveAt(users, i);
    forall k | 0 <= k < |r|
      ensures r[k].id != id
    {
      if k < i {
        assert r[k] == users[k];
      } else {
        assert r[k] == users[k + 1];
      }
    }
  }

  /**
   * The module-level `users` array as an object the handlers are given: the
   * collection changes only through the methods below.
   */
  class Store {
    var users: seq<User>

    /** Every record carries an id no other record carries. */
    ghost predicate Valid()
      reads this
    {
      UniqueIds(users)
    }

    /** The collection is empty when the process starts. */
    constructor ()
      ensures Valid() && users == []
    {
      users := [];
    }

    /**
     * `addUser`: append a new record with the given fields at the end. The
     * id `uuid()` would generate is supplied by the caller and must be fresh.
     */
    method AddUser(id: string, username: Json, age: Json, hobbies: Json) returns (u: User)
      requires Valid()
      requires !HasId(users, id)
      modifies this
      ensures Valid()
      ensures u == User(id, username, age, hobbies)
      ensures users == old(users) + [u]
    {
      u := User(id, username, age, hobbies);
      AppendFreshKeepsUnique(users, u);
      users := users + [u];
    }

    /**
     * `getUserById`: the first record carrying `id`, or nothing exactly when
     * no record carries it.
     */
    function GetUserById(id: string): (r: Option<User>)
      reads this
      ensures r.None? <==> !HasId(users, id)
      ensures r.Some? ==> exists k | 0 <= k < |users| ::
        users[k] == r.value && r.value.id == id && forall j | 0 <= j < k :: users[j].id != id
    {
      var i := FindIndex(users, id);
      if i == -1 then None else Some(users[i])
    }

    /**
     * `updateUser`: merge the patch into the first record carrying `id` and
     * return the merged record; with no such record return nothing and change
     * nothing. Only that record changes, and its id stays.
     */
    method UpdateUser(id: string, patch: Patch) returns (r: Option<User>)
      requires Valid()
      modifies this
      ensures Valid()
      ensures r.None? <==> !HasId(old(users), id)
      ensures r.None? ==> users == old(users)
      ensures r.Some? ==> var i := FindIndex(old(users), id);
        r.value == Apply(old(users)[i], patch) && users == old(users)[i := r.value]
    {
      var i := FindIndex(users, id);
      if i == -1 {
        r := None;
      } else {
        r := Some(Apply(users[i], patch));
        ApplyKeepsUniqueIds(users, i, patch);
        users := users[i := r.value];
      }
    }

    /**
     * `deleteUser`: remove the first record carrying `id` and report whether
     * one was removed; afterwards no record carries `id`.
     */
    method DeleteUser(id: string) returns (deleted: bool)
      requires Valid()
      modifies this
      ensures Valid()
      ensures deleted <==> HasId(old(users), id)
      ensures deleted ==> users == RemoveAt(old(users), FindIndex(old(users), id))
      ensures !deleted ==> users == old(users)
      ensures !HasId(users, id)
    {
      var index := FindIndex(users, id);
      if index != -1 {
        RemoveAtKeepsUnique(users, index);
        RemoveFirstMatchLeavesNone(users, id);
        users := RemoveAt(users, index);
        return true;
      }
      return false;
    }
  }
}
