/**
 * `UserService`: create, list, read, update and delete over the user table,
 * modelled as a map from id to record held in a field. Every read, update
 * and delete returns the projection without the password; create returns
 * the stored record as is.
 */
module Users {
  import opened Wrappers
  import opened NestExceptions
  import opened UserDto
  import Decimal

  /** A stored user; timestamps are opaque instants. */
  datatype User = User(id: int, name: string, email: string, password: string, createdAt: int, updatedAt: int)

  /** The `select` projection `{id, name, email, createdAt, updatedAt}`: no password. */
  datatype UserView = UserView(id: int, name: string, email: string, createdAt: int, updatedAt: int)

  function View(u: User): (v: UserView)
    ensures v.id == u.id && v.name == u.name && v.email == u.email
    ensures v.createdAt == u.createdAt && v.updatedAt == u.updatedAt
  {
    UserView(u.id, u.name, u.email, u.createdAt, u.updatedAt)
  }

  const NOT_FOUND_PREFIX: string := "用户 ID "
  const NOT_FOUND_SUFFIX: string := " 不存在"

  /** The template literal `用户 ID ${id} 不存在`. */
  function NotFoundMessage(id: int): (s: string)
    ensures |s| > |NOT_FOUND_PREFIX| + |NOT_FOUND_SUFFIX|
  {
    NOT_FOUND_PREFIX + Decimal.IntToString(id) + NOT_FOUND_SUFFIX
  }

  /** The message quotes the id, and different ids give different messages. */
  lemma NotFoundMessageNamesId(a: int, b: int)
    ensures var s, t := NotFoundMessage(a), Decimal.IntToString(a);
            |s| == |NOT_FOUND_PREFIX| + |t| + |NOT_FOUND_SUFFIX| &&
            s[|NOT_FOUND_PREFIX|..|NOT_FOUND_PREFIX| + |t|] == t
    ensures NotFoundMessage(a) == NotFoundMessage(b) ==> a == b
  {
    var s, t := NotFoundMessage(a), Decimal.IntToString(a);
    assert s[|NOT_FOUND_PREFIX|..|NOT_FOUND_PREFIX| + |t|] == t;
    if NotFoundMessage(a) == NotFoundMessage(b) {
      var u := Decimal.IntToString(b);
      assert |t| == |u|;
      assert t == NotFoundMessage(b)[|NOT_FOUND_PREFIX|..|NOT_FOUND_PREFIX| + |u|] == u;
      Decimal.IntToStringInjective(a, b);
    }
  }

  /**
   * `prisma.user.update({data: dto})`: the fields the DTO carries replace the
   * stored ones, and `updatedAt` takes the value `now` the store gives it.
   */
  function Patch(u: User, dto: UpdateUserDto, now: int): (p: User)
    ensures p.id == u.id && p.createdAt == u.createdAt && p.updatedAt == now
  {
    u.(name := if dto.name.Some? then dto.name.value else u.name,
       email := if dto.email.Some? then dto.email.value else u.email,
       password := if dto.password.Some? then dto.password.value else u.password,
       updatedAt := now)
  }

  /**
   * Patching keeps the id and the creation time, sets each field the DTO
   * carries and keeps each it leaves out; the empty DTO changes nothing but
   * `updatedAt`, and patching twice with the same DTO at the same instant is
   * the same as once.
   */
  lemma PatchChangesOnlyGivenFields(u: User, dto: UpdateUserDto, now: int)
    ensures var p := Patch(u, dto, now);
            p.id == u.id && p.createdAt == u.createdAt && p.updatedAt == now &&
            (dto.name.Some? ==> p.name == dto.name.value) && (dto.name.None? ==> p.name == u.name) &&
            (dto.email.Some? ==> p.email == dto.email.value) && (dto.email.None? ==> p.email == u.email) &&
            (dto.password.Some? ==> p.password == dto.password.value) &&
            (dto.password.None? ==> p.password == u.password)
    ensures Patch(u, UpdateUserDto(None, None, None), now) == u.(updatedAt := now)
    ensures Patch(Patch(u, dto, now), dto, now) == Patch(u, dto, now)
  {
  }

  /** A set of ids without members is empty (so a non-empty one has a member to pick). */
  lemma NoMemberMeansEmpty(ids: set<int>)
    ensures (forall id :: id !in ids) ==> ids == {}
  {
    if forall id :: id !in ids {
      assert ids == {};
    }
  }

  /** Every record is filed under its own id. */
  ghost predicate KeyedById(table: map<int, User>) {
    forall id :: id in table ==> table[id].id == id
  }

  class UserService {
    /** The user table. */
    var users: map<int, User>

    ghost predicate Valid()
      reads this
    {
      KeyedById(users)
    }

    constructor (table: map<int, User>)
      requires KeyedById(table)
      ensures Valid() && users == table
    {
      users := table;
    }

    /**
     * `create(dto)`: the store assigns the fresh `id` and the timestamp `now`,
     * or fails with an Error carrying `storeFailure` (a duplicate email, say),
     * leaving the table as it was. The stored record, password included, is
     * returned.
     */
    method Create(dto: CreateUserDto, id: int, now: int, storeFailure: Option<string>)
      returns (r: Result<User, Thrown>)
      requires Valid() && id !in users
      modifies this
      ensures Valid()
      ensures storeFailure.Some? ==> r == Err(PlainError(storeFailure.value)) && users == old(users)
      ensures storeFailure.None? ==>
                r == Ok(User(id, dto.name, dto.email, dto.password, now, now)) &&
                users == old(users)[id := r.value]
    {
      if storeFailure.Some? {
        return Err(PlainError(storeFailure.value));
      }
      var user := User(id, dto.name, dto.email, dto.password, now, now);
      users := users[id := user];
      r := Ok(user);
    }

    /**
     * `findAll()`: one projection per stored record, each record exactly once,
     * in the order the store enumerates them (unspecified).
     */
    method FindAll() returns (r: seq<UserView>)
      requires Valid()
      ensures |r| == |users|
      ensures forall i :: 0 <= i < |r| ==> r[i].id in users && r[i] == View(users[r[i].id])
      ensures forall i, j :: 0 <= i < j < |r| ==> r[i].id != r[j].id
      ensures forall id :: id in users ==> exists i :: 0 <= i < |r| && r[i].id == id
    {
      r := [];
      var remaining := users.Keys;
      while remaining != {}
        invariant remaining <= users.Keys
        invariant |r| + |remaining| == |users|
        invariant forall i :: 0 <= i < |r| ==> r[i].id in users && r[i].id !in remaining && r[i] == View(users[r[i].id])
        invariant forall i, j :: 0 <= i < j < |r| ==> r[i].id != r[j].id
        invariant forall id :: id in users && id !in remaining ==> exists i :: 0 <= i < |r| && r[i].id == id
        decreases remaining
      {
        NoMemberMeansEmpty(remaining);
        var key :| key in remaining;
        ghost var before := r;
        r := r + [View(users[key])];
        remaining := remaining - {key};
        forall id | id in users && id !in remaining
          ensures exists i :: 0 <= i < |r| && r[i].id == id
        {
          if id == key {
            assert r[|r| - 1].id == id;
          } else {
            var i :| 0 <= i < |before| && before[i].id == id;
            assert r[i].id == id;
          }
        }
      }
    }

    /** `findOne(id)`: the projection of the record, or NotFound naming the id. */
    method FindOne(id: int) returns (r: Result<UserView, Thrown>)
      requires Valid()
      ensures id in users ==> r == Ok(View(users[id])) && r.value.id == id
      ensures id !in users ==> r == Err(NotFoundException(NotFoundMessage(id)))
    {
      if id !in users {
        return Err(NotFoundException(NotFoundMessage(id)));
      }
      r := Ok(View(users[id]));
    }

    /**
     * `update(id, dto)`: the existence check first, so a missing id throws
     * NotFound with the table untouched; otherwise only that record changes,
     * with `updatedAt` set to the store's `now`, and its new projection is
     * returned.
     */
    method Update(id: int, dto: UpdateUserDto, now: int) returns (r: Result<UserView, Thrown>)
      requires Valid()
      modifies this
      ensures Valid()
      ensures id !in old(users) ==> r == Err(NotFoundException(NotFoundMessage(id))) && users == old(users)
      ensures id in old(users) ==>
                users == old(users)[id := Patch(old(users)[id], dto, now)] &&
                r == Ok(View(users[id]))
    {
      var found := FindOne(id);
      if found.Err? {
        return Err(found.error);
      }
      var updated := Patch(users[id], dto, now);
      users := users[id := updated];
      r := Ok(View(updated));
    }

    /**
     * `remove(id)`: the existence check first, so a missing id throws NotFound
     * and nothing is deleted; otherwise exactly that key is deleted and the
     * record's projection as it was before deletion is returned.
     */
    method Remove(id: int) returns (r: Result<UserView, Thrown>)
      requires Valid()
      modifies this
      ensures Valid()
      ensures id !in old(users) ==> r == Err(NotFoundException(NotFoundMessage(id))) && users == old(users)
      ensures id in old(users) ==> users == old(users) - {id} && r == Ok(View(old(users)[id]))
    {
      var found := FindOne(id);
      if found.Err? {
        return Err(found.error);
      }
      var removed := users[id];
      users := users - {id};
      r := Ok(View(removed));
    }
  }
}
