/** The array-backed user store (src/users/users.service.ts). */
module UsersSvc {
  import opened Outcomes
  import opened JsBuiltins
  import opened Records

  /** `users.findIndex(user => user.id === id)`: the position of the first user with that id. */
  function UserIndex(users: seq<User>, id: int): (r: Option<nat>)
    ensures r.Some? ==> r.value < |users| && users[r.value].id == id
    ensures r.Some? ==> forall j :: 0 <= j < r.value ==> users[j].id != id
    ensures r.None? <==> forall j :: 0 <= j < |users| ==> users[j].id != id
  {
    FindIndex(users, (u: User) => u.id == id)
  }

  /** `users.find(user => user.id === id)`: the first user with that id, if any. */
  function Lookup(users: seq<User>, id: int): (r: Option<User>)
    ensures r.Some? <==> exists i :: 0 <= i < |users| && users[i].id == id
    ensures r.Some? ==> r.value in users && r.value.id == id
    ensures r.Some? ==> r.value == users[UserIndex(users, id).value]
  {
    match UserIndex(users, id)
    case None => None
    case Some(i) => Some(users[i])
  }

  /** Appending a user makes it findable by its id only when no earlier user has
      that id; otherwise the earlier user keeps shadowing it. */
  lemma LookupAfterAppend(users: seq<User>, u: User)
    ensures Lookup(users, u.id).None? ==> Lookup(users + [u], u.id) == Some(u)
    ensures Lookup(users, u.id).Some? ==> Lookup(users + [u], u.id) == Lookup(users, u.id)
  {
    var all := users + [u];
    assert all[|users|].id == u.id;
    assert forall j :: 0 <= j < |users| ==> all[j] == users[j];
    var i := UserIndex(all, u.id).value;
    match UserIndex(users, u.id)
    case None =>
      assert i == |users|;
    case Some(k) =>
      assert all[k].id == u.id;
      assert i <= k;
      assert i == k;
  }

  /** The first position holding an id is where findIndex stops. */
  lemma UserIndexAt(users: seq<User>, id: int, i: nat)
    requires i < |users| && users[i].id == id
    requires forall j :: 0 <= j < i ==> users[j].id != id
    ensures UserIndex(users, id) == Some(i)
    ensures Lookup(users, id) == Some(users[i])
  {
    var k := UserIndex(users, id).value;
    assert k <= i;
  }

  /** When the ids are 1, 2, …, n, as a run of creates alone leaves them, removing
      any user but the last and then creating one more hands out the id the last
      user still holds; looking that id up keeps returning the older user. */
  lemma RemoveThenCreateReusesId(users: seq<User>, id: int, dto: CreateUserDto, now: Time)
    requires forall k :: 0 <= k < |users| ==> users[k].id == k + 1
    requires 1 <= id < |users|
    ensures UserIndex(users, id) == Some(id - 1)
    ensures var rest := RemoveAt(users, id - 1);
            var created := NewUser(|rest| + 1, dto, now);
            && created.id == users[|users| - 1].id
            && users[|users| - 1] in rest
            && Lookup(rest + [created], created.id) == Some(users[|users| - 1])
  {
    UserIndexAt(users, id, id - 1);
    var rest := RemoveAt(users, id - 1);
    var created := NewUser(|rest| + 1, dto, now);
    var last := users[|users| - 1];
    assert rest[|rest| - 1] == last;
    forall j | 0 <= j < |rest| - 1 ensures rest[j].id != last.id {
      if j < id - 1 { assert rest[j] == users[j]; } else { assert rest[j] == users[j + 1]; }
    }
    UserIndexAt(rest, last.id, |rest| - 1);
    LookupAfterAppend(rest, created);
  }

  /** The seed payloads of `OnModuleInit`. */
  function JohnDoe(now: Time): CreateUserDto {
    CreateUserDto("John Doe", "john@example.com", "admin", true, now, now)
  }

  function JaneSmith(now: Time): CreateUserDto {
    CreateUserDto("Jane Smith", "jane@example.com", "user", true, now, now)
  }

  class UsersService {
    /** The stored users, in insertion order. */
    var users: seq<User>

    constructor ()
      ensures users == []
    {
      users := [];
    }

    /** Creates the two seed users, one after the other. The method is spelled
        `OnModuleInit`, not `onModuleInit`, so the framework never calls it. */
    method OnModuleInit(now: Time)
      modifies this
      ensures users == old(users) + [NewUser(|old(users)| + 1, JohnDoe(now), now),
                                     NewUser(|old(users)| + 2, JaneSmith(now), now)]
    {
      var john := Create(JohnDoe(now), now);
      var jane := Create(JaneSmith(now), now);
    }

    /** Appends one user whose id is the current length plus one; nothing
        already stored changes. The id need not be fresh: see RemoveThenCreateReusesId. */
    method Create(dto: CreateUserDto, now: Time) returns (u: User)
      modifies this
      ensures u == NewUser(|old(users)| + 1, dto, now)
      ensures u.createdAt == now && u.updatedAt == now
      ensures users == old(users) + [u]
    {
      u := NewUser(|users| + 1, dto, now);
      users := users + [u];
    }

    /** The stored users, in insertion order. */
    function FindAll(): (r: seq<User>)
      reads this
      ensures |r| == |users| && forall i :: 0 <= i < |r| ==> r[i] == users[i]
    {
      users
    }

    /** The first user with the id; a plain `Error` when there is none. */
    function FindOne(id: int): (r: Result<User>)
      reads this
      ensures r.Ok? <==> exists i :: 0 <= i < |users| && users[i].id == id
      ensures r.Ok? ==> r.value in users && r.value.id == id
      ensures r.Ok? ==> r.value == users[UserIndex(users, id).value]
      ensures r.Fail? ==> r.exception == Error(UserNotFound(id))
    {
      match Lookup(users, id)
      case None => Fail(Error(UserNotFound(id)))
      case Some(u) => Ok(u)
    }

    /** Replaces the first user with the id by its shallow merge with the payload,
        with `updatedAt` refreshed; every other position is left alone. */
    method Update(id: int, dto: UpdateUserDto, now: Time) returns (r: Result<User>)
      modifies this
      ensures UserIndex(old(users), id).None? ==>
                r == Fail(Error(UserNotFound(id))) && users == old(users)
      ensures UserIndex(old(users), id).Some? ==>
                var i := UserIndex(old(users), id).value;
                && r == Ok(UpdatedUser(old(users)[i], dto, now))
                && users == old(users)[i := r.value]
    {
      var found := UserIndex(users, id);
      if found.None? {
        r := Fail(Error(UserNotFound(id)));
        return;
      }
      var i := found.value;
      var updated := UpdatedUser(users[i], dto, now);
      users := users[i := updated];
      r := Ok(updated);
    }

    /** Splices out the first user with the id and returns it; the others keep
        their order. */
    method Remove(id: int) returns (r: Result<User>)
      modifies this
      ensures UserIndex(old(users), id).None? ==>
                r == Fail(Error(UserNotFound(id))) && users == old(users)
      ensures UserIndex(old(users), id).Some? ==>
                var i := UserIndex(old(users), id).value;
                && r == Ok(old(users)[i])
                && users == RemoveAt(old(users), i)
    {
      var found := UserIndex(users, id);
      if found.None? {
        r := Fail(Error(UserNotFound(id)));
        return;
      }
      var i := found.value;
      r := Ok(users[i]);
      users := RemoveAt(users, i);
    }
  }

  /** The sequences the scenario below passes through: the first of two users is
      found at position 0 and spliced out, and in the pair that follows the next
      create, id 2 is found at position 0. */
  lemma ReuseSteps(first: User, kept: User, created: User)
    requires first.id == 1 && kept.id == 2 && created.id == 2
    ensures UserIndex([first, kept], 1) == Some(0)
    ensures RemoveAt([first, kept], 0) == [kept]
    ensures Lookup([kept, created], 2) == Some(kept)
  {
    UserIndexAt([first, kept], 1, 0);
    UserIndexAt([kept, created], 2, 0);
  }

  /** A fresh store: create two users, delete the first, create one more. The
      newcomer gets id 2, which the second user still holds, and looking up id 2
      returns the older user. */
  method IdReuseScenario(a: CreateUserDto, b: CreateUserDto, c: CreateUserDto, now: Time)
    returns (kept: User, created: User, found: Result<User>)
    ensures kept.id == 2 && created.id == 2
    ensures found == Ok(kept)
  {
    var store := new UsersService();
    var first := store.Create(a, now);
    kept := store.Create(b, now);
    ReuseSteps(first, kept, NewUser(2, c, now));
    var removed := store.Remove(1);
    created := store.Create(c, now);
    found := store.FindOne(2);
  }
}
