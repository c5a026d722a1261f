/** The keyed-map user store (src/users/users.repository.ts). */
module UsersRepo {
  import opened Outcomes
  import opened JsBuiltins
  import opened Records
  import opened KeyedStore

  /** How `create` builds the record stored under a key, at clock reading `now`. */
  function UserMaker(now: Time): (int, CreateUserDto) -> User {
    (id: int, dto: CreateUserDto) => NewUser(id, dto, now)
  }

  class UsersRepository {
    /** `Record<number, User>`: the stored users by id. */
    var users: map<int, User>
    /** The id the next `create` hands out. */
    var nextId: int
    /** Every id handed out so far, including those of users removed since. */
    ghost var issued: set<int>

    /** The counter starts at 1, the ids handed out are exactly those below it,
        and every stored key is one of them. */
    ghost predicate Valid()
      reads this
    {
      && nextId >= 1
      && (forall k :: k in issued <==> 1 <= k < nextId)
      && (forall k :: k in users ==> k in issued)
    }

    constructor ()
      ensures Valid() && users == map[] && nextId == 1 && issued == {}
    {
      users := map[];
      nextId := 1;
      issued := {};
    }

    /** `create` on each payload in order: the users land under the consecutive
        ids `old(nextId) .. old(nextId) + |xs| - 1`. */
    method Seed(xs: seq<CreateUserDto>, now: Time)
      requires Valid()
      modifies this
      ensures Valid()
      ensures users == CreateAll(old(users), old(nextId), xs, UserMaker(now))
      ensures nextId == old(nextId) + |xs|
      ensures |users| == |old(users)| + |xs|
      ensures forall k :: k in old(users) ==> k in users && users[k] == old(users)[k]
      ensures forall i :: 0 <= i < |xs| ==>
                old(nextId) + i in users && users[old(nextId) + i] == NewUser(old(nextId) + i, xs[i], now)
      ensures forall k :: k in issued <==> k in old(issued) || old(nextId) <= k < nextId
    {
      for i := 0 to |xs|
        invariant Valid()
        invariant nextId == old(nextId) + i
        invariant users == CreateAll(old(users), old(nextId), xs[..i], UserMaker(now))
      {
        CreateAllSnoc(old(users), old(nextId), xs[..i], xs[i], UserMaker(now));
        assert xs[..i + 1] == xs[..i] + [xs[i]];
        var created := Create(xs[i], now);
      }
      assert xs[..|xs|] == xs;
      assert users == CreateAll(old(users), old(nextId), xs, UserMaker(now));
      CreateAllSize(old(users), old(nextId), xs, UserMaker(now));
      forall i | 0 <= i < |xs|
        ensures old(nextId) + i in users && users[old(nextId) + i] == NewUser(old(nextId) + i, xs[i], now)
      {
        CreateAllAt(old(users), old(nextId), xs, UserMaker(now), i);
      }
    }

    /** Stores a new user under `nextId` and advances the counter. The id was
        never handed out before and is above every id handed out so far, so it
        collides with no stored key, even after removals. */
    method Create(dto: CreateUserDto, now: Time) returns (u: User)
      requires Valid()
      modifies this
      ensures Valid()
      ensures u == NewUser(old(nextId), dto, now)
      ensures nextId == old(nextId) + 1
      ensures users == old(users)[u.id := u]
      ensures u.id !in old(issued) && u.id !in old(users)
      ensures forall k :: k in old(issued) ==> k < u.id
      ensures issued == old(issued) + {u.id}
    {
      var id := nextId;
      nextId := nextId + 1;
      u := NewUser(id, dto, now);
      users := users[id := u];
      issued := issued + {id};
    }

    /** `Object.values(users)`: every stored user once, in ascending key order. */
    function FindAll(): (r: seq<User>)
      requires Valid()
      reads this
      ensures |r| == |users|
      ensures forall k :: k in users ==> users[k] in r
      ensures forall i :: 0 <= i < |r| ==> exists k :: k in users && users[k] == r[i]
      ensures forall k :: k in users ==> |KeysBetween(users, 1, k)| < |r| && r[|KeysBetween(users, 1, k)|] == users[k]
    {
      assert KeysBetween(users, 1, nextId) == users.Keys;
      ValuesInKeyOrderPositions(users, 1, nextId);
      ValuesInKeyOrder(users, 1, nextId)
    }

    /** The user stored under the id, or `undefined`. */
    function FindOne(id: int): (r: Option<User>)
      reads this
      ensures r.Some? <==> id in users
      ensures r.Some? ==> r.value == users[id]
    {
      if id in users then Some(users[id]) else None
    }

    /** `undefined` and no change for an absent id; otherwise the shallow merge
        with `updatedAt` refreshed is stored under the same key, and no other key
        changes. */
    method Update(id: int, dto: UpdateUserDto, now: Time) returns (r: Option<User>)
      requires Valid()
      modifies this
      ensures Valid()
      ensures nextId == old(nextId) && issued == old(issued)
      ensures id !in old(users) ==> r == None && users == old(users)
      ensures id in old(users) ==>
                && r == Some(UpdatedUser(old(users)[id], dto, now))
                && users == old(users)[id := r.value]
    {
      if id !in users {
        return None;
      }
      var updated := UpdatedUser(users[id], dto, now);
      users := users[id := updated];
      r := Some(updated);
    }

    /** `undefined` and no change for an absent id; otherwise deletes exactly that
        key and returns its record. The counter does not move back. */
    method Remove(id: int) returns (r: Option<User>)
      requires Valid()
      modifies this
      ensures Valid()
      ensures nextId == old(nextId) && issued == old(issued)
      ensures id !in old(users) ==> r == None && users == old(users)
      ensures id in old(users) ==> r == Some(old(users)[id]) && users == old(users) - {id}
    {
      if id !in users {
        return None;
      }
      r := Some(users[id]);
      users := users - {id};
    }
  }

  /** A fresh repository: create, remove that user, create again. The second id
      is not the first one: keys handed out by the counter are never handed out again. */
  method NoReuseScenario(a: CreateUserDto, b: CreateUserDto, now: Time)
    returns (first: User, second: User, found: Option<User>)
    ensures first.id == 1 && second.id == 2
    ensures found.None?
  {
    var repository := new UsersRepository();
    first := repository.Create(a, now);
    var removed := repository.Remove(first.id);
    second := repository.Create(b, now);
    found := repository.FindOne(first.id);
  }
}
