/** The in-memory user store of the first service generation: a map from id
    to user and a counter that hands out ids. */
module UserRepository {
  import opened Common
  import opened Model
  import opened Sorting

  class InMemoryUserRepository {
    /** The last id handed out; the next user saved gets `lastId + 1`. */
    var lastId: nat
    var users: map<int, User>

    /** Every user is stored under its own id, which the counter has handed out. */
    ghost predicate Valid()
      reads this
    {
      forall id :: id in users ==> users[id].id == id && 0 < id <= lastId
    }

    constructor ()
      ensures Valid() && users == map[] && lastId == 0
    {
      lastId := 0;
      users := map[];
    }

    /** save: the user gets the next id and is stored under it. */
    method Save(u: User) returns (saved: User)
      requires Valid()
      modifies this
      ensures Valid()
      ensures saved == u.(id := old(lastId) + 1)
      ensures lastId == old(lastId) + 1
      ensures users == old(users)[saved.id := saved]
      ensures saved.id !in old(users) && forall id :: id in old(users) ==> id < saved.id
    {
      lastId := lastId + 1;
      saved := u.(id := lastId);
      users := users[saved.id := saved];
    }

    /** findById: the stored user, or nothing. */
    method FindById(id: int) returns (r: Option<User>)
      ensures r.Some? <==> id in users
      ensures r.Some? ==> r.value == users[id]
    {
      r := if id in users then Some(users[id]) else None;
    }

    /** findAll: exactly the stored users, each once. */
    method FindAll() returns (r: seq<User>)
      requires Valid()
      ensures |r| == |users|
      ensures forall u :: u in r <==> u in users.Values
      ensures NoDuplicates(r)
    {
      assert Injective(users);
      r := InIdOrder(users);
    }

    /** deleteById: an absent id is an error and changes nothing; otherwise
        only that id is removed. */
    method DeleteById(id: int) returns (err: Option<Error>)
      requires Valid()
      modifies this
      ensures Valid()
      ensures id !in old(users) ==> err == Some(EntityNotFound) && users == old(users)
      ensures id in old(users) ==> err == None && users == old(users) - {id}
      ensures lastId == old(lastId)
    {
      if id !in users {
        return Some(EntityNotFound);
      }
      users := users - {id};
      err := None;
    }
  }
}
