/** The user service of the first service generation, over the in-memory user
    store: lookups, creation with a unique email, partial update and deletion. */
module UserService {
  import opened Common
  import opened Model
  import opened Sorting
  import UserMapper
  import UserRepository

  /** validateUniqueEmail: some stored user already has this email. */
  predicate EmailTaken(users: map<int, User>, email: string)
  {
    exists u :: u in users.Values && u.email == email
  }

  /** Two users of a store keyed by id with the same transfer object are the
      same user. */
  lemma UserDtosDistinct(users: map<int, User>, us: seq<User>)
    requires UsersKeyed(users) && NoDuplicates(us) && forall u :: u in us ==> u in users.Values
    ensures NoDuplicates(MapSeq(us, UserMapper.ToDto))
  {
    forall a, b | a in us && b in us && UserMapper.ToDto(a) == UserMapper.ToDto(b) ensures a == b {
      ValueHasKey(users, a);
      ValueHasKey(users, b);
    }
  }

  /** No two stored users share an email. */
  predicate EmailsUnique(users: map<int, User>)
  {
    forall a, b :: a in users && b in users && a != b ==> users[a].email != users[b].email
  }

  /** The update asks for a new email: a non-blank one that differs from the current one. */
  predicate ChangesEmail(u: User, d: UserDto)
  {
    Replaces(d.email) && u.email != d.email
  }

  /** The user after the partial update: name and email are replaced only by
      non-blank values. */
  function UserPatched(u: User, d: UserDto): (r: User)
    ensures r.name == (if Replaces(d.name) then d.name else u.name)
    ensures r.email == (if Replaces(d.email) then d.email else u.email)
    ensures r.id == u.id
  {
    var r := if Replaces(d.name) then u.(name := d.name) else u;
    if Replaces(d.email) then r.(email := d.email) else r
  }

  /** updateUser with every check made before anything is written. */
  function UpdateOutcome(users: map<int, User>, id: int, d: UserDto): (r: Result<User>)
    ensures id !in users ==> r == Failure(EntityNotFound)
    ensures (id in users && ChangesEmail(users[id], d) && EmailTaken(users, d.email)) ==> r == Failure(DuplicateEmail)
    ensures r.Success? <==> id in users && !(ChangesEmail(users[id], d) && EmailTaken(users, d.email))
    ensures r.Success? ==> r.value == UserPatched(users[id], d)
  {
    if id !in users then Failure(EntityNotFound)
    else if ChangesEmail(users[id], d) && EmailTaken(users, d.email) then Failure(DuplicateEmail)
    else Success(UserPatched(users[id], d))
  }

  /** updateUser as written: the name is set on the stored user before the email
      is checked, so a rejected email leaves the new name behind. Gives the
      outcome and the store afterwards. */
  function UpdateAsWritten(users: map<int, User>, id: int, d: UserDto): (r: (Result<User>, map<int, User>))
    ensures id !in users ==> r == (Failure(EntityNotFound), users)
    ensures (id in users && ChangesEmail(users[id], d) && EmailTaken(users, d.email)) ==>
      r.0 == Failure(DuplicateEmail) && r.1 == users[id := users[id].(name := UserPatched(users[id], d).name)]
  {
    if id !in users then (Failure(EntityNotFound), users)
    else
      var u := users[id];
      var u := if Replaces(d.name) then u.(name := d.name) else u;
      var stored := users[id := u];
      assert ChangesEmail(users[id], d) ==> (EmailTaken(stored, d.email) <==> EmailTaken(users, d.email)) by {
        if ChangesEmail(users[id], d) && EmailTaken(users, d.email) {
          var w :| w in users.Values && w.email == d.email;
          ValueHasKey(users, w);
          var k :| k in users && users[k] == w;
          assert stored[k] == w;
        }
      }
      if Replaces(d.email) && users[id].email != d.email && EmailTaken(stored, d.email) then
        (Failure(DuplicateEmail), stored)
      else
        var u := if Replaces(d.email) then u.(email := d.email) else u;
        (Success(u), users[id := u])
  }

  /** A renamed user whose new email is taken: as written the request fails and
      yet the name has changed. */
  lemma RejectedUpdateRenamesAsWritten()
    ensures var users := map[1 := User(1, "Ann", "ann@mail.com"), 2 := User(2, "Bob", "bob@mail.com")];
      var r := UpdateAsWritten(users, 1, UserDto(0, "Carl", "bob@mail.com"));
      && r.0 == Failure(DuplicateEmail)
      && r.1[1].name == "Carl" && r.1 != users
  {
    var users := map[1 := User(1, "Ann", "ann@mail.com"), 2 := User(2, "Bob", "bob@mail.com")];
    var d := UserDto(0, "Carl", "bob@mail.com");
    assert users[2] in users.Values;
    assert !IsBlank("Carl") by { assert !IsWhitespace("Carl"[0]); }
    assert !IsBlank(d.email) by { assert !IsWhitespace(d.email[0]); }
    assert ChangesEmail(users[1], d);
  }

  /** Where the write-first update succeeds it agrees with the check-first one. */
  lemma UpdateAgreesOnSuccess(users: map<int, User>, id: int, d: UserDto)
    requires UpdateAsWritten(users, id, d).0.Success?
    ensures UpdateOutcome(users, id, d) == UpdateAsWritten(users, id, d).0
    ensures UpdateAsWritten(users, id, d).1 == users[id := UpdateOutcome(users, id, d).value]
  {
  }

  /** A successful update keeps the emails of the store unique. */
  lemma {:induction false} UpdateKeepsEmailsUnique(users: map<int, User>, id: int, d: UserDto)
    requires EmailsUnique(users) && UpdateOutcome(users, id, d).Success?
    ensures EmailsUnique(users[id := UpdateOutcome(users, id, d).value])
  {
    var u := UpdateOutcome(users, id, d).value;
    var after := users[id := u];
    forall a, b | a in after && b in after && a != b ensures after[a].email != after[b].email {
      if a == id && ChangesEmail(users[id], d) {
        assert users[b] in users.Values;
      } else if b == id && ChangesEmail(users[id], d) {
        assert users[a] in users.Values;
      }
    }
  }

  /** Adding a user whose email is not taken keeps the emails unique. */
  lemma {:induction false} AddKeepsEmailsUnique(users: map<int, User>, u: User)
    requires EmailsUnique(users) && !EmailTaken(users, u.email) && u.id !in users
    ensures EmailsUnique(users[u.id := u])
  {
    var after := users[u.id := u];
    forall a, b | a in after && b in after && a != b ensures after[a].email != after[b].email {
      if a == u.id {
        assert users[b] in users.Values;
      } else if b == u.id {
        assert users[a] in users.Values;
      }
    }
  }

  class LegacyUserService {
    const repo: UserRepository.InMemoryUserRepository

    ghost predicate Valid()
      reads this, repo
    {
      repo.Valid() && EmailsUnique(repo.users)
    }

    constructor (repo: UserRepository.InMemoryUserRepository)
      requires repo.Valid() && EmailsUnique(repo.users)
      ensures Valid() && this.repo == repo
    {
      this.repo := repo;
    }

    /** getAllUsers: every stored user, as a transfer object, each once. */
    method GetAllUsers() returns (r: seq<UserDto>)
      requires Valid()
      ensures forall d :: d in r <==> exists u :: u in repo.users.Values && d == UserMapper.ToDto(u)
      ensures |r| == |repo.users|
      ensures NoDuplicates(r)
    {
      var all := repo.FindAll();
      UserDtosDistinct(repo.users, all);
      r := MapSeq(all, UserMapper.ToDto);
    }

    /** getUserById: the stored user, or EntityNotFound. */
    method GetUserById(id: int) returns (r: Result<UserDto>)
      ensures r.Success? <==> id in repo.users
      ensures r.Failure? ==> r.error == EntityNotFound
      ensures r.Success? ==> r.value == UserMapper.ToDto(repo.users[id])
    {
      var found := repo.FindById(id);
      if found.None? {
        return Failure(EntityNotFound);
      }
      r := Success(UserMapper.ToDto(found.value));
    }

    /** validateUniqueEmail, as a test rather than a throw. */
    method ValidateUniqueEmail(email: string) returns (taken: bool)
      requires Valid()
      ensures taken <==> EmailTaken(repo.users, email)
    {
      var all := repo.FindAll();
      taken := exists u :: u in all && u.email == email;
    }

    /** addUser: a taken email is refused and nothing is stored; otherwise the
        user is saved under the next id. */
    method AddUser(d: UserDto) returns (r: Result<UserDto>)
      requires Valid()
      modifies repo
      ensures Valid()
      ensures EmailTaken(old(repo.users), d.email) ==>
        r == Failure(DuplicateEmail) && repo.users == old(repo.users) && repo.lastId == old(repo.lastId)
      ensures !EmailTaken(old(repo.users), d.email) ==>
        var saved := User(old(repo.lastId) + 1, d.name, d.email);
        && r == Success(UserMapper.ToDto(saved))
        && repo.users == old(repo.users)[saved.id := saved]
        && repo.lastId == old(repo.lastId) + 1
    {
      var taken := ValidateUniqueEmail(d.email);
      if taken {
        return Failure(DuplicateEmail);
      }
      var saved := repo.Save(UserMapper.ToEntity(d));
      AddKeepsEmailsUnique(old(repo.users), saved);
      r := Success(UserMapper.ToDto(saved));
    }

    /** updateUser: every check is made before the stored user is written. */
    method UpdateUser(id: int, d: UserDto) returns (r: Result<UserDto>)
      requires Valid()
      modifies repo
      ensures Valid()
      ensures var o := UpdateOutcome(old(repo.users), id, d);
        && (o.Success? ==> r == Success(UserMapper.ToDto(o.value)) && repo.users == old(repo.users)[id := o.value])
        && (o.Failure? ==> r == Failure(o.error) && repo.users == old(repo.users))
      ensures repo.lastId == old(repo.lastId)
    {
      var found := repo.FindById(id);
      if found.None? {
        return Failure(EntityNotFound);
      }
      var user := found.value;
      if Replaces(d.email) && user.email != d.email {
        var taken := ValidateUniqueEmail(d.email);
        if taken {
          return Failure(DuplicateEmail);
        }
      }
      if Replaces(d.name) {
        user := user.(name := d.name);
      }
      if Replaces(d.email) {
        user := user.(email := d.email);
      }
      UpdateKeepsEmailsUnique(repo.users, id, d);
      repo.users := repo.users[id := user];
      r := Success(UserMapper.ToDto(user));
    }

    /** deleteUserById: delegates to the store. */
    method DeleteUserById(id: int) returns (err: Option<Error>)
      requires Valid()
      modifies repo
      ensures Valid()
      ensures id !in old(repo.users) ==> err == Some(EntityNotFound) && repo.users == old(repo.users)
      ensures id in old(repo.users) ==> err == None && repo.users == old(repo.users) - {id}
    {
      err := repo.DeleteById(id);
    }
  }
}
