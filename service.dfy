/**
 * The user service: the only component with business rules. It keeps
 * usernames and emails unique across the store and turns a missing id into a
 * typed failure. The value-level functions Create, Update and Delete say what
 * each operation does to a store snapshot; the class UserService performs
 * them on a RecordStore in place.
 */
module Service {

  import opened Wrappers
  import opened Users
  import opened Store

  /** The closed set of ways a service operation can fail. */
  datatype Failure =
    | NotFound(id: int)
    | DuplicateUsername(username: string)
    | DuplicateEmail(email: string)
    | Unexpected

  datatype Result<+T> = Ok(value: T) | Err(failure: Failure)

  /** What an operation returns together with the store it leaves behind. */
  datatype Outcome<+T> = Outcome(result: Result<T>, after: Db)

  /** No two stored records share a username, and no two share an email. */
  predicate Unique(table: map<int, UserRecord>)
  {
    forall a, b, f :: a in table && b in table && a != b ==> Key(table[a], f) != Key(table[b], f)
  }

  /** The service's invariant over the store. */
  predicate Consistent(db: Db)
  {
    WellFormed(db) && Unique(db.table)
  }

  /**
   * createUser: the username is checked first, then the email; the first one
   * already taken is the failure and nothing is saved. Otherwise the
   * candidate is saved and the stored record returned.
   */
  function Create(db: Db, candidate: UserRecord): (out: Outcome<UserRecord>)
    requires candidate.id.None?
    ensures out.result.Err? ==> out.after == db
    ensures out.result.Err? ==> out.result.failure in {DuplicateUsername(candidate.username), DuplicateEmail(candidate.email)}
    ensures out.result.Err? <==> ExistsBy(db, Username, candidate.username) || ExistsBy(db, Email, candidate.email)
    ensures out.result.Ok? ==> out.result.value == candidate.(id := Some(db.nextId))
    ensures out.result.Ok? ==> out.after.table == db.table[db.nextId := out.result.value]
  {
    if ExistsBy(db, Username, candidate.username) then
      Outcome(Err(DuplicateUsername(candidate.username)), db)
    else if ExistsBy(db, Email, candidate.email) then
      Outcome(Err(DuplicateEmail(candidate.email)), db)
    else
      var saved := Persist(db, candidate);
      Outcome(Ok(saved.0), saved.1)
  }

  /** The stored user with `details`' four fields and everything else kept. */
  function Merge(existing: UserRecord, details: UserRecord): (merged: UserRecord)
    ensures merged.id == existing.id && merged.createdAt == existing.createdAt && merged.updatedAt == existing.updatedAt
    ensures Key(merged, Username) == Key(details, Username) && Key(merged, Email) == Key(details, Email)
    ensures merged.firstName == details.firstName && merged.lastName == details.lastName
  {
    existing.(username := details.username, email := details.email,
              firstName := details.firstName, lastName := details.lastName)
  }

  /**
   * updateUser: a missing id is NotFound. A username or email that changes
   * must not be held by any stored record. Otherwise the four fields of
   * `details` are merged onto the stored record (id and createdAt kept) and
   * saved, which refreshes updatedAt.
   */
  function Update(db: Db, id: int, details: UserRecord): (out: Outcome<UserRecord>)
    requires WellFormed(db)
    ensures out.result.Err? ==> out.after == db
    ensures out.result == Err(NotFound(id)) <==> id !in db.table
    ensures out.result.Ok? ==> out.result.value.id == Some(id) && out.after.table == db.table[id := out.result.value]
    ensures out.result.Ok? ==> out.result.value.updatedAt > db.table[id].updatedAt
  {
    if id !in db.table then
      Outcome(Err(NotFound(id)), db)
    else
      var existing := db.table[id];
      if details.username != existing.username && ExistsBy(db, Username, details.username) then
        Outcome(Err(DuplicateUsername(details.username)), db)
      else if details.email != existing.email && ExistsBy(db, Email, details.email) then
        Outcome(Err(DuplicateEmail(details.email)), db)
      else
        var saved := Persist(db, Merge(existing, details));
        Outcome(Ok(saved.0), saved.1)
  }

  /** deleteUser: a missing id is NotFound; otherwise the record is erased. */
  function Delete(db: Db, id: int): (out: Outcome<()>)
    ensures out.result.Err? <==> id !in db.table
    ensures out.result.Err? ==> out == Outcome(Err(NotFound(id)), db)
    ensures out.result.Ok? ==> out.after.table.Keys == db.table.Keys - {id}
  {
    if id !in db.table then Outcome(Err(NotFound(id)), db)
    else Outcome(Ok(()), Erase(db, id))
  }

  // ---------------------------------------------------------------------
  // createUser

  /** With both fields free, the candidate is stored under the next id and returned. */
  lemma CreateFree(db: Db, candidate: UserRecord)
    requires candidate.id.None?
    requires !ExistsBy(db, Username, candidate.username)
    requires !ExistsBy(db, Email, candidate.email)
    ensures Create(db, candidate).result == Ok(candidate.(id := Some(db.nextId)))
    ensures Create(db, candidate).after.table == db.table[db.nextId := candidate.(id := Some(db.nextId))]
    ensures Create(db, candidate).after.order == db.order + [db.nextId]
  {
  }

  /** A taken username fails with DuplicateUsername naming it, and the store is unchanged. */
  lemma CreateTakenUsername(db: Db, candidate: UserRecord)
    requires candidate.id.None?
    requires ExistsBy(db, Username, candidate.username)
    ensures Create(db, candidate) == Outcome(Err(DuplicateUsername(candidate.username)), db)
  {
  }

  /** A free username with a taken email fails with DuplicateEmail naming it, and the store is unchanged. */
  lemma CreateTakenEmail(db: Db, candidate: UserRecord)
    requires candidate.id.None?
    requires !ExistsBy(db, Username, candidate.username)
    requires ExistsBy(db, Email, candidate.email)
    ensures Create(db, candidate) == Outcome(Err(DuplicateEmail(candidate.email)), db)
  {
  }

  /** createUser keeps the store well formed and its usernames and emails unique. */
  lemma CreateKeepsConsistent(db: Db, candidate: UserRecord)
    requires Consistent(db)
    requires candidate.id.None? && Stamped(candidate, db.ticks)
    ensures Consistent(Create(db, candidate).after)
  {
  }

  /**
   * A successful create returns a record with an assigned id, whose stamps
   * are those of the candidate (so a freshly constructed candidate comes
   * back with createdAt == updatedAt), and a find by that id returns it.
   */
  lemma CreateThenGet(db: Db, candidate: UserRecord)
    requires candidate.id.None?
    requires Create(db, candidate).result.Ok?
    ensures Create(db, candidate).result.value.id.Some?
    ensures Create(db, candidate).result.value.createdAt == candidate.createdAt
    ensures Create(db, candidate).result.value.updatedAt == candidate.updatedAt
    ensures FindById(Create(db, candidate).after, Create(db, candidate).result.value.id.value)
         == Some(Create(db, candidate).result.value)
  {
  }

  /** After one user is created, creating another with the same username fails with DuplicateUsername. */
  lemma SecondCreateSameUsername(db: Db, first: UserRecord, second: UserRecord)
    requires first.id.None? && second.id.None?
    requires Create(db, first).result.Ok?
    requires second.username == first.username
    ensures Create(Create(db, first).after, second).result == Err(DuplicateUsername(first.username))
  {
    var after := Create(db, first).after;
    assert after.table[db.nextId].username == first.username;
    assert ExistsBy(after, Username, second.username);
  }

  /** After one user is created, creating another with the same email (and a free username) fails with DuplicateEmail. */
  lemma SecondCreateSameEmail(db: Db, first: UserRecord, second: UserRecord)
    requires first.id.None? && second.id.None?
    requires Create(db, first).result.Ok?
    requires !ExistsBy(Create(db, first).after, Username, second.username)
    requires second.email == first.email
    ensures Create(Create(db, first).after, second).result == Err(DuplicateEmail(first.email))
  {
    var after := Create(db, first).after;
    assert after.table[db.nextId].email == first.email;
    assert ExistsBy(after, Email, second.email);
  }

  // ---------------------------------------------------------------------
  // updateUser

  /** An absent id fails with NotFound naming it, and nothing is saved. */
  lemma UpdateMissing(db: Db, id: int, details: UserRecord)
    requires WellFormed(db)
    requires id !in db.table
    ensures Update(db, id, details) == Outcome(Err(NotFound(id)), db)
  {
  }

  /**
   * On a present id whose new username and email are its own or free, the
   * update succeeds: the record keeps its id and createdAt, takes the four
   * fields of `details`, gets a strictly later updatedAt, and replaces the
   * stored one; no other record and no id assignment changes.
   */
  lemma UpdatePresent(db: Db, id: int, details: UserRecord)
    requires WellFormed(db)
    requires id in db.table
    requires details.username == db.table[id].username || !ExistsBy(db, Username, details.username)
    requires details.email == db.table[id].email || !ExistsBy(db, Email, details.email)
    ensures Update(db, id, details).result.Ok?
    ensures Update(db, id, details).result.value.id == Some(id)
    ensures Update(db, id, details).result.value.createdAt == db.table[id].createdAt
    ensures Update(db, id, details).result.value.updatedAt > db.table[id].updatedAt
    ensures Update(db, id, details).result.value.username == details.username
    ensures Update(db, id, details).result.value.email == details.email
    ensures Update(db, id, details).result.value.firstName == details.firstName
    ensures Update(db, id, details).result.value.lastName == details.lastName
    ensures Update(db, id, details).after.table == db.table[id := Update(db, id, details).result.value]
    ensures Update(db, id, details).after.order == db.order
    ensures Update(db, id, details).after.nextId == db.nextId
  {
  }

  /** A changed username already held by a stored record fails with DuplicateUsername, and nothing is saved. */
  lemma UpdateTakenUsername(db: Db, id: int, details: UserRecord)
    requires WellFormed(db)
    requires id in db.table
    requires details.username != db.table[id].username && ExistsBy(db, Username, details.username)
    ensures Update(db, id, details) == Outcome(Err(DuplicateUsername(details.username)), db)
  {
  }

  /** A changed email already held by a stored record fails with DuplicateEmail when the username passed, and nothing is saved. */
  lemma UpdateTakenEmail(db: Db, id: int, details: UserRecord)
    requires WellFormed(db)
    requires id in db.table
    requires details.username == db.table[id].username || !ExistsBy(db, Username, details.username)
    requires details.email != db.table[id].email && ExistsBy(db, Email, details.email)
    ensures Update(db, id, details) == Outcome(Err(DuplicateEmail(details.email)), db)
  {
  }

  /** updateUser keeps the store well formed and its usernames and emails unique. */
  lemma UpdateKeepsConsistent(db: Db, id: int, details: UserRecord)
    requires Consistent(db)
    ensures Consistent(Update(db, id, details).after)
  {
  }

  // ---------------------------------------------------------------------
  // deleteUser

  /** On a present id, delete removes exactly that record; a find by that id then finds nothing. */
  lemma DeletePresent(db: Db, id: int)
    requires id in db.table
    ensures Delete(db, id).result == Ok(())
    ensures Delete(db, id).after.table == db.table - {id}
    ensures FindById(Delete(db, id).after, id) == None
  {
  }

  /** On an absent id, delete fails with NotFound naming it, and nothing is deleted. */
  lemma DeleteMissing(db: Db, id: int)
    requires id !in db.table
    ensures Delete(db, id) == Outcome(Err(NotFound(id)), db)
  {
  }

  /** deleteUser keeps the store well formed and its usernames and emails unique. */
  lemma DeleteKeepsConsistent(db: Db, id: int)
    requires Consistent(db)
    ensures Consistent(Delete(db, id).after)
  {
    EraseKeepsWellFormed(db, id);
  }

  /** Once a user is deleted, neither its username nor its email finds anything. */
  lemma DeleteForgetsFields(db: Db, id: int, f: Field)
    requires Consistent(db)
    requires id in db.table
    ensures WellFormed(Delete(db, id).after)
    ensures FindBy(Delete(db, id).after, f, Key(db.table[id], f)) == None
  {
    var after := Delete(db, id).after;
    EraseKeepsWellFormed(db, id);
  }

  // ---------------------------------------------------------------------
  // lookups

  /** Under the uniqueness invariant, find-by-field returns THE record holding the value. */
  lemma FindByIsTheHolder(db: Db, f: Field, id: int)
    requires Consistent(db)
    requires id in db.table
    ensures FindBy(db, f, Key(db.table[id], f)) == Some(db.table[id])
  {
  }

  /**
   * The scenario: create alice, fail to create a second alice, rename the
   * first to alice2, delete it; afterwards neither its id nor its new
   * username finds anything.
   */
  lemma Scenario()
    ensures
      var alice := UserRecord(None, "alice", "a@x.com", "Alice", "A", 0, 0);
      var db0 := Empty(0);
      var c1 := Create(db0, alice);
      && c1.result.Ok? && c1.result.value.id == Some(1)
      && var c2 := Create(c1.after, alice.(email := "b@y.com"));
      && c2.result == Err(DuplicateUsername("alice"))
      && var u := Update(c2.after, 1, alice.(username := "alice2"));
      && u.result.Ok? && u.result.value.username == "alice2"
      && var d := Delete(u.after, 1);
      && d.result == Ok(())
      && FindById(d.after, 1) == None
      && FindBy(d.after, Username, "alice2") == None
  {
  }

  /**
   * The service object, bound to one store. Its lookups read the store; its
   * create, update and delete change it in place.
   */
  class UserService {
    const store: RecordStore

    constructor (store: RecordStore)
      requires Consistent(store.Snapshot())
      ensures this.store == store
      ensures Valid()
    {
      this.store := store;
    }

    ghost predicate Valid()
      reads store, store.clock
    {
      Consistent(store.Snapshot())
    }

    /** getAllUsers: every stored user once, in the store's (ascending id) order. */
    function GetAllUsers(): (users: seq<UserRecord>)
      reads store, store.clock
      requires Valid()
      ensures |users| == |store.table|
      ensures forall r :: r in users <==> r in store.table.Values
      ensures forall i :: 0 <= i < |users| ==> users[i].id.Some?
      ensures forall i, j :: 0 <= i < j < |users| ==> users[i].id.value < users[j].id.value
    {
      FindAllIsTable(store.Snapshot());
      FindAll(store.Snapshot())
    }

    /** getUserById: the stored record under `id`, or nothing when there is none. */
    function GetUserById(id: int): (found: Option<UserRecord>)
      reads store, store.clock
      requires Valid()
      ensures found.Some? <==> id in store.table
      ensures found.Some? ==> found.value == store.table[id] && found.value.id == Some(id)
    {
      FindById(store.Snapshot(), id)
    }

    /** getUserByUsername: the one stored user with that username, or nothing. */
    function GetUserByUsername(username: string): (found: Option<UserRecord>)
      reads store, store.clock
      requires Valid()
      ensures found.Some? <==> exists id :: id in store.table && store.table[id].username == username
      ensures found.Some? ==> found.value.username == username && found.value in store.table.Values
    {
      FindBy(store.Snapshot(), Username, username)
    }

    /** getUserByEmail: the one stored user with that email, or nothing. */
    function GetUserByEmail(email: string): (found: Option<UserRecord>)
      reads store, store.clock
      requires Valid()
      ensures found.Some? <==> exists id :: id in store.table && store.table[id].email == email
      ensures found.Some? ==> found.value.email == email && found.value in store.table.Values
    {
      FindBy(store.Snapshot(), Email, email)
    }

    /** userExists: whether `id` is stored, which is whether getUserById finds it. */
    function UserExists(id: int): (exists_: bool)
      reads store, store.clock
      requires Valid()
      ensures exists_ <==> id in store.table
      ensures exists_ <==> GetUserById(id).Some?
    {
      ExistsById(store.Snapshot(), id)
    }

    /** createUser, on the store in place. */
    method CreateUser(candidate: UserRecord) returns (result: Result<UserRecord>)
      requires Valid()
      requires candidate.id.None? && Stamped(candidate, store.clock.ticks)
      modifies store, store.clock
      ensures Valid()
      ensures Outcome(result, store.Snapshot()) == Create(old(store.Snapshot()), candidate)
    {
      var db := store.Snapshot();
      CreateKeepsConsistent(db, candidate);
      if ExistsBy(db, Username, candidate.username) {
        return Err(DuplicateUsername(candidate.username));
      }
      if ExistsBy(db, Email, candidate.email) {
        return Err(DuplicateEmail(candidate.email));
      }
      var saved := store.Save(candidate);
      return Ok(saved);
    }

    /** updateUser, on the store in place. */
    method UpdateUser(id: int, details: UserRecord) returns (result: Result<UserRecord>)
      requires Valid()
      modifies store, store.clock
      ensures Valid()
      ensures Outcome(result, store.Snapshot()) == Update(old(store.Snapshot()), id, details)
    {
      var db := store.Snapshot();
      UpdateKeepsConsistent(db, id, details);
      var found := GetUserById(id);
      if found.None? {
        return Err(NotFound(id));
      }
      var existing := found.value;
      if details.username != existing.username && ExistsBy(db, Username, details.username) {
        return Err(DuplicateUsername(details.username));
      }
      if details.email != existing.email && ExistsBy(db, Email, details.email) {
        return Err(DuplicateEmail(details.email));
      }
      var saved := store.Save(Merge(existing, details));
      return Ok(saved);
    }

    /** deleteUser, on the store in place. */
    method DeleteUser(id: int) returns (result: Result<()>)
      requires Valid()
      modifies store
      ensures Valid()
      ensures Outcome(result, store.Snapshot()) == Delete(old(store.Snapshot()), id)
    {
      var db := store.Snapshot();
      DeleteKeepsConsistent(db, id);
      var found := GetUserById(id);
      if found.None? {
        return Err(NotFound(id));
      }
      store.Delete(id);
      return Ok(());
    }
  }
}
