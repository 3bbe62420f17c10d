/**
 * The resource endpoint: turns each service outcome into a status code and a
 * payload. Failures are told apart by their kind, never by message text, and
 * a failure never carries a record in its payload.
 */
module Controller {

  import opened Wrappers
  import opened Users
  import opened Store
  import opened Service

  datatype Body = NoBody | One(user: UserRecord) | Many(users: seq<UserRecord>)

  datatype Response = Response(status: int, body: Body)

  predicate Success(status: int) { 200 <= status < 300 }

  predicate IsDuplicate(f: Failure) { f.DuplicateUsername? || f.DuplicateEmail? }

  /** A failure's status: not found 404, duplicate username or email 409, anything else 500. */
  function FailureStatus(f: Failure): (status: int)
    ensures status == 404 <==> f.NotFound?
    ensures status == 409 <==> IsDuplicate(f)
    ensures status == 500 <==> f.Unexpected?
  {
    match f
    case NotFound(_) => 404
    case DuplicateUsername(_) => 409
    case DuplicateEmail(_) => 409
    case Unexpected => 500
  }

  function Failed(f: Failure): Response
  {
    Response(FailureStatus(f), NoBody)
  }

  /** GET /users: 200 with the list, or the failure's status (500 when the store fails). */
  function ListUsers(outcome: Result<seq<UserRecord>>): (resp: Response)
    ensures Success(resp.status) <==> outcome.Ok?
    ensures outcome.Ok? ==> resp == Response(200, Many(outcome.value))
    ensures outcome == Err(Unexpected) ==> resp.status == 500
    ensures outcome.Err? ==> resp.body == NoBody
  {
    match outcome
    case Ok(users) => Response(200, Many(users))
    case Err(f) => Failed(f)
  }

  /** GET /users/{id}, /users/username/{name}, /users/email/{addr}: 200 with the record, or 404 when absent. */
  function GetUser(found: Option<UserRecord>): (resp: Response)
    ensures Success(resp.status) <==> found.Some?
    ensures found.Some? ==> resp == Response(200, One(found.value))
    ensures found.None? ==> resp == Response(404, NoBody)
  {
    match found
    case Some(u) => Response(200, One(u))
    case None => Response(404, NoBody)
  }

  /** POST /users: 201 with the created record, 409 on a duplicate username or email. */
  function CreateUser(outcome: Result<UserRecord>): (resp: Response)
    ensures Success(resp.status) <==> outcome.Ok?
    ensures outcome.Ok? ==> resp == Response(201, One(outcome.value))
    ensures outcome.Err? && IsDuplicate(outcome.failure) ==> resp.status == 409
    ensures outcome.Err? ==> resp.body == NoBody
  {
    match outcome
    case Ok(u) => Response(201, One(u))
    case Err(f) => Failed(f)
  }

  /** PUT /users/{id}: 200 with the updated record, 404 on NotFound, 409 on a duplicate. */
  function UpdateUser(outcome: Result<UserRecord>): (resp: Response)
    ensures Success(resp.status) <==> outcome.Ok?
    ensures outcome.Ok? ==> resp == Response(200, One(outcome.value))
    ensures outcome.Err? && outcome.failure.NotFound? ==> resp.status == 404
    ensures outcome.Err? && IsDuplicate(outcome.failure) ==> resp.status == 409
    ensures outcome.Err? ==> resp.body == NoBody
  {
    match outcome
    case Ok(u) => Response(200, One(u))
    case Err(f) => Failed(f)
  }

  /** DELETE /users/{id}: 204 with no body, 404 on NotFound. */
  function DeleteUser(outcome: Result<()>): (resp: Response)
    ensures Success(resp.status) <==> outcome.Ok?
    ensures outcome.Ok? ==> resp == Response(204, NoBody)
    ensures outcome.Err? && outcome.failure.NotFound? ==> resp.status == 404
    ensures resp.body == NoBody
  {
    match outcome
    case Ok(_) => Response(204, NoBody)
    case Err(f) => Failed(f)
  }

  // ---------------------------------------------------------------------
  // The endpoint composed with the service

  /** Posting a user whose username or email is taken answers 409 and stores nothing. */
  lemma CreateConflict(db: Db, candidate: UserRecord)
    requires candidate.id.None?
    requires ExistsBy(db, Username, candidate.username) || ExistsBy(db, Email, candidate.email)
    ensures CreateUser(Create(db, candidate).result).status == 409
    ensures Create(db, candidate).after == db
  {
  }

  /** Posting a user whose username and email are free answers 201 with the record under its new id. */
  lemma CreateCreated(db: Db, candidate: UserRecord)
    requires candidate.id.None?
    requires !ExistsBy(db, Username, candidate.username) && !ExistsBy(db, Email, candidate.email)
    ensures CreateUser(Create(db, candidate).result) == Response(201, One(candidate.(id := Some(db.nextId))))
  {
  }

  /** Putting or deleting an id that is not stored answers 404. */
  lemma MissingIdIsNotFound(db: Db, id: int, details: UserRecord)
    requires WellFormed(db)
    requires id !in db.table
    ensures UpdateUser(Update(db, id, details).result).status == 404
    ensures DeleteUser(Delete(db, id).result).status == 404
  {
  }

  /** Deleting a stored id answers 204, and a following get by that id answers 404. */
  lemma DeleteThenGetNotFound(db: Db, id: int)
    requires id in db.table
    ensures DeleteUser(Delete(db, id).result) == Response(204, NoBody)
    ensures GetUser(FindById(Delete(db, id).after, id)) == Response(404, NoBody)
  {
  }
}
