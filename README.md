# User CRUD service with unique usernames and emails — a Dafny model

This project models the business layer of a small user-management service.
The service stores one entity, the **User**, and serves it over an HTTP-style resource.
Three parts carry the logic, and each is modelled:

- **User entity** (`users.dfy`, module `Users`).
  A user has an optional id, a username, an email, a first and a last name, and two timestamps.
  The mutable entity is the class `Users.User`: two constructors, seven setters and the pre-update hook.
  The hook re-stamps `updatedAt`.
  Its stored field values are the datatype `Users.UserRecord`.
  Timestamps are ticks of an abstract clock, `Clocks.Clock` (`clock.dfy`).
  Every reading of that clock is strictly later than the one before.
- **Record Store and User Service** (`store.dfy`, `service.dfy`).
  The store is a table from id to record, plus three more pieces of state:
  - the ids in the order `findAll` lists them,
  - the next id it will hand out,
  - the clock its update hook reads.

  `Store.Db` is a snapshot of that state.
  The functions `FindAll`, `FindById`, `FindBy`, `ExistsBy`, `ExistsById`, `Persist` and `Erase` state the store's contract.
  The class `Store.RecordStore` holds the same state in fields, and its `Save` and `Delete` change it in place.

  The service rules are the value-level functions `Service.Create`, `Service.Update` and `Service.Delete`:
  - **create** checks the username first, then the email, and fails on the first one already taken;
  - **update** fails with NotFound on an unknown id, checks a changed username or email the same way, then merges and saves;
  - **delete** fails with NotFound on an unknown id, otherwise erases the record.

  Failures form a closed datatype: `NotFound(id)`, `DuplicateUsername(name)`, `DuplicateEmail(addr)` and `Unexpected`.
  The class `Service.UserService` runs these operations on a `RecordStore` in place.
  Each of its methods is proved to leave exactly the state and result the matching function describes.
  The service's invariant is `Service.Consistent`: the store is well formed, and no two stored users share a username or an email.
  Every operation is proved to keep it.
- **Endpoint** (`controller.dfy`, module `Controller`).
  This is a pure mapping from each service outcome to a status code and a payload.
  Failures are classified by kind: not found gives 404, a duplicate username or email gives 409, and anything else gives 500.
  A lookup that finds nothing gives 404.
  Successes give 200, except create (201) and delete (204).

The model is drawn from the project's test suite, `src/test/java/com/example/flywaydemo/FlywayDemoApplicationTest.java`.
Each class's behaviour (`User`, `UserRepository`, `UserService`, `UserController`) is what those tests assert about it.
Each "source" cell below cites the tests the member is drawn from.
Where a row states more than those tests check, the row says which part is the model's own choice.

The tests do not decide the following, so the model chooses:
- `updateUser` checks a username or email for duplicates only when it differs from the stored value.
  The only update test changes both fields, so it cannot tell this apart from always checking.
- A successful update always refreshes `updatedAt`.
- `findAll` lists records in ascending id order, which is also the order they were inserted.
  The list test takes its order from a stub.
- An update that hits a duplicate answers 409, and any failure of kind `Unexpected` answers 500.
  No endpoint test covers these cases.

## Model

| member | source | states |
|---|---|---|
| Clocks.Clock.Now | src/test/java/com/example/flywaydemo/FlywayDemoApplicationTest.java:122-136 | each clock reading is strictly later than the previous one |
| Users.User.Blank | src/test/java/com/example/flywaydemo/FlywayDemoApplicationTest.java:49-64 | a blank user has no id and no field values, and both stamps are set to the same clock reading |
| Users.User.constructor | src/test/java/com/example/flywaydemo/FlywayDemoApplicationTest.java:66-86 | the four-field constructor sets exactly those fields, leaves the id unset and sets both stamps |
| Users.User.SetId | src/test/java/com/example/flywaydemo/FlywayDemoApplicationTest.java:100-109 | setting the id changes the id and nothing else |
| Users.User.SetUsername | src/test/java/com/example/flywaydemo/FlywayDemoApplicationTest.java:101-110 | setting the username changes the username and nothing else |
| Users.User.SetEmail | src/test/java/com/example/flywaydemo/FlywayDemoApplicationTest.java:102-111 | setting the email changes the email and nothing else |
| Users.User.SetFirstName | src/test/java/com/example/flywaydemo/FlywayDemoApplicationTest.java:103-112 | setting the first name changes it and nothing else |
| Users.User.SetLastName | src/test/java/com/example/flywaydemo/FlywayDemoApplicationTest.java:104-113 | setting the last name changes it and nothing else |
| Users.User.SetCreatedAt | src/test/java/com/example/flywaydemo/FlywayDemoApplicationTest.java:105-114 | setting createdAt changes it and nothing else |
| Users.User.SetUpdatedAt | src/test/java/com/example/flywaydemo/FlywayDemoApplicationTest.java:106-115 | setting updatedAt changes it and nothing else |
| Users.User.PreUpdate | src/test/java/com/example/flywaydemo/FlywayDemoApplicationTest.java:118-137 | the pre-update hook sets updatedAt to a fresh clock reading; this is strictly later than before whenever the old stamp was not ahead of the clock; no other field changes, and on a complete user the new record form is `Touch` of the old one, the same step the store's save takes |
| Users.Touch | src/test/java/com/example/flywaydemo/FlywayDemoApplicationTest.java:118-137 | the one definition of the pre-update hook's effect on a record: updatedAt takes the given reading and every other field is kept; `Users.User.PreUpdate` and `Store.Persist` both use it, and the strictly-later promise is proved there and in `Service.UpdatePresent` |
| Store.FindIn | src/test/java/com/example/flywaydemo/FlywayDemoApplicationTest.java:234-262 | a find by field returns nothing exactly when no listed record holds the value; otherwise it returns the first listed record that holds it |
| Store.Without | src/test/java/com/example/flywaydemo/FlywayDemoApplicationTest.java:352-364 | removing an id from the listing keeps every other id, drops that one and keeps the ascending order |
| Store.FindAll | src/test/java/com/example/flywaydemo/FlywayDemoApplicationTest.java:187-203 | findAll gives one entry per listed id, the i-th being the record stored under the i-th id; `Store.FindAllIsTable` proves it is every stored record exactly once |
| Store.FindById | src/test/java/com/example/flywaydemo/FlywayDemoApplicationTest.java:205-232 | findById finds a record exactly when existsById holds, and the record found is the one stored under that id, carrying the id it was looked up by |
| Store.ExistsById | src/test/java/com/example/flywaydemo/FlywayDemoApplicationTest.java:381-394 | existsById holds exactly when the id is listed by findAll |
| Store.ExistsBy | src/test/java/com/example/flywaydemo/FlywayDemoApplicationTest.java:264-315 | existsByUsername / existsByEmail hold exactly when some record listed by findAll holds the value |
| Store.FindBy | src/test/java/com/example/flywaydemo/FlywayDemoApplicationTest.java:234-262 | findByUsername / findByEmail find a record exactly when the matching exists check holds, and the record found is a stored one holding the value |
| Store.Persist | src/test/java/com/example/flywaydemo/FlywayDemoApplicationTest.java:264-334 | save: a record without an id is stored under the next id, which is then used up, and the listing grows by that id; a stored record is replaced by its `Touch` with the next clock reading; either way the table maps the saved record's id to it and its username, email and createdAt are the given ones; `Store.PersistKeepsWellFormed` and `Store.SaveThenFind` state the rest |
| Store.Erase | src/test/java/com/example/flywaydemo/FlywayDemoApplicationTest.java:352-379 | delete: exactly that id leaves the table and the listing, every other record is kept unchanged, and the id counter and clock are untouched; `Store.EraseKeepsWellFormed` keeps the invariant |
| Store.FindByIsFirstListed | src/test/java/com/example/flywaydemo/FlywayDemoApplicationTest.java:187-262 | find-by-username/email agrees with findAll: nothing exactly when no entry of findAll holds the value, otherwise the first entry of findAll that holds it |
| Store.FindAllIsTable | src/test/java/com/example/flywaydemo/FlywayDemoApplicationTest.java:187-203 | findAll lists every stored record exactly once (the same count, the same records) in ascending id order |
| Store.PersistKeepsWellFormed | src/test/java/com/example/flywaydemo/FlywayDemoApplicationTest.java:264-282 | a save keeps the store's invariant: ids listed once and ascending, each record under its own id, stamps ordered and not ahead of the clock |
| Store.EraseKeepsWellFormed | src/test/java/com/example/flywaydemo/FlywayDemoApplicationTest.java:352-364 | a delete keeps the store's invariant |
| Store.SaveThenFind | src/test/java/com/example/flywaydemo/FlywayDemoApplicationTest.java:264-282 | after a save, the saved record has an id, and a find by that id returns it |
| Store.RecordStore.Save | src/test/java/com/example/flywaydemo/FlywayDemoApplicationTest.java:264-282 | save in place: a new record goes under the next id, and a stored one is replaced after `Touch` stamps it with a fresh clock reading; the resulting state is exactly what Persist gives |
| Store.RecordStore.Delete | src/test/java/com/example/flywaydemo/FlywayDemoApplicationTest.java:352-364 | delete in place: the resulting state is exactly what Erase gives, and the invariant holds |
| Service.Create | src/test/java/com/example/flywaydemo/FlywayDemoApplicationTest.java:264-315 | createUser fails exactly when the username or the email is taken, with DuplicateUsername or DuplicateEmail naming the value, and then leaves the store as it was; otherwise it returns the candidate under the next id and stores it there; `Service.CreateFree`, `Service.CreateTakenUsername`, `Service.CreateTakenEmail` and `Service.CreateKeepsConsistent` state each outcome and the invariant |
| Service.Merge | src/test/java/com/example/flywaydemo/FlywayDemoApplicationTest.java:317-334 | the merge step of updateUser: the stored record keeps its id and both stamps and takes the username, email, first and last name of the details |
| Service.Update | src/test/java/com/example/flywaydemo/FlywayDemoApplicationTest.java:317-350 | updateUser fails with NotFound exactly when the id is not stored; any failure leaves the store as it was; a success returns the record under the same id with a strictly later updatedAt and replaces only that entry; `Service.UpdateMissing`, `Service.UpdatePresent`, `Service.UpdateTakenUsername`, `Service.UpdateTakenEmail` and `Service.UpdateKeepsConsistent` state each outcome and the invariant |
| Service.Delete | src/test/java/com/example/flywaydemo/FlywayDemoApplicationTest.java:352-379 | deleteUser fails exactly when the id is not stored, with NotFound naming it and the store unchanged; otherwise exactly that id leaves the table; `Service.DeletePresent`, `Service.DeleteMissing` and `Service.DeleteKeepsConsistent` state each outcome and the invariant |
| Service.CreateFree | src/test/java/com/example/flywaydemo/FlywayDemoApplicationTest.java:264-282 | with a free username and a free email, create stores the candidate under the next id, returns that record and adds it to the listing |
| Service.CreateTakenUsername | src/test/java/com/example/flywaydemo/FlywayDemoApplicationTest.java:284-298 | a taken username fails with DuplicateUsername carrying that name, and the store is unchanged |
| Service.CreateTakenEmail | src/test/java/com/example/flywaydemo/FlywayDemoApplicationTest.java:300-315 | a free username with a taken email fails with DuplicateEmail carrying that address, and the store is unchanged |
| Service.CreateKeepsConsistent | src/test/java/com/example/flywaydemo/FlywayDemoApplicationTest.java:264-315 | create keeps the store well formed and its usernames and emails unique |
| Service.CreateThenGet | src/test/java/com/example/flywaydemo/FlywayDemoApplicationTest.java:264-282 | a created record has an id and the candidate's stamps, so a freshly built candidate comes back with createdAt equal to updatedAt; a get by its id returns it unchanged |
| Service.SecondCreateSameUsername | src/test/java/com/example/flywaydemo/FlywayDemoApplicationTest.java:284-298 | after a create, a second create with the same username fails with DuplicateUsername |
| Service.SecondCreateSameEmail | src/test/java/com/example/flywaydemo/FlywayDemoApplicationTest.java:300-315 | after a create, a second create with the same email and a free username fails with DuplicateEmail |
| Service.UpdateMissing | src/test/java/com/example/flywaydemo/FlywayDemoApplicationTest.java:336-350 | update on an absent id fails with NotFound carrying that id, and nothing is saved |
| Service.UpdatePresent | src/test/java/com/example/flywaydemo/FlywayDemoApplicationTest.java:317-334 | update on a present id whose new username and email are its own or free succeeds; the record keeps its id and createdAt, takes the four new fields and a strictly later updatedAt, and replaces only the stored record under that id |
| Service.UpdateTakenUsername | src/test/java/com/example/flywaydemo/FlywayDemoApplicationTest.java:317-334 | a changed username held by a stored record fails with DuplicateUsername, and nothing is saved |
| Service.UpdateTakenEmail | src/test/java/com/example/flywaydemo/FlywayDemoApplicationTest.java:317-334 | a changed email held by a stored record fails with DuplicateEmail once the username check has passed, and nothing is saved |
| Service.UpdateKeepsConsistent | src/test/java/com/example/flywaydemo/FlywayDemoApplicationTest.java:317-350 | update keeps the store well formed and its usernames and emails unique |
| Service.DeletePresent | src/test/java/com/example/flywaydemo/FlywayDemoApplicationTest.java:352-364 | delete on a present id succeeds and removes exactly that record; a later get by that id finds nothing |
| Service.DeleteMissing | src/test/java/com/example/flywaydemo/FlywayDemoApplicationTest.java:366-379 | delete on an absent id fails with NotFound carrying that id, and nothing is deleted |
| Service.DeleteKeepsConsistent | src/test/java/com/example/flywaydemo/FlywayDemoApplicationTest.java:352-379 | delete keeps the store well formed and its usernames and emails unique |
| Service.DeleteForgetsFields | src/test/java/com/example/flywaydemo/FlywayDemoApplicationTest.java:352-364 | after a delete, a find by the deleted user's username or email finds nothing |
| Service.FindByIsTheHolder | src/test/java/com/example/flywaydemo/FlywayDemoApplicationTest.java:234-262 | while usernames and emails are unique, a find by username or email returns the one record holding that value |
| Service.Scenario | src/test/java/com/example/flywaydemo/FlywayDemoApplicationTest.java:264-379 | a run composed by the model from the create, update and delete cases tested one at a time: create alice; a second alice fails with DuplicateUsername; renaming id 1 to alice2 succeeds; deleting id 1 succeeds; afterwards neither id 1 nor alice2 finds anything |
| Service.UserService.constructor | src/test/java/com/example/flywaydemo/FlywayDemoApplicationTest.java:172-185 | a service bound to a store that is well formed and holds unique usernames and emails starts out valid |
| Service.UserService.GetAllUsers | src/test/java/com/example/flywaydemo/FlywayDemoApplicationTest.java:187-203 | returns each stored record exactly once, in ascending id order |
| Service.UserService.GetUserById | src/test/java/com/example/flywaydemo/FlywayDemoApplicationTest.java:205-232 | returns the record stored under the id, or nothing exactly when the id is not stored |
| Service.UserService.GetUserByUsername | src/test/java/com/example/flywaydemo/FlywayDemoApplicationTest.java:234-247 | returns a stored record with that username, or nothing exactly when no stored record has it |
| Service.UserService.GetUserByEmail | src/test/java/com/example/flywaydemo/FlywayDemoApplicationTest.java:249-262 | returns a stored record with that email, or nothing exactly when no stored record has it |
| Service.UserService.UserExists | src/test/java/com/example/flywaydemo/FlywayDemoApplicationTest.java:381-394 | true exactly when the id is stored, which is exactly when getUserById finds it |
| Service.UserService.CreateUser | src/test/java/com/example/flywaydemo/FlywayDemoApplicationTest.java:264-315 | createUser on the store in place gives exactly the result and the new state that Create gives, and keeps uniqueness |
| Service.UserService.UpdateUser | src/test/java/com/example/flywaydemo/FlywayDemoApplicationTest.java:317-350 | updateUser on the store in place gives exactly the result and the new state that Update gives, and keeps uniqueness |
| Service.UserService.DeleteUser | src/test/java/com/example/flywaydemo/FlywayDemoApplicationTest.java:352-379 | deleteUser on the store in place gives exactly the result and the new state that Delete gives, and keeps uniqueness |
| Controller.FailureStatus | src/test/java/com/example/flywaydemo/FlywayDemoApplicationTest.java:508-588 | classifies by failure kind: 404 exactly for NotFound, 409 exactly for a duplicate, 500 exactly for Unexpected |
| Controller.ListUsers | src/test/java/com/example/flywaydemo/FlywayDemoApplicationTest.java:423-453 | list answers 200 with the records exactly on success, and 500 when the store fails; a failure carries no records |
| Controller.GetUser | src/test/java/com/example/flywaydemo/FlywayDemoApplicationTest.java:455-483 | get answers 200 with the record when one is found, and 404 with no body when none is |
| Controller.CreateUser | src/test/java/com/example/flywaydemo/FlywayDemoApplicationTest.java:485-523 | create answers 201 with the record exactly on success, and 409 on a duplicate |
| Controller.UpdateUser | src/test/java/com/example/flywaydemo/FlywayDemoApplicationTest.java:525-562 | update answers 200 with the record exactly on success and 404 on NotFound, as tested; the 409 on a duplicate is the model's choice, since no test covers it |
| Controller.DeleteUser | src/test/java/com/example/flywaydemo/FlywayDemoApplicationTest.java:564-588 | delete answers 204 with no body exactly on success, and 404 on NotFound |
| Controller.CreateConflict | src/test/java/com/example/flywaydemo/FlywayDemoApplicationTest.java:508-523 | posting a user whose username or email is taken answers 409 and leaves the store unchanged |
| Controller.CreateCreated | src/test/java/com/example/flywaydemo/FlywayDemoApplicationTest.java:485-506 | posting a user whose fields are free answers 201 with the record under its newly assigned id |
| Controller.MissingIdIsNotFound | src/test/java/com/example/flywaydemo/FlywayDemoApplicationTest.java:547-588 | putting or deleting an id that is not stored answers 404 |
| Controller.DeleteThenGetNotFound | src/test/java/com/example/flywaydemo/FlywayDemoApplicationTest.java:564-588 | deleting a stored id answers 204, and a get by that id afterwards answers 404 |

## Left out

- `toString` formatting is not modelled (tests 139-160 check only substrings of it).
- Dependency wiring, the mocking framework's call recording, and the placeholder application-context tests (621-642) are left out. They are framework plumbing.
  The model fixes which store checks decide each outcome, not how many calls are made.
- JSON serialisation and content types are left out. A response is a status code plus a body that carries no record, one record, or a list of records.
- The persistence engine and schema migrations are left out. The store is the abstract table above.
- The store itself never fails in this model. An `Unexpected` failure reaches the endpoint only as an input to `Controller.ListUsers` and the other endpoint functions.
- The wall clock becomes an abstract tick counter that moves forward by one on every reading. The sleep in test 125-130 has no counterpart.
- Concurrency is not modelled. Every operation runs atomically, so the check-then-act race between the uniqueness check and the save cannot occur here.
- Service.UserService.CreateUser: requires the candidate to have no id yet. A candidate that already carries an id would be merged by the store rather than inserted; that path is not modelled.
- Service.UserService.CreateUser: requires the candidate's stamps to be readings of the store's own clock, taken in order. The entity's constructors always produce such stamps; values set by hand through `SetCreatedAt`/`SetUpdatedAt` may not.
  A posted body can carry its own stamps (test 498 serialises them), and one may be ahead of the clock.
  Such a record is outside this model: its next update would move `updatedAt` backwards, which `Users.User.PreUpdate`'s conditional promise allows.
  The strictly later `updatedAt` of `Service.UpdatePresent` holds only because the store invariant keeps every stamp at or behind the clock.
- Unset (null) username, email or names are possible on the entity object, but are not modelled in a stored record. The database schema would reject them, and that schema is not part of this model.
- The entity object and the stored record are separate: the service works on record values. The store writing the assigned id back into the caller's object is not modelled.
- Store.FindAll: lists records in ascending id order. This is the model's choice; the real store's `findAll` promises no order, and the list test's order comes from a stub.
- Service.Update: checks a username or email for duplicates only when it differs from the stored value. The tests cannot tell this from always checking; a service that always checked would reject an update in which a user keeps their own username.
- Store.Persist: an update always re-stamps `updatedAt`. The persistence layer's dirty checking, which skips the hook when nothing changed, is not modelled.
- Failure messages ("Username already exists: testuser", "User not found with id: 999") are replaced by the value each failure carries. The endpoint never inspects message text.
