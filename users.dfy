/**
 * The User entity: its persisted field values and the mutable in-memory
 * object with its constructors, setters and pre-update hook.
 */
module Users {

  import opened Wrappers
  import opened Clocks

  /**
   * The field values of a user as the store keeps them. `id` is absent until
   * the store assigns one; the stamps are clock ticks.
   */
  datatype UserRecord = UserRecord(
    id: Option<int>,
    username: string,
    email: string,
    firstName: string,
    lastName: string,
    createdAt: int,
    updatedAt: int)

  /** The two fields that no two stored users may share. */
  datatype Field = Username | Email

  function Key(r: UserRecord, f: Field): string
  {
    match f
    case Username => r.username
    case Email => r.email
  }

  /** The stamps are readings of a clock that now stands at `ticks`, taken in order. */
  predicate Stamped(r: UserRecord, ticks: int)
  {
    r.createdAt <= r.updatedAt <= ticks
  }

  /** The pre-update hook's effect on the field values: `updatedAt` becomes `now`. */
  function Touch(r: UserRecord, now: int): (r': UserRecord)
    ensures r'.updatedAt == now
    ensures r' == r.(updatedAt := r'.updatedAt)
    ensures r.updatedAt < now ==> r'.updatedAt > r.updatedAt
  {
    r.(updatedAt := now)
  }

  /**
   * The mutable entity. Its string fields may be unset (null), as they are
   * after the no-argument constructor.
   */
  class User {
    var id: Option<int>
    var username: Option<string>
    var email: Option<string>
    var firstName: Option<string>
    var lastName: Option<string>
    var createdAt: int
    var updatedAt: int

    /** A blank user: no id, no field values, both stamps set to one reading of the clock. */
    constructor Blank(clock: Clock)
      modifies clock
      ensures id == None && username == None && email == None
      ensures firstName == None && lastName == None
      ensures clock.ticks == old(clock.ticks) + 1
      ensures createdAt == updatedAt == clock.ticks
    {
      var now := clock.Now();
      id, username, email, firstName, lastName := None, None, None, None, None;
      createdAt, updatedAt := now, now;
    }

    /** A user with the four given fields, no id, and both stamps set to one reading of the clock. */
    constructor (clock: Clock, username: string, email: string, firstName: string, lastName: string)
      modifies clock
      ensures id == None
      ensures this.username == Some(username) && this.email == Some(email)
      ensures this.firstName == Some(firstName) && this.lastName == Some(lastName)
      ensures clock.ticks == old(clock.ticks) + 1
      ensures createdAt == updatedAt == clock.ticks
    {
      var now := clock.Now();
      id := None;
      this.username, this.email := Some(username), Some(email);
      this.firstName, this.lastName := Some(firstName), Some(lastName);
      createdAt, updatedAt := now, now;
    }

    /** Whether all four string fields are set, so that the user has a record form. */
    predicate Complete()
      reads this
    {
      username.Some? && email.Some? && firstName.Some? && lastName.Some?
    }

    /** The user's field values as a record. */
    function Record(): UserRecord
      reads this
      requires Complete()
    {
      UserRecord(id, username.value, email.value, firstName.value, lastName.value, createdAt, updatedAt)
    }

    method SetId(v: int)
      modifies this`id
      ensures id == Some(v)
    {
      id := Some(v);
    }

    method SetUsername(v: string)
      modifies this`username
      ensures username == Some(v)
    {
      username := Some(v);
    }

    method SetEmail(v: string)
      modifies this`email
      ensures email == Some(v)
    {
      email := Some(v);
    }

    method SetFirstName(v: string)
      modifies this`firstName
      ensures firstName == Some(v)
    {
      firstName := Some(v);
    }

    method SetLastName(v: string)
      modifies this`lastName
      ensures lastName == Some(v)
    {
      lastName := Some(v);
    }

    method SetCreatedAt(t: int)
      modifies this`createdAt
      ensures createdAt == t
    {
      createdAt := t;
    }

    method SetUpdatedAt(t: int)
      modifies this`updatedAt
      ensures updatedAt == t
    {
      updatedAt := t;
    }

    /**
     * The hook run before the store writes an update: `updatedAt` becomes a
     * fresh reading of the clock, so it moves strictly forward unless it had
     * been set by hand to a time the clock has not reached.
     */
    method PreUpdate(clock: Clock)
      modifies this`updatedAt, clock
      ensures clock.ticks == old(clock.ticks) + 1 && updatedAt == clock.ticks
      ensures old(updatedAt) <= old(clock.ticks) ==> updatedAt > old(updatedAt)
      ensures old(Complete()) ==> Complete() && Record() == Touch(old(Record()), clock.ticks)
    {
      updatedAt := clock.Now();
    }
  }
}
