/**
 * The Record Store the service is built on: a table from id to user record,
 * the ids in the order the store lists them, the next id it will hand out,
 * and the clock its update hook reads. The value-level functions state the
 * store's contract (find, exists, save, delete); the class RecordStore holds
 * the same state as fields and changes it in place.
 */
module Store {

  import opened Wrappers
  import opened Users
  import opened Clocks

  /** A snapshot of the store's state. */
  datatype Db = Db(table: map<int, UserRecord>, order: seq<int>, nextId: int, ticks: int)

  predicate Increasing(s: seq<int>)
  {
    forall i, j :: 0 <= i < j < |s| ==> s[i] < s[j]
  }

  /** Every id of `ids` is a key of `table`. */
  predicate Listed(table: map<int, UserRecord>, ids: seq<int>)
  {
    forall i :: 0 <= i < |ids| ==> ids[i] in table
  }

  /**
   * The store's own invariant: `order` lists every stored id once, in
   * ascending order; ids are positive and below `nextId`; each record carries
   * its own id; and its stamps are in order and not later than the clock.
   */
  predicate WellFormed(db: Db)
  {
    && 0 < db.nextId
    && Increasing(db.order)
    && Listed(db.table, db.order)
    && (forall id :: id in db.table ==> id in db.order)
    && (forall id :: id in db.table ==> 0 < id < db.nextId)
    && (forall id :: id in db.table ==> db.table[id].id == Some(id))
    && (forall id :: id in db.table ==> Stamped(db.table[id], db.ticks))
  }

  /** A store holding nothing, whose first id will be 1. */
  function Empty(ticks: int): (db: Db)
    ensures WellFormed(db) && db.table == map[]
  {
    Db(map[], [], 1, ticks)
  }

  /** findAll: the stored records, in the store's order. */
  function FindAll(db: Db): (users: seq<UserRecord>)
    requires WellFormed(db)
    ensures |users| == |db.order|
    ensures forall i :: 0 <= i < |users| ==> users[i].id == Some(db.order[i])
  {
    var users := seq(|db.order|, i requires 0 <= i < |db.order| => db.table[db.order[i]]);
    assert forall i :: 0 <= i < |users| ==> users[i] == db.table[db.order[i]] && db.order[i] in db.table;
    users
  }

  /** findById. */
  function FindById(db: Db, id: int): (found: Option<UserRecord>)
    ensures found.Some? <==> ExistsById(db, id)
    ensures found.Some? ==> id in db.table && found.value == db.table[id]
    ensures WellFormed(db) && found.Some? ==> found.value.id == Some(id)
  {
    if id in db.table then Some(db.table[id]) else None
  }

  /** existsById. */
  predicate ExistsById(db: Db, id: int)
    ensures WellFormed(db) ==> (ExistsById(db, id) <==> id in db.order)
  {
    id in db.table
  }

  /** existsByUsername / existsByEmail: some stored record holds `v` in field `f`. */
  predicate ExistsBy(db: Db, f: Field, v: string)
    ensures WellFormed(db) ==> (ExistsBy(db, f, v) <==> exists i :: 0 <= i < |db.order| && Key(db.table[db.order[i]], f) == v)
  {
    exists id | id in db.table :: Key(db.table[id], f) == v
  }

  /** The first record among `ids` whose field `f` is `v`. */
  function FindIn(table: map<int, UserRecord>, ids: seq<int>, f: Field, v: string): (found: Option<UserRecord>)
    requires Listed(table, ids)
    ensures found.None? <==> forall i :: 0 <= i < |ids| ==> Key(table[ids[i]], f) != v
    ensures found.Some? ==> Key(found.value, f) == v && found.value in table.Values
    ensures found.Some? ==> exists i :: 0 <= i < |ids| && table[ids[i]] == found.value
                                      && forall j :: 0 <= j < i ==> Key(table[ids[j]], f) != v
  {
    if ids == [] then None
    else if Key(table[ids[0]], f) == v then Some(table[ids[0]])
    else
      var rest := FindIn(table, ids[1..], f, v);
      assert forall i :: 1 <= i < |ids| ==> ids[i] == ids[1..][i - 1];
      assert rest.Some? ==> exists i :: 0 <= i < |ids| && table[ids[i]] == rest.value
                                      && forall j :: 0 <= j < i ==> Key(table[ids[j]], f) != v by {
        if rest.Some? {
          var i :| 0 <= i < |ids[1..]| && table[ids[1..][i]] == rest.value
                   && forall j :: 0 <= j < i ==> Key(table[ids[1..][j]], f) != v;
          assert table[ids[i + 1]] == rest.value;
          forall j | 0 <= j < i + 1 ensures Key(table[ids[j]], f) != v {
            if j > 0 {
              assert ids[j] == ids[1..][j - 1];
            }
          }
        }
      }
      rest
  }

  /** findByUsername / findByEmail: the first record, in the store's order, holding `v` in field `f`. */
  function FindBy(db: Db, f: Field, v: string): (found: Option<UserRecord>)
    requires WellFormed(db)
    ensures found.Some? <==> ExistsBy(db, f, v)
    ensures found.Some? ==> Key(found.value, f) == v && found.value in db.table.Values
  {
    FindIn(db.table, db.order, f, v)
  }

  /** `ids` without `x`, in the same order. */
  function Without(ids: seq<int>, x: int): (rest: seq<int>)
    ensures forall y :: y in rest <==> y in ids && y != x
    ensures Increasing(ids) ==> Increasing(rest)
  {
    if ids == [] then []
    else
      var tail := Without(ids[1..], x);
      if ids[0] == x then tail
      else
        assert Increasing(ids) ==> forall y :: y in tail ==> ids[0] < y by {
          if Increasing(ids) {
            forall y | y in tail ensures ids[0] < y {
              var j :| 0 <= j < |ids[1..]| && ids[1..][j] == y;
              assert ids[j + 1] == y;
            }
          }
        }
        var rest := [ids[0]] + tail;
        assert Increasing(ids) ==> Increasing(rest) by {
          if Increasing(ids) {
            forall i, j | 0 <= i < j < |rest| ensures rest[i] < rest[j] {
              assert rest[j] == tail[j - 1] && tail[j - 1] in tail;
              if i > 0 {
                assert rest[i] == tail[i - 1];
              }
            }
          }
        }
        rest
  }

  /**
   * save: a record without an id is inserted under the next id, which is then
   * used up; a record whose id is stored replaces the stored one, after the
   * update hook stamps `updatedAt` with a fresh clock reading.
   */
  function Persist(db: Db, u: UserRecord): (out: (UserRecord, Db))
    requires u.id.None? || u.id.value in db.table
    ensures out.0.id.Some? && out.1.table == db.table[out.0.id.value := out.0]
    ensures u.id.None? ==> out.0 == u.(id := Some(db.nextId)) && out.1.order == db.order + [db.nextId]
    ensures u.id.None? ==> out.1.nextId == db.nextId + 1 && out.1.ticks == db.ticks
    ensures u.id.Some? ==> out.0.id == u.id && out.1.order == db.order && out.1.nextId == db.nextId
    ensures u.id.Some? ==> out.1.ticks == db.ticks + 1 && out.0 == Touch(u, out.1.ticks)
    ensures Key(out.0, Username) == u.username && Key(out.0, Email) == u.email && out.0.createdAt == u.createdAt
  {
    match u.id
    case None =>
      var saved := u.(id := Some(db.nextId));
      (saved, db.(table := db.table[db.nextId := saved], order := db.order + [db.nextId], nextId := db.nextId + 1))
    case Some(k) =>
      var saved := Touch(u, db.ticks + 1);
      (saved, db.(table := db.table[k := saved], ticks := db.ticks + 1))
  }

  /** delete: the record under `id`, if any, is gone; nothing else changes. */
  function Erase(db: Db, id: int): (db': Db)
    ensures db'.table.Keys == db.table.Keys - {id}
    ensures forall k :: k in db'.table ==> db'.table[k] == db.table[k]
    ensures forall k :: k in db'.order <==> k in db.order && k != id
    ensures db'.nextId == db.nextId && db'.ticks == db.ticks
  {
    db.(table := db.table - {id}, order := Without(db.order, id))
  }

  /**
   * find-by-field agrees with findAll: it finds nothing exactly when no entry
   * of findAll holds the value, and otherwise the first such entry.
   */
  lemma FindByIsFirstListed(db: Db, f: Field, v: string)
    requires WellFormed(db)
    ensures FindBy(db, f, v).None? <==> forall i :: 0 <= i < |FindAll(db)| ==> Key(FindAll(db)[i], f) != v
    ensures FindBy(db, f, v).Some? ==>
              exists i :: 0 <= i < |FindAll(db)| && FindAll(db)[i] == FindBy(db, f, v).value
                          && forall j :: 0 <= j < i ==> Key(FindAll(db)[j], f) != v
  {
    var users := FindAll(db);
    assert forall i :: 0 <= i < |users| ==> users[i] == db.table[db.order[i]];
  }

  /** A sequence in ascending order has as many distinct elements as entries. */
  lemma {:induction false} IncreasingCard(s: seq<int>)
    requires Increasing(s)
    ensures |set x | x in s| == |s|
  {
    if s != [] {
      IncreasingCard(s[1..]);
      assert (set x | x in s) == {s[0]} + (set x | x in s[1..]);
      assert s[0] !in (set x | x in s[1..]);
    }
  }

  /**
   * findAll lists every stored record exactly once: as many entries as
   * stored ids, each entry a stored record, every stored record present, and
   * ids ascending.
   */
  lemma FindAllIsTable(db: Db)
    requires WellFormed(db)
    ensures |FindAll(db)| == |db.table|
    ensures forall r :: r in FindAll(db) <==> r in db.table.Values
    ensures forall i :: 0 <= i < |FindAll(db)| ==> FindAll(db)[i].id == Some(db.order[i])
    ensures forall i, j :: 0 <= i < j < |FindAll(db)| ==> db.order[i] < db.order[j]
  {
    var users := FindAll(db);
    IncreasingCard(db.order);
    forall x | x in db.table.Keys ensures x in (set y | y in db.order) {
      assert x in db.order;
    }
    assert (set x | x in db.order) == db.table.Keys;
    forall r | r in db.table.Values ensures r in users {
      var id :| id in db.table && db.table[id] == r;
      var i :| 0 <= i < |db.order| && db.order[i] == id;
      assert users[i] == r;
    }
  }

  /** Saving keeps the store's invariant. */
  lemma PersistKeepsWellFormed(db: Db, u: UserRecord)
    requires WellFormed(db)
    requires u.id.None? || u.id.value in db.table
    requires Stamped(u, db.ticks)
    ensures WellFormed(Persist(db, u).1)
  {
  }

  /** Deleting keeps the store's invariant. */
  lemma EraseKeepsWellFormed(db: Db, id: int)
    requires WellFormed(db)
    ensures WellFormed(Erase(db, id))
  {
    var db' := Erase(db, id);
    forall i | 0 <= i < |db'.order| ensures db'.order[i] in db'.table {
      assert db'.order[i] in db'.order;
    }
  }

  /** After a save, the saved record is what a find by its id returns. */
  lemma SaveThenFind(db: Db, u: UserRecord)
    requires u.id.None? || u.id.value in db.table
    ensures Persist(db, u).0.id.Some?
    ensures FindById(Persist(db, u).1, Persist(db, u).0.id.value) == Some(Persist(db, u).0)
  {
  }

  /**
   * The mutable store. Its fields are the snapshot's components; the clock
   * is shared with whoever constructs users.
   */
  class RecordStore {
    const clock: Clock
    var table: map<int, UserRecord>
    var order: seq<int>
    var nextId: int

    constructor (clock: Clock)
      ensures this.clock == clock
      ensures table == map[] && order == [] && nextId == 1
      ensures Valid()
    {
      this.clock := clock;
      table, order, nextId := map[], [], 1;
    }

    function Snapshot(): Db
      reads this, clock
    {
      Db(table, order, nextId, clock.ticks)
    }

    ghost predicate Valid()
      reads this, clock
    {
      WellFormed(Snapshot())
    }

    /** save, in place. */
    method Save(u: UserRecord) returns (saved: UserRecord)
      requires Valid()
      requires u.id.None? || u.id.value in table
      requires Stamped(u, clock.ticks)
      modifies this, clock
      ensures Valid()
      ensures (saved, Snapshot()) == Persist(old(Snapshot()), u)
    {
      PersistKeepsWellFormed(Snapshot(), u);
      match u.id {
        case None =>
          saved := u.(id := Some(nextId));
          table := table[nextId := saved];
          order := order + [nextId];
          nextId := nextId + 1;
        case Some(k) =>
          var now := clock.Now();
          saved := Touch(u, now);
          table := table[k := saved];
      }
    }

    /** delete, in place. */
    method Delete(id: int)
      requires Valid()
      modifies this
      ensures Valid()
      ensures Snapshot() == Erase(old(Snapshot()), id)
    {
      EraseKeepsWellFormed(Snapshot(), id);
      table := table - {id};
      order := Without(order, id);
    }
  }
}
