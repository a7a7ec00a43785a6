/**
 * The database the handlers share: the `users` table and the two log tables.
 * Its invariant is the schema's: primary keys, the unique e-mail, and the
 * `parent_id -> users.id` foreign key of every log row, which `ON DELETE
 * CASCADE` keeps when a user goes away.
 */
module Store {
  import opened Outcomes
  import opened Models
  import opened Schemas
  import opened LogTable

  class Database {
    var users: map<int, User>
    var nextUserId: int
    const bottles: Table<BottleCreate>
    const diapers: Table<DiaperCreate>

    ghost predicate Valid()
      reads this, bottles, diapers
    {
      (bottles as object) != (diapers as object) &&
      bottles.Valid() && diapers.Valid() &&
      1 <= nextUserId && UsersKeyed(users) && UniqueEmails(users) &&
      (forall id :: id in users ==> 1 <= id < nextUserId) &&
      OwnersExist(bottles.rows, users) && OwnersExist(diapers.rows, users)
    }

    constructor ()
      ensures Valid() && fresh(bottles) && fresh(diapers)
      ensures users == map[] && bottles.rows == map[] && diapers.rows == map[]
    {
      users := map[];
      nextUserId := 1;
      bottles := new Table<BottleCreate>();
      diapers := new Table<DiaperCreate>();
    }

    /**
     * Inserting a `users` row. The id default draws the next value of the
     * sequence before the row is checked, so every attempt advances it. The
     * unique constraint on `email` then refuses an address some user already
     * holds, and no row changes; otherwise the new user gets the drawn id and
     * nothing else changes.
     */
    method AddUser(email: string, password: string, createdOn: int) returns (r: Option<User>)
      requires Valid()
      modifies this
      ensures Valid()
      ensures nextUserId == old(nextUserId) + 1
      ensures r.None? <==> EmailTaken(old(users), email)
      ensures r.None? ==> users == old(users)
      ensures r.Some? ==> r.value == User(old(nextUserId), email, password, createdOn) &&
                          r.value.id !in old(users) && users == old(users)[r.value.id := r.value]
    {
      var id := nextUserId;
      nextUserId := nextUserId + 1;
      if EmailTaken(users, email) {
        r := None;
      } else {
        var u := User(id, email, password, createdOn);
        users := users[id := u];
        r := Some(u);
      }
    }

    /**
     * Deleting a `users` row: the cascade removes every bottle and diaper row the
     * user owned, and only those, so the foreign key still holds.
     */
    method DeleteUser(uid: int)
      requires Valid()
      modifies this, bottles, diapers
      ensures Valid()
      ensures users == old(users) - {uid}
      ensures nextUserId == old(nextUserId)
      ensures bottles.nextId == old(bottles.nextId) && diapers.nextId == old(diapers.nextId)
      ensures bottles.rows == map id | id in old(bottles.rows) && old(bottles.rows)[id].parentId != uid :: old(bottles.rows)[id]
      ensures diapers.rows == map id | id in old(diapers.rows) && old(diapers.rows)[id].parentId != uid :: old(diapers.rows)[id]
    {
      bottles.RemoveOwnedBy(uid);
      diapers.RemoveOwnedBy(uid);
      users := users - {uid};
    }
  }

  /** After a user is deleted, no log row of that user is left to list or fetch. */
  lemma CascadeLeavesNothingOwned<P>(rows: map<int, Row<P>>, uid: int)
    ensures var kept := map id | id in rows && rows[id].parentId != uid :: rows[id];
      OwnedIds(kept, uid) == {} &&
      forall id :: id in rows && rows[id].parentId != uid ==> id in kept && kept[id] == rows[id]
  {
  }
}
