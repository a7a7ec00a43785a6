/**
 * The database rows: the `users` table and the shape shared by the two log tables
 * (`bottles` and `diaper`). A log row is its primary key, the owning user's id,
 * the payload columns of its kind and the three values the server fills in at
 * insertion time. There is no child reference: that column is commented out in
 * the table declarations, so a row cannot carry one.
 */
module Models {

  /** One past the largest value of an `Integer` column, a 32-bit `int4` in PostgreSQL. */
  const Int4Bound: int := 0x8000_0000

  /** `x` can be stored in an `Integer` column; any other value makes the statement fail. */
  predicate FitsInteger(x: int)
  {
    -Int4Bound <= x < Int4Bound
  }

  /** `s` can be sent as a text value: PostgreSQL text cannot hold the character U+0000. */
  predicate FitsText(s: string)
  {
    '\0' !in s
  }

  /**
   * The server-side defaults `now()` fills in when a row is inserted: the `date`
   * and `time` columns and the `created_on` timestamp. The clock is outside the
   * model, so these are opaque numbers passed in by the caller of an insert.
   */
  datatype Stamp = Stamp(date: int, time: int, createdOn: int)

  /** A row of `users`: primary key, unique e-mail, password hash, creation time. */
  datatype User = User(id: int, email: string, password: string, createdOn: int)

  /**
   * A row of a log table whose payload columns are `P`. `parentId` is the
   * non-null `parent_id` foreign key to `users.id`.
   */
  datatype Row<P> = Row(id: int, parentId: int, payload: P, stamp: Stamp)

  /** Every row is stored under its own primary key. */
  ghost predicate WellKeyed<P>(rows: map<int, Row<P>>)
  {
    forall id :: id in rows ==> rows[id].id == id
  }

  /** The foreign key `parent_id -> users.id` holds for every row. */
  ghost predicate OwnersExist<P>(rows: map<int, Row<P>>, users: map<int, User>)
  {
    forall id :: id in rows ==> rows[id].parentId in users
  }

  /** Every user is stored under its own primary key. */
  ghost predicate UsersKeyed(users: map<int, User>)
  {
    forall id :: id in users ==> users[id].id == id
  }

  /** The `unique=True` constraint on `users.email`. */
  ghost predicate UniqueEmails(users: map<int, User>)
  {
    forall a, b :: a in users && b in users && users[a].email == users[b].email ==> a == b
  }

  /** Some user already holds `email`. */
  predicate EmailTaken(users: map<int, User>, email: string)
  {
    exists id | id in users :: users[id].email == email
  }
}
