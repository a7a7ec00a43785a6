# Owner-guarded infant-care logs

A model of the ownership-enforcing core of a small record-keeping API for
infant care. Signed-in parents keep two kinds of log: bottle feedings (`brand`,
`amount`, `notes`) and diaper changes (`soil_type`, `notes`). Each log row
belongs to the user in its `parent_id` column. Each kind has five handlers:

- **list** keeps the caller's rows whose search column contains `search`, skips
  `offset` of them and returns at most `limit`. The defaults are 10, 0 and "".
- **get** checks that the id exists, then that the caller owns it.
- **create** always sets the owner to the caller.
- **update** runs both checks, then replaces only the payload columns.
- **delete** runs both checks, then removes exactly that row.

Layout, one module per file:

- `outcomes.dfy` (`Outcomes`): `Option`, and the `Outcome` a handler produces:
  `Ok`, `NotFound` (404), `NotAuthorized` (the 401 the handlers raise for
  another user's row) or `ServerFault` (an exception escaping the handler, 500).
- `models.dfy` (`Models`): the rows of the `users` table and the shape of a log
  row, plus the schema's invariants: primary keys, the unique e-mail and the
  `parent_id` foreign key. A log row has no child reference, because that column
  is commented out.
- `schemas.dfy` (`Schemas`): the request bodies `BottleCreate` and
  `DiaperCreate`, the responses `BottleOut` and `DiaperOut`, and the owner
  summary `UserOut`. The request bodies have no id, owner or timestamp field, so
  the datatype itself rules out choosing another owner. `notes` defaults to
  `None`. `UserOut` has no password field.
- `log_table.dfy` (`LogTable`): the procedure shared by both log kinds.
  - The read side is pure functions, generic in the payload and in the
    searched column: `List` and `Lookup`.
  - The write side is the class `Table<P>`, holding `rows: map<int, Row<P>>`
    and the primary-key sequence `nextId`. Its methods change the table in
    place.
- `store.dfy` (`Store`): the class `Database`, which holds the users and the
  two tables. Its invariant is the schema's. It also models inserting a user
  under the unique e-mail constraint, and deleting a user with the
  `ON DELETE CASCADE` of `parent_id`.
- `bottle_routes.dfy` (`BottleRoutes`) and `diaper_routes.dfy`
  (`DiaperRoutes`): the ten handlers over a `Database`. The read-only handlers
  are functions. The mutating ones are methods that say exactly what changes in
  the table and what does not.

Modelling decisions:

- **The caller.** The caller is the id of the user the bearer token resolved
  to, so every handler requires an existing user.
- **Timestamps.** The server fills in `date`, `time` and `created_on` with
  `now()`. Here they are a `Stamp` passed to create, and update keeps it.
- **Row order.** The list query has no `ORDER BY`, so the model fixes ascending
  id order.
- **Out-of-range numbers.** `database.py` is not part of this model. The model
  takes the database to be PostgreSQL, whose errors escape the handlers as a
  `ServerFault` with nothing stored or changed:
  - a negative `LIMIT` or `OFFSET`, or one of 2^63 or more (both are `bigint`);
  - a bottle `amount` outside [-2^31, 2^31), the range of the `Integer`
    (`int4`) column, on create or, after both checks pass, on update;
  - any text value holding the character U+0000, which PostgreSQL text cannot
    store and the driver refuses to send: a `search` on list, or a brand, soil
    type or notes on create or, after both checks pass, on update.

Two behaviours of the handlers that are easy to misread:

- A row owned by another user gives 401 (`NotAuthorized`); the handlers raise
  `HTTP_401_UNAUTHORIZED` there.
- `search` is a plain, case-sensitive substring test (`.contains`).

## Model

| member | source | states |
|---|---|---|
| `LogTable.List` | app/routes/bottle.py:39-46 | the list query fails exactly when `limit` or `offset` is negative or at least 2^63, or `search` holds U+0000 (the database or driver refuses it), and otherwise succeeds |
| `LogTable.ListIsSlice` | app/routes/bottle.py:43-44 | the k-th row list returns is the (offset + k)-th matching row, in the fixed order |
| `LogTable.ListSound` | app/routes/bottle.py:39-42 | every row list returns has `parent_id` equal to the caller, its search column contains `search`, and it is the row stored under its id |
| `LogTable.ListSize` | app/routes/bottle.py:43-44 | list skips `offset` matching rows and returns at most `limit`: exactly min(limit, N - offset) of the N matching rows |
| `LogTable.ListComplete` | app/routes/bottle.py:39-45 | with offset 0 and a limit of at least N, list succeeds exactly when the limit is below 2^63 and `search` holds no U+0000, and then every row of the caller whose column contains `search` is returned |
| `LogTable.ListOrdered` | app/routes/bottle.py:39-46 | the rows come in strictly ascending id order, so none is returned twice |
| `LogTable.ListPagesCompose` | app/routes/bottle.py:43-44 | when all three calls succeed (offsets and limits below 2^63, `search` without U+0000), `a` rows at `offset` followed by `b` rows at `offset + a` are the `a + b` rows at `offset` |
| `LogTable.PagesCompose` | app/routes/bottle.py:43-44 | the same fact for OFFSET/LIMIT paging of any sequence |
| `LogTable.EmptySearchSelectsOwned` | app/routes/bottle.py:16 | the default search "" filters nothing: the selected rows are exactly the caller's |
| `LogTable.EmptyPatternEverywhere` | app/routes/bottle.py:42 | every text contains the empty search string |
| `LogTable.MatchingExact` | app/routes/bottle.py:39-42 | the rows passing both filters, in id order, are each stored row with a matching id exactly once |
| `LogTable.MatchingIds` | app/routes/bottle.py:39-42 | the ids of the rows passing both filters are exactly the caller's ids whose column contains `search` |
| `LogTable.SortedIdsExact` | app/routes/bottle.py:39-46 | the fixed row order lists every id of the table once, ascending |
| `LogTable.VisibleSound` | app/routes/diaper.py:19-22 | the owner and search filters keep only the caller's matching rows, as stored |
| `LogTable.VisibleComplete` | app/routes/diaper.py:19-22 | the owner and search filters drop no row of the caller whose column contains `search` |
| `LogTable.Lookup` | app/routes/bottle.py:61-73 | a missing id gives NotFound whoever asks; an existing row of another owner gives NotAuthorized; otherwise the stored row; never a fault |
| `LogTable.LookupAgreesWithList` | app/routes/bottle.py:39-75 | get succeeds on an id exactly when a default-search listing of all the caller's rows shows it |
| `LogTable.RemovedIsNotFound` | app/routes/diaper.py:108-127 | once a row is removed, a by-id request for it is NotFound for every caller |
| `LogTable.Table.Insert` | app/routes/bottle.py:84-88 | adds exactly one row under a fresh id from the sequence, owned by the given user, with the payload and stamp given; other rows unchanged |
| `LogTable.Table.Update` | app/routes/bottle.py:98-118 | on an owned row replaces only the payload, keeping id, owner and stamp, and returns the new row; on a failed check returns that failure and changes nothing |
| `LogTable.Table.Delete` | app/routes/diaper.py:108-127 | on an owned row removes that id and nothing else; on a failed check returns that failure and changes nothing |
| `LogTable.Table.RemoveOwnedBy` | app/models.py:25-27 | the cascade: removes exactly the rows owned by the user and keeps the rest unchanged |
| `Store.Database.AddUser` | app/models.py:65-72 | every attempt draws the next id, so the user sequence advances by one even on refusal and never reissues an id; an e-mail some user already holds is refused with the users unchanged; otherwise one user under the drawn id is added, so e-mails stay unique |
| `Store.Database.DeleteUser` | app/models.py:46-48 | removes the user and, by cascade, exactly that user's bottle and diaper rows, so every remaining row's owner still exists; the id sequences keep their values |
| `Store.CascadeLeavesNothingOwned` | app/models.py:26 | after the cascade the deleted user owns no row, and every other row is kept as it was |
| `Schemas.SummaryHidesPassword` | app/schemas.py:11-14 | the owner summary is the same whatever the password, so the password is never shown |
| `Schemas.BottleViewShowsPayload` | app/schemas.py:52-56 | a bottle response carries the stored brand, amount and notes, with the row's id and owner and the owner's summary |
| `Schemas.DiaperViewShowsPayload` | app/schemas.py:71-75 | a diaper response carries the stored soil type and notes, with the row's id and owner and the owner's summary |
| `Schemas.NotesDefaultToNone` | app/schemas.py:45 | a bottle or diaper body without `notes` has `notes` None (line 64 for diapers) |
| `BottleRoutes.GetBottles` | app/routes/bottle.py:10-47 | list fails exactly for a limit or offset that is negative or at least 2^63, or a `search` holding U+0000, and otherwise succeeds |
| `BottleRoutes.GetBottlesSound` | app/routes/bottle.py:39-42 | every listed bottle belongs to the caller, carries the caller's summary, has `search` in its brand, and is the stored bottle's response |
| `BottleRoutes.GetBottlesSize` | app/routes/bottle.py:43-44 | the listing has min(limit, N - offset) bottles of the N matching, in ascending id order |
| `BottleRoutes.DefaultListing` | app/routes/bottle.py:14-16 | with the defaults 10, 0 and "" listing succeeds and returns min(10, number of the caller's bottles) rows |
| `BottleRoutes.GetBottle` | app/routes/bottle.py:55-75 | NotFound exactly for a missing id, checked before ownership; NotAuthorized exactly for another user's bottle; otherwise the stored bottle unchanged |
| `BottleRoutes.CreateBottle` | app/routes/bottle.py:79-88 | a server fault exactly when the amount does not fit the `Integer` column or some text holds U+0000, with nothing stored and the sequence unmoved; otherwise one new bottle under the sequence's next id, which then advances by one, owned by the caller, with brand, amount and notes as supplied; other rows unchanged; getting it back returns the same record |
| `BottleRoutes.EditBottle` | app/routes/bottle.py:92-118 | after the two checks, a server fault exactly when the amount does not fit the `Integer` column or some text holds U+0000; otherwise replaces brand, amount and notes and keeps id, owner and timestamps and returns what get then returns; any failure changes nothing; the id sequence never moves |
| `BottleRoutes.DeleteOutcomeAsWritten` | app/routes/bottle.py:128-142 | as written, a missing id is a server fault, never NotFound; another user's bottle is NotAuthorized |
| `BottleRoutes.DeleteOfMissingBottleFaults` | app/routes/bottle.py:132-136 | deleting bottle 1 from an empty table faults as written, where the existence check means NotFound |
| `BottleRoutes.DeleteBottleAsWritten` | app/routes/bottle.py:122-147 | the handler as written: a fault for a missing id, NotAuthorized for another user's bottle, removal of exactly the owned bottle; the table is unchanged on failure; the id sequence never moves |
| `BottleRoutes.DeleteBottle` | app/routes/bottle.py:122-147 | the intended handler: NotFound for a missing id whoever asks, NotAuthorized for another user's bottle, otherwise exactly that bottle removed and then NotFound on get; the id sequence never moves |
| `DiaperRoutes.GetDiapers` | app/routes/diaper.py:10-27 | list fails exactly for a limit or offset that is negative or at least 2^63, or a `search` holding U+0000, and otherwise succeeds |
| `DiaperRoutes.GetDiapersSound` | app/routes/diaper.py:19-22 | every listed diaper belongs to the caller, carries the caller's summary, has `search` in its soil type, and is the stored diaper's response |
| `DiaperRoutes.GetDiapersSize` | app/routes/diaper.py:23-24 | the listing has min(limit, N - offset) diapers of the N matching, in ascending id order |
| `DiaperRoutes.DefaultListing` | app/routes/diaper.py:14-16 | with the defaults 10, 0 and "" listing succeeds and returns min(10, number of the caller's diapers) rows |
| `DiaperRoutes.GetDiaperById` | app/routes/diaper.py:48-68 | NotFound exactly for a missing id, checked before ownership; NotAuthorized exactly for another user's diaper; otherwise the stored diaper |
| `DiaperRoutes.CreateDiaper` | app/routes/diaper.py:31-40 | a server fault exactly when some text holds U+0000, with nothing stored and the sequence unmoved; otherwise one new diaper under the sequence's next id, which then advances by one, owned by the caller, with soil type and notes as supplied; other rows unchanged; getting it back returns the same record |
| `DiaperRoutes.EditDiaper` | app/routes/diaper.py:72-98 | after the two checks, a server fault exactly when some text holds U+0000; otherwise replaces soil type and notes and keeps id, owner and timestamps and returns what get then returns; any failure changes nothing; the id sequence never moves |
| `DiaperRoutes.DeleteDiaper` | app/routes/diaper.py:102-127 | NotFound for a missing id whoever asks, NotAuthorized for another user's diaper, otherwise exactly that diaper removed; the id sequence never moves |
| `DiaperRoutes.DeleteDiaperTwice` | app/routes/diaper.py:108-127 | when a first delete of an id succeeds, a second delete of the same id is NotFound; the id sequence never moves |

## Findings

| source | as written | input that shows it | evidently intended | confidence | as-written member | corrected member |
|---|---|---|---|---|---|---|
| app/routes/bottle.py:133-136 | the 404 for a missing bottle is built with the keyword `statsu_code`; `HTTPException` has no such parameter, so building it raises a TypeError and the request ends in a server error | `DELETE /bottles/1` when no bottle has id 1 | NotFound, as in `get_bottle`, `edit_bottle` and `delete_diaper` | high; not executed | `BottleRoutes.DeleteOutcomeAsWritten` | `BottleRoutes.DeleteBottle` |

## Left out

- Token issuing and verification, and resolving a token to a user: the caller is an id, required to be an existing user.
- Database session mechanics (add, commit, refresh, session synchronisation): each handler is one atomic change to the maps.
- The clock: the `now()` defaults of `date`, `time` and `created_on` are a `Stamp` given to create.
- The `%` and `_` wildcards of SQL `LIKE` inside `search`, its default escape character `\` (so `search` "a\b" matches the brand "ab", not "a\b"), and collation: `Contains` is plain substring containment.
- Text holding a lone surrogate (such as `"\ud800"` in a JSON body), which the driver cannot encode, so the request ends in a server error: a Dafny `char` cannot hold one, so the model has no such input.
- HTTP routing, response serialisation, exact status numbers beyond the outcome kind, and `async` (nothing runs concurrently).
- Application setup, CORS and the root message, which are wiring only.
- The unused `children` table, and the user registration and login routes, which are not part of this model. `Store.Database.AddUser` models only the table's unique e-mail constraint, not the registration route around it.
- `LogTable.Table.Insert`: the primary-key sequence is unbounded; the `serial` sequence behind an `Integer` key stops at 2^31 - 1, after which every insert would fail.
- `LogTable.List`: the real query returns rows in an order the database chooses; the model fixes ascending id order.
- `Store.Database.AddUser`: an e-mail or password holding U+0000 is not refused; the registration route that would send it is not part of this model.
- `BottleRoutes.GetBottles`: a `search` of null, which the query string cannot carry, is not modelled; `search` is always a string.
