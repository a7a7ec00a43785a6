/**
 * The `/bottles` handlers. The caller is the id of the user the bearer token
 * resolved to; every handler receives an existing user.
 */
module BottleRoutes {
  import opened Outcomes
  import opened Models
  import opened Schemas
  import opened LogTable
  import opened Store

  /** Query-parameter defaults of the list handler. */
  const DefaultLimit: int := 10
  const DefaultOffset: int := 0
  const DefaultSearch: string := ""

  /** The column `search` is matched against. */
  function Brand(b: BottleCreate): string
  {
    b.brand
  }

  /** A bottle response for each row, in order, with the caller's summary. */
  function Views(rs: seq<Row<BottleCreate>>, owner: User): (out: seq<BottleOut>)
    ensures |out| == |rs| && forall k :: 0 <= k < |rs| ==> out[k] == BottleView(rs[k], owner)
  {
    if rs == [] then [] else [BottleView(rs[0], owner)] + Views(rs[1..], owner)
  }

  /**
   * `get_bottles`: the caller's bottles whose brand contains `search`, after
   * skipping `offset` of them, at most `limit`, each with its owner summary.
   */
  ghost function GetBottles(db: Database, caller: int, limit: int := DefaultLimit,
                            offset: int := DefaultOffset, search: string := DefaultSearch)
    : (r: Outcome<seq<BottleOut>>)
    reads db, db.bottles, db.diapers
    requires db.Valid() && caller in db.users
    ensures r.Ok? || r.ServerFault?
    ensures r.ServerFault? <==>
      limit < 0 || offset < 0 || limit >= BigintBound || offset >= BigintBound || !FitsText(search)
  {
    if limit < 0 || offset < 0 || limit >= BigintBound || offset >= BigintBound || !FitsText(search) then ServerFault
    else Ok(Views(List(db.bottles.rows, caller, Brand, limit, offset, search).value, db.users[caller]))
  }

  /** Every listed bottle is one of the caller's stored bottles whose brand contains `search`. */
  lemma GetBottlesSound(db: Database, caller: int, limit: int, offset: int, search: string)
    requires db.Valid() && caller in db.users
    ensures var r := GetBottles(db, caller, limit, offset, search);
      r.Ok? ==> forall o :: o in r.value ==>
        o.parentId == caller && o.parent == Summary(db.users[caller]) && Contains(o.brand, search) &&
        o.id in db.bottles.rows && o == BottleView(db.bottles.rows[o.id], db.users[caller])
  {
    var rows := db.bottles.rows;
    if 0 <= limit < BigintBound && 0 <= offset < BigintBound && FitsText(search) {
      var rs := List(rows, caller, Brand, limit, offset, search).value;
      var out := Views(rs, db.users[caller]);
      assert GetBottles(db, caller, limit, offset, search) == Ok(out);
      ListSound(rows, caller, Brand, limit, offset, search);
      forall o | o in out
        ensures o.parentId == caller && o.parent == Summary(db.users[caller]) && Contains(o.brand, search) &&
                o.id in rows && o == BottleView(rows[o.id], db.users[caller])
      {
        var k :| 0 <= k < |out| && out[k] == o;
        assert rs[k] in rs;
      }
    }
  }

  /**
   * The listing holds min(limit, N - offset) of the N bottles that pass the
   * owner and brand filters, in ascending id order.
   */
  lemma GetBottlesSize(db: Database, caller: int, limit: int, offset: int, search: string)
    requires db.Valid() && caller in db.users
    ensures var r := GetBottles(db, caller, limit, offset, search);
      var n := |MatchIds(db.bottles.rows, caller, Brand, search)|;
      r.Ok? ==>
        |r.value| <= limit &&
        |r.value| == (if offset >= n then 0 else if n - offset < limit then n - offset else limit) &&
        forall a, b :: 0 <= a < b < |r.value| ==> r.value[a].id < r.value[b].id
  {
    var rows := db.bottles.rows;
    if 0 <= limit < BigintBound && 0 <= offset < BigintBound && FitsText(search) {
      var rs := List(rows, caller, Brand, limit, offset, search).value;
      var out := Views(rs, db.users[caller]);
      assert GetBottles(db, caller, limit, offset, search) == Ok(out);
      ListSize(rows, caller, Brand, limit, offset, search);
      ListOrdered(rows, caller, Brand, limit, offset, search);
      forall a, b | 0 <= a < b < |out| ensures out[a].id < out[b].id {
        assert out[a].id == rs[a].id && out[b].id == rs[b].id;
      }
    }
  }

  /** With the defaults, listing never fails, returns at most 10 rows and filters by owner only. */
  lemma DefaultListing(db: Database, caller: int)
    requires db.Valid() && caller in db.users
    ensures var r := GetBottles(db, caller);
      var n := |OwnedIds(db.bottles.rows, caller)|;
      r.Ok? && |r.value| == (if n < 10 then n else 10)
  {
    EmptySearchSelectsOwned(db.bottles.rows, caller, Brand);
    GetBottlesSize(db, caller, DefaultLimit, DefaultOffset, DefaultSearch);
  }

  /**
   * `get_bottle`: an unknown id is NotFound whoever asks; a bottle of another
   * user is NotAuthorized; otherwise the stored bottle with its owner summary.
   */
  function GetBottle(db: Database, caller: int, id: int): (r: Outcome<BottleOut>)
    reads db, db.bottles, db.diapers
    requires db.Valid() && caller in db.users
    ensures !r.ServerFault?
    ensures r.NotFound? <==> id !in db.bottles.rows
    ensures r.NotAuthorized? <==> id in db.bottles.rows && db.bottles.rows[id].parentId != caller
    ensures r.Ok? ==> r.value.parentId == caller && r.value.id == id &&
                      r.value == BottleView(db.bottles.rows[id], db.users[caller])
  {
    var found := Lookup(db.bottles.rows, caller, id);
    if found.Ok? then Ok(BottleView(found.value, db.users[caller])) else found.Propagate()
  }

  /**
   * `create_bottle`: inserts one bottle owned by the caller, whatever the body
   * says, with the body's brand, amount and notes and the next id of the
   * sequence; the other rows are untouched, and fetching the new id gives back
   * what was returned. A body the database cannot store (an amount outside the
   * `Integer` range, text holding U+0000) makes the insert fail: a server
   * fault, and nothing is stored.
   */
  method CreateBottle(db: Database, caller: int, bottle: BottleCreate, now: Stamp) returns (r: Outcome<BottleOut>)
    requires db.Valid() && caller in db.users
    modifies db.bottles
    ensures db.Valid()
    ensures r.Ok? || r.ServerFault?
    ensures r.ServerFault? <==> !BottleFits(bottle)
    ensures r.ServerFault? ==> db.bottles.rows == old(db.bottles.rows) && db.bottles.nextId == old(db.bottles.nextId)
    ensures r.Ok? ==> r.value.id == old(db.bottles.nextId) && db.bottles.nextId == old(db.bottles.nextId) + 1
    ensures r.Ok? ==> r.value.id !in old(db.bottles.rows)
    ensures r.Ok? ==> r.value.parentId == caller && r.value.brand == bottle.brand &&
                      r.value.amount == bottle.amount && r.value.notes == bottle.notes &&
                      r.value.createdOn == now.createdOn
    ensures r.Ok? ==> db.bottles.rows == old(db.bottles.rows)[r.value.id := Row(r.value.id, caller, bottle, now)]
    ensures r.Ok? ==> GetBottle(db, caller, r.value.id) == r
  {
    if !BottleFits(bottle) {
      r := ServerFault;
    } else {
      var row := db.bottles.Insert(caller, bottle, now);
      r := Ok(BottleView(row, db.users[caller]));
    }
  }

  /**
   * `edit_bottle`: after the existence and then the ownership check, replaces
   * brand, amount and notes (an omitted notes becomes None) and keeps id, owner
   * and timestamps; returns what fetching the bottle now gives. A failed check
   * leaves the table unchanged, and so does a body the database cannot store,
   * which makes the update fail with a server fault. The sequence never moves.
   */
  method EditBottle(db: Database, caller: int, id: int, updated: BottleCreate) returns (r: Outcome<BottleOut>)
    requires db.Valid() && caller in db.users
    modifies db.bottles
    ensures db.Valid()
    ensures db.bottles.nextId == old(db.bottles.nextId)
    ensures r.NotFound? <==> id !in old(db.bottles.rows)
    ensures r.NotAuthorized? <==> id in old(db.bottles.rows) && old(db.bottles.rows)[id].parentId != caller
    ensures r.ServerFault? <==> Lookup(old(db.bottles.rows), caller, id).Ok? && !BottleFits(updated)
    ensures r.Ok? ==> db.bottles.rows == old(db.bottles.rows)[id := old(db.bottles.rows)[id].(payload := updated)]
    ensures r.Ok? ==> r == GetBottle(db, caller, id)
    ensures !r.Ok? ==> db.bottles.rows == old(db.bottles.rows)
  {
    if Lookup(db.bottles.rows, caller, id).Ok? && !BottleFits(updated) {
      r := ServerFault;
    } else {
      var u := db.bottles.Update(caller, id, updated);
      if u.Ok? {
        r := Ok(BottleView(u.value, db.users[caller]));
      } else {
        r := u.Propagate();
      }
    }
  }

  /**
   * The outcome `delete_bottle` produces as written. For an unknown id it means
   * to raise a 404, but it passes the status to the exception under a misspelt
   * keyword, so constructing the exception raises a TypeError instead.
   */
  function DeleteOutcomeAsWritten(rows: map<int, Row<BottleCreate>>, caller: int, id: int): (r: Outcome<()>)
    ensures r.ServerFault? <==> id !in rows
    ensures r.NotAuthorized? <==> id in rows && rows[id].parentId != caller
    ensures r.Ok? <==> Lookup(rows, caller, id).Ok?
    ensures !r.NotFound?
  {
    if id !in rows then ServerFault
    else if rows[id].parentId != caller then NotAuthorized
    else Ok(())
  }

  /** An input that shows it: deleting bottle 1 from an empty table faults, where NotFound was meant. */
  lemma DeleteOfMissingBottleFaults()
    ensures var none: map<int, Row<BottleCreate>> := map[];
      DeleteOutcomeAsWritten(none, 7, 1) == ServerFault && Lookup(none, 7, 1).NotFound?
  {
  }

  /** `delete_bottle` as written: a missing id is a server fault and changes nothing. */
  method DeleteBottleAsWritten(db: Database, caller: int, id: int) returns (r: Outcome<()>)
    requires db.Valid() && caller in db.users
    modifies db.bottles
    ensures db.Valid()
    ensures r == DeleteOutcomeAsWritten(old(db.bottles.rows), caller, id)
    ensures db.bottles.nextId == old(db.bottles.nextId)
    ensures r.Ok? ==> db.bottles.rows == old(db.bottles.rows) - {id}
    ensures !r.Ok? ==> db.bottles.rows == old(db.bottles.rows)
  {
    if id !in db.bottles.rows {
      r := ServerFault;
    } else {
      r := db.bottles.Delete(caller, id);
    }
  }

  /**
   * `delete_bottle` as intended: an unknown id is NotFound whoever asks, a bottle
   * of another user is NotAuthorized and stays, and an owned bottle is removed
   * with no other row touched, so fetching it afterwards is NotFound.
   */
  method DeleteBottle(db: Database, caller: int, id: int) returns (r: Outcome<()>)
    requires db.Valid() && caller in db.users
    modifies db.bottles
    ensures db.Valid()
    ensures db.bottles.nextId == old(db.bottles.nextId)
    ensures !r.ServerFault?
    ensures r.NotFound? <==> id !in old(db.bottles.rows)
    ensures r.NotAuthorized? <==> id in old(db.bottles.rows) && old(db.bottles.rows)[id].parentId != caller
    ensures r.Ok? ==> db.bottles.rows == old(db.bottles.rows) - {id} && GetBottle(db, caller, id).NotFound?
    ensures !r.Ok? ==> db.bottles.rows == old(db.bottles.rows)
  {
    r := db.bottles.Delete(caller, id);
  }
}
