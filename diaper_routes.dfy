/**
 * The `/diapers` handlers: the bottle handlers' procedure over diaper rows,
 * searching `soil_type`. Unlike the bottle delete, the diaper delete raises its
 * 404 correctly. The caller is an existing user.
 */
module DiaperRoutes {
  import opened Outcomes
  import opened Models
  import opened Schemas
  import opened LogTable
  import opened Store

  /** Query-parameter defaults of the list handler. */
  const DefaultLimit: int := 10
  const DefaultOffset: int := 0
  const DefaultSearch: string := ""

  /** The column `search` is matched against. */
  function SoilType(d: DiaperCreate): string
  {
    d.soilType
  }

  /** A diaper response for each row, in order, with the caller's summary. */
  function Views(rs: seq<Row<DiaperCreate>>, owner: User): (out: seq<DiaperOut>)
    ensures |out| == |rs| && forall k :: 0 <= k < |rs| ==> out[k] == DiaperView(rs[k], owner)
  {
    if rs == [] then [] else [DiaperView(rs[0], owner)] + Views(rs[1..], owner)
  }

  /**
   * `get_diapers`: the caller's diapers whose soil type contains `search`, after
   * skipping `offset` of them, at most `limit`, each with its owner summary.
   */
  ghost function GetDiapers(db: Database, caller: int, limit: int := DefaultLimit,
                            offset: int := DefaultOffset, search: string := DefaultSearch)
    : (r: Outcome<seq<DiaperOut>>)
    reads db, db.bottles, db.diapers
    requires db.Valid() && caller in db.users
    ensures r.Ok? || r.ServerFault?
    ensures r.ServerFault? <==>
      limit < 0 || offset < 0 || limit >= BigintBound || offset >= BigintBound || !FitsText(search)
  {
    if limit < 0 || offset < 0 || limit >= BigintBound || offset >= BigintBound || !FitsText(search) then ServerFault
    else Ok(Views(List(db.diapers.rows, caller, SoilType, limit, offset, search).value, db.users[caller]))
  }

  /** Every listed diaper is one of the caller's stored diapers whose soil type contains `search`. */
  lemma GetDiapersSound(db: Database, caller: int, limit: int, offset: int, search: string)
    requires db.Valid() && caller in db.users
    ensures var r := GetDiapers(db, caller, limit, offset, search);
      r.Ok? ==> forall o :: o in r.value ==>
        o.parentId == caller && o.parent == Summary(db.users[caller]) && Contains(o.soilType, search) &&
        o.id in db.diapers.rows && o == DiaperView(db.diapers.rows[o.id], db.users[caller])
  {
    var rows := db.diapers.rows;
    if 0 <= limit < BigintBound && 0 <= offset < BigintBound && FitsText(search) {
      var rs := List(rows, caller, SoilType, limit, offset, search).value;
      var out := Views(rs, db.users[caller]);
      assert GetDiapers(db, caller, limit, offset, search) == Ok(out);
      ListSound(rows, caller, SoilType, limit, offset, search);
      forall o | o in out
        ensures o.parentId == caller && o.parent == Summary(db.users[caller]) && Contains(o.soilType, search) &&
                o.id in rows && o == DiaperView(rows[o.id], db.users[caller])
      {
        var k :| 0 <= k < |out| && out[k] == o;
        assert rs[k] in rs;
      }
    }
  }

  /**
   * The listing holds min(limit, N - offset) of the N diapers that pass the
   * owner and soil-type filters, in ascending id order.
   */
  lemma GetDiapersSize(db: Database, caller: int, limit: int, offset: int, search: string)
    requires db.Valid() && caller in db.users
    ensures var r := GetDiapers(db, caller, limit, offset, search);
      var n := |MatchIds(db.diapers.rows, caller, SoilType, search)|;
      r.Ok? ==>
        |r.value| <= limit &&
        |r.value| == (if offset >= n then 0 else if n - offset < limit then n - offset else limit) &&
        forall a, b :: 0 <= a < b < |r.value| ==> r.value[a].id < r.value[b].id
  {
    var rows := db.diapers.rows;
    if 0 <= limit < BigintBound && 0 <= offset < BigintBound && FitsText(search) {
      var rs := List(rows, caller, SoilType, limit, offset, search).value;
      var out := Views(rs, db.users[caller]);
      assert GetDiapers(db, caller, limit, offset, search) == Ok(out);
      ListSize(rows, caller, SoilType, limit, offset, search);
      ListOrdered(rows, caller, SoilType, limit, offset, search);
      forall a, b | 0 <= a < b < |out| ensures out[a].id < out[b].id {
        assert out[a].id == rs[a].id && out[b].id == rs[b].id;
      }
    }
  }

  /** With the defaults, listing never fails, returns at most 10 rows and filters by owner only. */
  lemma DefaultListing(db: Database, caller: int)
    requires db.Valid() && caller in db.users
    ensures var r := GetDiapers(db, caller);
      var n := |OwnedIds(db.diapers.rows, caller)|;
      r.Ok? && |r.value| == (if n < 10 then n else 10)
  {
    EmptySearchSelectsOwned(db.diapers.rows, caller, SoilType);
    GetDiapersSize(db, caller, DefaultLimit, DefaultOffset, DefaultSearch);
  }

  /**
   * `get_diaper_by_id`: an unknown id is NotFound whoever asks; a diaper of
   * another user is NotAuthorized; otherwise the stored diaper with its owner summary.
   */
  function GetDiaperById(db: Database, caller: int, id: int): (r: Outcome<DiaperOut>)
    reads db, db.bottles, db.diapers
    requires db.Valid() && caller in db.users
    ensures !r.ServerFault?
    ensures r.NotFound? <==> id !in db.diapers.rows
    ensures r.NotAuthorized? <==> id in db.diapers.rows && db.diapers.rows[id].parentId != caller
    ensures r.Ok? ==> r.value.parentId == caller && r.value.id == id &&
                      r.value == DiaperView(db.diapers.rows[id], db.users[caller])
  {
    var found := Lookup(db.diapers.rows, caller, id);
    if found.Ok? then Ok(DiaperView(found.value, db.users[caller])) else found.Propagate()
  }

  /**
   * `create_diaper`: inserts one diaper owned by the caller, whatever the body
   * says, with the body's soil type and notes and the next id of the sequence;
   * the other rows are untouched, and fetching the new id gives back what was
   * returned. Text holding U+0000 cannot be sent: a server fault, and nothing
   * is stored.
   */
  method CreateDiaper(db: Database, caller: int, diaper: DiaperCreate, now: Stamp) returns (r: Outcome<DiaperOut>)
    requires db.Valid() && caller in db.users
    modifies db.diapers
    ensures db.Valid()
    ensures r.Ok? || r.ServerFault?
    ensures r.ServerFault? <==> !DiaperFits(diaper)
    ensures r.ServerFault? ==> db.diapers.rows == old(db.diapers.rows) && db.diapers.nextId == old(db.diapers.nextId)
    ensures r.Ok? ==> r.value.id == old(db.diapers.nextId) && db.diapers.nextId == old(db.diapers.nextId) + 1
    ensures r.Ok? ==> r.value.id !in old(db.diapers.rows)
    ensures r.Ok? ==> r.value.parentId == caller && r.value.soilType == diaper.soilType &&
                      r.value.notes == diaper.notes && r.value.createdOn == now.createdOn
    ensures r.Ok? ==> db.diapers.rows == old(db.diapers.rows)[r.value.id := Row(r.value.id, caller, diaper, now)]
    ensures r.Ok? ==> GetDiaperById(db, caller, r.value.id) == r
  {
    if !DiaperFits(diaper) {
      r := ServerFault;
    } else {
      var row := db.diapers.Insert(caller, diaper, now);
      r := Ok(DiaperView(row, db.users[caller]));
    }
  }

  /**
   * `edit_diaper`: after the existence and then the ownership check, replaces
   * soil type and notes (an omitted notes becomes None) and keeps id, owner and
   * timestamps; returns what fetching the diaper now gives. A failed check
   * leaves the table unchanged, and so does text holding U+0000, which makes
   * the update fail with a server fault. The sequence never moves.
   */
  method EditDiaper(db: Database, caller: int, id: int, updated: DiaperCreate) returns (r: Outcome<DiaperOut>)
    requires db.Valid() && caller in db.users
    modifies db.diapers
    ensures db.Valid()
    ensures db.diapers.nextId == old(db.diapers.nextId)
    ensures r.NotFound? <==> id !in old(db.diapers.rows)
    ensures r.NotAuthorized? <==> id in old(db.diapers.rows) && old(db.diapers.rows)[id].parentId != caller
    ensures r.ServerFault? <==> Lookup(old(db.diapers.rows), caller, id).Ok? && !DiaperFits(updated)
    ensures r.Ok? ==> db.diapers.rows == old(db.diapers.rows)[id := old(db.diapers.rows)[id].(payload := updated)]
    ensures r.Ok? ==> r == GetDiaperById(db, caller, id)
    ensures !r.Ok? ==> db.diapers.rows == old(db.diapers.rows)
  {
    if Lookup(db.diapers.rows, caller, id).Ok? && !DiaperFits(updated) {
      r := ServerFault;
    } else {
      var u := db.diapers.Update(caller, id, updated);
      if u.Ok? {
        r := Ok(DiaperView(u.value, db.users[caller]));
      } else {
        r := u.Propagate();
      }
    }
  }

  /**
   * `delete_diaper`: an unknown id is NotFound whoever asks, a diaper of another
   * user is NotAuthorized and stays, and an owned diaper is removed with no
   * other row touched, so fetching it afterwards is NotFound.
   */
  method DeleteDiaper(db: Database, caller: int, id: int) returns (r: Outcome<()>)
    requires db.Valid() && caller in db.users
    modifies db.diapers
    ensures db.Valid()
    ensures db.diapers.nextId == old(db.diapers.nextId)
    ensures !r.ServerFault?
    ensures r.NotFound? <==> id !in old(db.diapers.rows)
    ensures r.NotAuthorized? <==> id in old(db.diapers.rows) && old(db.diapers.rows)[id].parentId != caller
    ensures r.Ok? ==> db.diapers.rows == old(db.diapers.rows) - {id} && GetDiaperById(db, caller, id).NotFound?
    ensures !r.Ok? ==> db.diapers.rows == old(db.diapers.rows)
  {
    r := db.diapers.Delete(caller, id);
  }

  /** Deleting the same diaper twice: if the first call succeeds, the second is NotFound. */
  method DeleteDiaperTwice(db: Database, caller: int, id: int) returns (first: Outcome<()>, second: Outcome<()>)
    requires db.Valid() && caller in db.users
    modifies db.diapers
    ensures db.Valid()
    ensures first.Ok? ==> second.NotFound?
    ensures db.diapers.nextId == old(db.diapers.nextId)
    ensures first.Ok? <==> id in old(db.diapers.rows) && old(db.diapers.rows)[id].parentId == caller
  {
    first := DeleteDiaper(db, caller, id);
    second := DeleteDiaper(db, caller, id);
  }
}
