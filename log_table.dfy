/**
 * The owner-guarded log table that both `/bottles` and `/diapers` sit on: a map
 * from primary key to row, a primary-key sequence, and the five operations the
 * route handlers perform on it. `P` is the payload (the columns a client
 * supplies); `field` picks the text column that `search` is matched against
 * (`brand` for bottles, `soil_type` for diapers).
 */
module LogTable {
  import opened Outcomes
  import opened Models

  // ---------------------------------------------------------------------------
  // Substring search (`column.contains(search)`, i.e. LIKE '%search%')
  // ---------------------------------------------------------------------------

  /** `pattern` occurs in `text` starting at position `i`. */
  predicate OccursAt(text: string, pattern: string, i: int)
  {
    0 <= i <= |text| - |pattern| && text[i..i + |pattern|] == pattern
  }

  /** `pattern` occurs in `text` as a contiguous run of characters. */
  predicate Contains(text: string, pattern: string)
  {
    exists i | 0 <= i <= |text| :: OccursAt(text, pattern, i)
  }

  /** The default search string "" occurs in every text. */
  lemma EmptyPatternEverywhere(text: string)
    ensures Contains(text, "")
  {
    assert OccursAt(text, "", 0);
  }

  // ---------------------------------------------------------------------------
  // Row order: the list query has no ORDER BY; the model fixes ascending id.
  // ---------------------------------------------------------------------------

  ghost predicate Increasing(s: seq<int>)
  {
    forall i, j :: 0 <= i < j < |s| ==> s[i] < s[j]
  }

  /** A set that is not empty has an element. */
  lemma NonEmptyHasElement(s: set<int>)
    requires s != {}
    ensures exists y :: y in s
  {
    if forall y :: y !in s {
      assert false;
    }
  }

  /** A non-empty set of ids has a least element. */
  lemma {:induction false} LeastExists(s: set<int>)
    requires s != {}
    ensures exists m :: m in s && forall x :: x in s ==> m <= x
  {
    NonEmptyHasElement(s);
    var y :| y in s;
    if s - {y} != {} {
      LeastExists(s - {y});
      var m :| m in s - {y} && forall x :: x in s - {y} ==> m <= x;
      var least := if y < m then y else m;
      forall x | x in s ensures least <= x {
        if x != y {
          assert x in s - {y};
        }
      }
    } else {
      assert forall x :: x in s ==> x == y || x in s - {y};
    }
  }

  /** The least id of a non-empty set. */
  ghost function Least(s: set<int>): (m: int)
    requires s != {}
    ensures m in s && forall x :: x in s ==> m <= x
  {
    LeastExists(s);
    var m :| m in s && forall x :: x in s ==> m <= x; m
  }

  /** The ids of `s` in ascending order; `SortedIdsExact` proves it. */
  ghost function SortedIds(s: set<int>): seq<int>
    decreases |s|
  {
    if s == {} then []
    else
      var m := Least(s);
      [m] + SortedIds(s - {m})
  }

  /** `SortedIds(s)` lists every id of `s`, and nothing else, in strictly ascending order. */
  lemma {:induction false} SortedIdsExact(s: set<int>)
    ensures forall x :: x in SortedIds(s) <==> x in s
    ensures Increasing(SortedIds(s))
    decreases |s|
  {
    if s != {} {
      var m := Least(s);
      var rest := SortedIds(s - {m});
      SortedIdsExact(s - {m});
      assert SortedIds(s) == [m] + rest;
      forall k | 0 <= k < |rest| ensures m < rest[k] {
        assert rest[k] in rest;
      }
      PrependIncreasing(m, rest);
    }
  }

  // ---------------------------------------------------------------------------
  // list: owner filter, search filter, OFFSET, LIMIT
  // ---------------------------------------------------------------------------

  /** The row is the caller's and its search column contains `search`. */
  predicate Selected<P>(row: Row<P>, caller: int, field: P -> string, search: string)
  {
    row.parentId == caller && Contains(field(row.payload), search)
  }

  /** The rows named by `ids`, in that order, that pass both filters of the list query. */
  function Visible<P>(rows: map<int, Row<P>>, ids: seq<int>, caller: int,
                      field: P -> string, search: string): seq<Row<P>>
    requires forall k :: 0 <= k < |ids| ==> ids[k] in rows
    decreases |ids|
  {
    if ids == [] then []
    else
      var row := rows[ids[0]];
      var rest := Visible(rows, ids[1..], caller, field, search);
      if Selected(row, caller, field, search) then [row] + rest else rest
  }

  /** Every row that passes both filters, in ascending id order. */
  ghost function Matching<P>(rows: map<int, Row<P>>, caller: int, field: P -> string, search: string): seq<Row<P>>
  {
    SortedIdsExact(rows.Keys);
    Visible(rows, SortedIds(rows.Keys), caller, field, search)
  }

  /** The ids of the rows that pass both filters: what the list query selects before paging. */
  ghost function MatchIds<P>(rows: map<int, Row<P>>, caller: int, field: P -> string, search: string): set<int>
  {
    set id | id in rows && Selected(rows[id], caller, field, search)
  }

  /** The ids of the caller's rows. */
  ghost function OwnedIds<P>(rows: map<int, Row<P>>, caller: int): set<int>
  {
    set id | id in rows && rows[id].parentId == caller
  }

  /** SQL `OFFSET offset LIMIT limit` on a result `s`. */
  function Page<T>(s: seq<T>, offset: nat, limit: nat): seq<T>
  {
    var rest := if offset < |s| then s[offset..] else [];
    if limit < |rest| then rest[..limit] else rest
  }

  /** One past the largest LIMIT or OFFSET the database accepts: both are `bigint`. */
  const BigintBound: int := 0x8000_0000_0000_0000

  /**
   * `list`: the caller's rows whose search column contains `search`, skipping
   * `offset` of them and returning at most `limit`. The database refuses a
   * negative LIMIT or OFFSET, and one outside `bigint`, and the driver refuses a
   * `search` holding U+0000; either error escapes the handler as a server fault.
   */
  ghost function List<P>(rows: map<int, Row<P>>, caller: int, field: P -> string,
                   limit: int, offset: int, search: string): (r: Outcome<seq<Row<P>>>)
    ensures r.Ok? || r.ServerFault?
    ensures r.ServerFault? <==>
      limit < 0 || offset < 0 || limit >= BigintBound || offset >= BigintBound || !FitsText(search)
  {
    if limit < 0 || offset < 0 || limit >= BigintBound || offset >= BigintBound || !FitsText(search) then ServerFault
    else Ok(Page(Matching(rows, caller, field, search), offset, limit))
  }

  /** The ids of a sequence of rows, in order. */
  function IdsOf<P>(rs: seq<Row<P>>): (r: seq<int>)
    ensures |r| == |rs| && forall k :: 0 <= k < |rs| ==> r[k] == rs[k].id
  {
    if rs == [] then [] else [rs[0].id] + IdsOf(rs[1..])
  }

  /** Filtering keeps only selected rows, each stored under its id and taken from `ids`. */
  lemma {:induction false} VisibleSound<P>(rows: map<int, Row<P>>, ids: seq<int>, caller: int,
                                           field: P -> string, search: string)
    requires WellKeyed(rows)
    requires forall k :: 0 <= k < |ids| ==> ids[k] in rows
    ensures forall row :: row in Visible(rows, ids, caller, field, search) ==>
      Selected(row, caller, field, search) && row.id in ids && row.id in rows && rows[row.id] == row
    decreases |ids|
  {
    if ids != [] {
      VisibleSound(rows, ids[1..], caller, field, search);
      var rest := Visible(rows, ids[1..], caller, field, search);
      forall row | row in Visible(rows, ids, caller, field, search)
        ensures Selected(row, caller, field, search) && row.id in ids && row.id in rows && rows[row.id] == row
      {
        var head := rows[ids[0]];
        assert head.id == ids[0] && ids[0] in ids;
        if row !in rest {
          assert row == head;
        } else {
          assert row.id in ids[1..];
          var j :| 0 <= j < |ids[1..]| && ids[1..][j] == row.id;
          assert ids[j + 1] == row.id;
        }
      }
    }
  }

  /** Filtering misses no selected row named by `ids`. */
  lemma {:induction false} VisibleComplete<P>(rows: map<int, Row<P>>, ids: seq<int>, caller: int,
                                              field: P -> string, search: string)
    requires forall k :: 0 <= k < |ids| ==> ids[k] in rows
    ensures forall i :: i in ids && Selected(rows[i], caller, field, search) ==>
      rows[i] in Visible(rows, ids, caller, field, search)
    decreases |ids|
  {
    if ids != [] {
      VisibleComplete(rows, ids[1..], caller, field, search);
      forall i | i in ids && Selected(rows[i], caller, field, search)
        ensures rows[i] in Visible(rows, ids, caller, field, search)
      {
        if i != ids[0] {
          assert i in ids[1..];
        }
      }
    }
  }

  /** The ids of a row followed by more rows. */
  lemma IdsOfCons<P>(row: Row<P>, rest: seq<Row<P>>)
    ensures IdsOf([row] + rest) == [row.id] + IdsOf(rest)
  {
  }

  /** An id below every element of an increasing sequence can go in front of it. */
  lemma PrependIncreasing(x: int, s: seq<int>)
    requires Increasing(s)
    requires forall k :: 0 <= k < |s| ==> x < s[k]
    ensures Increasing([x] + s)
  {
  }

  /** Filtering an increasing id sequence keeps the ids increasing. */
  lemma {:induction false} VisibleIncreasing<P>(rows: map<int, Row<P>>, ids: seq<int>, caller: int,
                                                field: P -> string, search: string)
    requires WellKeyed(rows)
    requires forall k :: 0 <= k < |ids| ==> ids[k] in rows
    requires Increasing(ids)
    ensures Increasing(IdsOf(Visible(rows, ids, caller, field, search)))
    decreases |ids|
  {
    if ids != [] {
      var tail := ids[1..];
      var rest := Visible(rows, tail, caller, field, search);
      VisibleIncreasing(rows, tail, caller, field, search);
      var row := rows[ids[0]];
      if Selected(row, caller, field, search) {
        VisibleSound(rows, tail, caller, field, search);
        var restIds := IdsOf(rest);
        forall k | 0 <= k < |restIds| ensures ids[0] < restIds[k] {
          assert rest[k] in rest;
          var j :| 0 <= j < |tail| && tail[j] == rest[k].id;
          assert tail[j] == ids[j + 1];
        }
        IdsOfCons(row, rest);
        PrependIncreasing(ids[0], restIds);
      }
    }
  }

  /** An increasing sequence lists as many ids as the set of its elements holds. */
  lemma {:induction false} IncreasingCard(s: seq<int>)
    requires Increasing(s)
    ensures |set x | x in s| == |s|
  {
    if s != [] {
      IncreasingCard(s[1..]);
      var tail := set x | x in s[1..];
      assert s[0] !in tail;
      assert (set x | x in s) == {s[0]} + tail;
    }
  }

  /** The ids of the matching rows are exactly `MatchIds`, and each matching row is the stored one. */
  lemma MatchingIds<P>(rows: map<int, Row<P>>, caller: int, field: P -> string, search: string)
    requires WellKeyed(rows)
    ensures var m := Matching(rows, caller, field, search);
      (set x | x in IdsOf(m)) == MatchIds(rows, caller, field, search) &&
      forall k :: 0 <= k < |m| ==>
        Selected(m[k], caller, field, search) && m[k].id in rows && rows[m[k].id] == m[k]
  {
    var ids := SortedIds(rows.Keys);
    SortedIdsExact(rows.Keys);
    var m := Matching(rows, caller, field, search);
    var ms := IdsOf(m);
    VisibleSound(rows, ids, caller, field, search);
    VisibleComplete(rows, ids, caller, field, search);
    var want := MatchIds(rows, caller, field, search);
    forall id | id in want ensures id in ms {
      assert rows[id] in m;
      var k :| 0 <= k < |m| && m[k] == rows[id];
      assert ms[k] == id;
    }
    forall x | x in ms ensures x in want {
      var k :| 0 <= k < |ms| && ms[k] == x;
      assert m[k] in m;
    }
    forall k | 0 <= k < |m|
      ensures Selected(m[k], caller, field, search) && m[k].id in rows && rows[m[k].id] == m[k]
    {
      assert m[k] in m;
    }
  }

  /** The matching rows are the rows with ids in `MatchIds`, once each and in ascending id order. */
  lemma MatchingExact<P>(rows: map<int, Row<P>>, caller: int, field: P -> string, search: string)
    requires WellKeyed(rows)
    ensures var m := Matching(rows, caller, field, search);
      Increasing(IdsOf(m)) &&
      (set x | x in IdsOf(m)) == MatchIds(rows, caller, field, search) &&
      |m| == |MatchIds(rows, caller, field, search)| &&
      forall k :: 0 <= k < |m| ==>
        Selected(m[k], caller, field, search) && m[k].id in rows && rows[m[k].id] == m[k]
  {
    var m := Matching(rows, caller, field, search);
    SortedIdsExact(rows.Keys);
    VisibleIncreasing(rows, SortedIds(rows.Keys), caller, field, search);
    MatchingIds(rows, caller, field, search);
    IncreasingCard(IdsOf(m));
  }

  /** The page at `offset` holds the rows from `offset` on, at most `limit` of them. */
  lemma PageAt<T>(s: seq<T>, offset: nat, limit: nat)
    ensures var p := Page(s, offset, limit);
      |p| == (if offset >= |s| then 0 else if |s| - offset < limit then |s| - offset else limit) &&
      forall k :: 0 <= k < |p| ==> p[k] == s[offset + k]
  {
  }

  /** Every row list returns belongs to the caller, contains `search`, and is the stored row. */
  lemma ListSound<P>(rows: map<int, Row<P>>, caller: int, field: P -> string,
                     limit: int, offset: int, search: string)
    requires WellKeyed(rows)
    ensures var r := List(rows, caller, field, limit, offset, search);
      r.Ok? ==> forall row :: row in r.value ==>
        row.parentId == caller && Contains(field(row.payload), search) &&
        row.id in rows && rows[row.id] == row
  {
    if List(rows, caller, field, limit, offset, search).Ok? {
      var m := Matching(rows, caller, field, search);
      var p := Page(m, offset, limit);
      assert List(rows, caller, field, limit, offset, search) == Ok(p);
      MatchingIds(rows, caller, field, search);
      PageAt(m, offset, limit);
      forall row | row in p
        ensures Selected(row, caller, field, search) && row.id in rows && rows[row.id] == row
      {
        var k :| 0 <= k < |p| && p[k] == row;
        assert row == m[offset + k];
      }
    }
  }

  /**
   * List skips the first `offset` matching rows and returns the next ones, at
   * most `limit` of them: exactly min(limit, N - offset) rows when N rows match.
   */
  lemma ListSize<P>(rows: map<int, Row<P>>, caller: int, field: P -> string,
                    limit: int, offset: int, search: string)
    requires WellKeyed(rows)
    ensures var r := List(rows, caller, field, limit, offset, search);
      var n := |MatchIds(rows, caller, field, search)|;
      r.Ok? ==> (|r.value| <= limit &&
                 |r.value| == (if offset >= n then 0 else if n - offset < limit then n - offset else limit))
  {
    if List(rows, caller, field, limit, offset, search).Ok? {
      var m := Matching(rows, caller, field, search);
      assert List(rows, caller, field, limit, offset, search) == Ok(Page(m, offset, limit));
      MatchingExact(rows, caller, field, search);
      PageAt(m, offset, limit);
    }
  }

  /** The page list returns is the run of matching rows that starts at `offset`. */
  lemma ListIsSlice<P>(rows: map<int, Row<P>>, caller: int, field: P -> string,
                       limit: int, offset: int, search: string)
    ensures var r := List(rows, caller, field, limit, offset, search);
      var m := Matching(rows, caller, field, search);
      r.Ok? ==> forall k :: 0 <= k < |r.value| ==> offset + k < |m| && r.value[k] == m[offset + k]
  {
    if List(rows, caller, field, limit, offset, search).Ok? {
      var m := Matching(rows, caller, field, search);
      assert List(rows, caller, field, limit, offset, search) == Ok(Page(m, offset, limit));
      PageAt(m, offset, limit);
    }
  }

  /**
   * With no offset and a limit at least the number of matches, list returns
   * every selected row of the caller (when the limit is a valid `bigint` and
   * the search text can be sent).
   */
  lemma ListComplete<P>(rows: map<int, Row<P>>, caller: int, field: P -> string,
                        limit: int, search: string)
    requires WellKeyed(rows)
    requires limit >= |MatchIds(rows, caller, field, search)|
    ensures var r := List(rows, caller, field, limit, 0, search);
      r.Ok? <==> limit < BigintBound && FitsText(search)
    ensures var r := List(rows, caller, field, limit, 0, search);
      r.Ok? ==> forall id :: (id in rows && rows[id].parentId == caller &&
                             Contains(field(rows[id].payload), search)) ==> rows[id] in r.value
  {
    var ids := SortedIds(rows.Keys);
    SortedIdsExact(rows.Keys);
    var m := Matching(rows, caller, field, search);
    MatchingExact(rows, caller, field, search);
    PageAt(m, 0, limit);
    assert Page(m, 0, limit) == m;
    if limit < BigintBound && FitsText(search) {
      assert List(rows, caller, field, limit, 0, search) == Ok(m);
      VisibleComplete(rows, ids, caller, field, search);
      forall id | id in rows && Selected(rows[id], caller, field, search) ensures rows[id] in m {
        assert id in ids;
      }
    }
  }

  /** The returned rows come in ascending id order, each at most once. */
  lemma ListOrdered<P>(rows: map<int, Row<P>>, caller: int, field: P -> string,
                       limit: int, offset: int, search: string)
    requires WellKeyed(rows)
    ensures var r := List(rows, caller, field, limit, offset, search);
      r.Ok? ==> forall a, b :: 0 <= a < b < |r.value| ==> r.value[a].id < r.value[b].id
  {
    if List(rows, caller, field, limit, offset, search).Ok? {
      var m := Matching(rows, caller, field, search);
      var p := Page(m, offset, limit);
      assert List(rows, caller, field, limit, offset, search) == Ok(p);
      MatchingExact(rows, caller, field, search);
      PageAt(m, offset, limit);
      forall a, b | 0 <= a < b < |p| ensures p[a].id < p[b].id {
        assert p[a] == m[offset + a] && p[b] == m[offset + b];
        assert IdsOf(m)[offset + a] < IdsOf(m)[offset + b];
      }
    }
  }

  /** The default search "" filters nothing: the selected ids are exactly the caller's. */
  lemma EmptySearchSelectsOwned<P>(rows: map<int, Row<P>>, caller: int, field: P -> string)
    ensures MatchIds(rows, caller, field, "") == OwnedIds(rows, caller)
  {
    forall id | id in rows ensures id in MatchIds(rows, caller, field, "") <==> id in OwnedIds(rows, caller) {
      EmptyPatternEverywhere(field(rows[id].payload));
    }
  }

  /** Two consecutive pages together are the page that spans both. */
  lemma PagesCompose<T>(s: seq<T>, offset: nat, a: nat, b: nat)
    ensures Page(s, offset, a) + Page(s, offset + a, b) == Page(s, offset, a + b)
  {
  }

  /** Asking for `a` rows at `offset` and then `b` more gives what asking for `a + b` at once gives. */
  lemma ListPagesCompose<P>(rows: map<int, Row<P>>, caller: int, field: P -> string,
                            offset: nat, a: nat, b: nat, search: string)
    requires offset + a + b < BigintBound && FitsText(search)
    ensures List(rows, caller, field, a, offset, search).value +
            List(rows, caller, field, b, offset + a, search).value ==
            List(rows, caller, field, a + b, offset, search).value
  {
  }

  // ---------------------------------------------------------------------------
  // get: existence first, then ownership
  // ---------------------------------------------------------------------------

  /**
   * The check every by-id handler runs: no row with that id is NotFound whoever
   * asks; a row owned by someone else is NotAuthorized; otherwise the row.
   */
  function Lookup<P>(rows: map<int, Row<P>>, caller: int, id: int): (r: Outcome<Row<P>>)
    ensures !r.ServerFault?
    ensures r.NotFound? <==> id !in rows
    ensures r.NotAuthorized? <==> id in rows && rows[id].parentId != caller
    ensures r.Ok? <==> id in OwnedIds(rows, caller)
    ensures r.Ok? ==> r.value == rows[id]
  {
    if id !in rows then NotFound
    else if rows[id].parentId != caller then NotAuthorized
    else Ok(rows[id])
  }

  /** Get and list agree: get succeeds exactly on the rows a default-search listing of everything shows. */
  lemma LookupAgreesWithList<P>(rows: map<int, Row<P>>, caller: int, field: P -> string,
                                id: int, limit: int)
    requires WellKeyed(rows)
    requires |OwnedIds(rows, caller)| <= limit < BigintBound
    ensures var all := List(rows, caller, field, limit, 0, "");
      all.Ok? && (Lookup(rows, caller, id).Ok? <==> exists row :: row in all.value && row.id == id)
  {
    EmptySearchSelectsOwned(rows, caller, field);
    ListComplete(rows, caller, field, limit, "");
    ListSound(rows, caller, field, limit, 0, "");
    if id in OwnedIds(rows, caller) {
      EmptyPatternEverywhere(field(rows[id].payload));
      assert rows[id] in List(rows, caller, field, limit, 0, "").value;
    }
  }

  /** Once a row is gone, every later by-id request for it is NotFound, whoever asks. */
  lemma RemovedIsNotFound<P>(rows: map<int, Row<P>>, id: int, anyone: int)
    ensures Lookup(rows - {id}, anyone, id) == NotFound
  {
  }

  // ---------------------------------------------------------------------------
  // The table: create, update, delete change it in place
  // ---------------------------------------------------------------------------

  /** One log table and the primary-key sequence that numbers its new rows. */
  class Table<P> {
    var rows: map<int, Row<P>>
    var nextId: int

    /** Rows sit under their own id; every id was handed out by the sequence, which starts at 1. */
    ghost predicate Valid()
      reads this
    {
      1 <= nextId && WellKeyed(rows) && forall id :: id in rows ==> 1 <= id < nextId
    }

    constructor ()
      ensures Valid() && rows == map[] && nextId == 1
    {
      rows := map[];
      nextId := 1;
    }

    /**
     * `create`: inserts one row owned by `owner` with the payload as supplied; the
     * id comes from the sequence and so is not in use. Nothing else changes.
     */
    method Insert(owner: int, payload: P, now: Stamp) returns (row: Row<P>)
      requires Valid()
      modifies this
      ensures Valid()
      ensures row.id == old(nextId) && row.id !in old(rows) && nextId == old(nextId) + 1
      ensures row.parentId == owner && row.payload == payload && row.stamp == now
      ensures rows == old(rows)[row.id := row]
    {
      row := Row(nextId, owner, payload, now);
      rows := rows[nextId := row];
      nextId := nextId + 1;
    }

    /**
     * `update`: after the existence and ownership checks, replaces the payload of
     * row `id` and keeps its id, owner and timestamps; returns the updated row. A
     * failed check changes nothing.
     */
    method Update(caller: int, id: int, payload: P) returns (r: Outcome<Row<P>>)
      requires Valid()
      modifies this
      ensures Valid() && nextId == old(nextId)
      ensures r.Ok? <==> Lookup(old(rows), caller, id).Ok?
      ensures r.Ok? ==> r.value == old(rows)[id].(payload := payload) && rows == old(rows)[id := r.value]
      ensures !r.Ok? ==> r == Lookup(old(rows), caller, id) && rows == old(rows)
    {
      r := Lookup(rows, caller, id);
      if r.Ok? {
        var row := r.value.(payload := payload);
        rows := rows[id := row];
        r := Ok(row);
      }
    }

    /**
     * `delete`: after the existence and ownership checks, removes row `id` and no
     * other. A failed check changes nothing.
     */
    method Delete(caller: int, id: int) returns (r: Outcome<()>)
      requires Valid()
      modifies this
      ensures Valid() && nextId == old(nextId)
      ensures r.Ok? <==> Lookup(old(rows), caller, id).Ok?
      ensures r.Ok? ==> r == Ok(()) && rows == old(rows) - {id}
      ensures !r.Ok? ==> r == Lookup(old(rows), caller, id).Propagate() && rows == old(rows)
    {
      var found := Lookup(rows, caller, id);
      if found.Ok? {
        rows := rows - {id};
        r := Ok(());
      } else {
        r := found.Propagate();
      }
    }

    /** The `ON DELETE CASCADE` of `parent_id`: drops every row owned by `owner` and keeps the rest. */
    method RemoveOwnedBy(owner: int)
      requires Valid()
      modifies this
      ensures Valid() && nextId == old(nextId)
      ensures rows == map id | id in old(rows) && old(rows)[id].parentId != owner :: old(rows)[id]
    {
      rows := map id | id in rows && rows[id].parentId != owner :: rows[id];
    }
  }
}
