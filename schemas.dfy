/**
 * Request and response shapes. The input payloads carry only the payload
 * columns: there is no `id`, `parent_id` or `created_on` field a client could
 * set, so a client cannot choose the owner of a row it creates.
 */
module Schemas {
  import opened Outcomes
  import opened Models

  /** `BottleBase` / `BottleCreate`: an omitted `notes` is None. */
  datatype BottleCreate = BottleCreate(brand: string, amount: int, notes: Option<string> := None)

  /** `DiaperBase` / `DiaperCreate`: an omitted `notes` is None. */
  datatype DiaperCreate = DiaperCreate(soilType: string, notes: Option<string> := None)

  /** Every column of the bottle body can be stored: an `Integer` amount and text without U+0000. */
  predicate BottleFits(b: BottleCreate)
  {
    FitsInteger(b.amount) && FitsText(b.brand) && (b.notes.Some? ==> FitsText(b.notes.value))
  }

  /** Every column of the diaper body can be stored: text without U+0000. */
  predicate DiaperFits(d: DiaperCreate)
  {
    FitsText(d.soilType) && (d.notes.Some? ==> FitsText(d.notes.value))
  }

  /** `UserOut`: the owner summary embedded in every log response; it has no password. */
  datatype UserOut = UserOut(id: int, email: string, createdOn: int)

  /** The `Bottle` response: the payload plus id, creation time, owner id and owner summary. */
  datatype BottleOut = BottleOut(
    brand: string, amount: int, notes: Option<string>,
    id: int, createdOn: int, parentId: int, parent: UserOut)

  /** The `Diaper` response, shaped like `BottleOut`. */
  datatype DiaperOut = DiaperOut(
    soilType: string, notes: Option<string>,
    id: int, createdOn: int, parentId: int, parent: UserOut)

  /** The summary the response serialiser builds from a `users` row. */
  function Summary(u: User): UserOut
  {
    UserOut(u.id, u.email, u.createdOn)
  }

  /** The response for a bottle row whose owner is `owner`. */
  function BottleView(row: Row<BottleCreate>, owner: User): BottleOut
  {
    BottleOut(row.payload.brand, row.payload.amount, row.payload.notes,
              row.id, row.stamp.createdOn, row.parentId, Summary(owner))
  }

  /** The response for a diaper row whose owner is `owner`. */
  function DiaperView(row: Row<DiaperCreate>, owner: User): DiaperOut
  {
    DiaperOut(row.payload.soilType, row.payload.notes,
              row.id, row.stamp.createdOn, row.parentId, Summary(owner))
  }

  /** The owner summary does not depend on the password: two users who differ only there look the same. */
  lemma SummaryHidesPassword(u: User, password: string)
    ensures Summary(u.(password := password)) == Summary(u)
  {
  }

  /** A bottle response shows the payload it was built from, unchanged, and nothing of the password. */
  lemma BottleViewShowsPayload(row: Row<BottleCreate>, owner: User)
    ensures var o := BottleView(row, owner);
      BottleCreate(o.brand, o.amount, o.notes) == row.payload &&
      o.id == row.id && o.parentId == row.parentId && o.parent.id == owner.id
    ensures forall pw :: BottleView(row, owner.(password := pw)) == BottleView(row, owner)
  {
  }

  /** A diaper response shows the payload it was built from, unchanged, and nothing of the password. */
  lemma DiaperViewShowsPayload(row: Row<DiaperCreate>, owner: User)
    ensures var o := DiaperView(row, owner);
      DiaperCreate(o.soilType, o.notes) == row.payload &&
      o.id == row.id && o.parentId == row.parentId && o.parent.id == owner.id
    ensures forall pw :: DiaperView(row, owner.(password := pw)) == DiaperView(row, owner)
  {
  }

  /** Leaving `notes` out of either payload gives None. */
  lemma NotesDefaultToNone(brand: string, amount: int, soilType: string)
    ensures BottleCreate(brand, amount).notes == None
    ensures DiaperCreate(soilType).notes == None
  {
  }
}
