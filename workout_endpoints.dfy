/** The five workout-entry handlers. Each one validates (writes only), looks
    the entry up, edits the store and commits, in that order, and stops at
    the first step that fails. */
module WorkoutEndpoints {
  import opened Lists
  import opened Models
  import opened WorkoutEntryValidator
  import opened Repository
  import opened Responses

  /** The three assignments UpdateWorkoutEntry makes to the stored entry:
      Name, WorkoutDate and Sets come from the body, the Id stays. */
  function Replaced(stored: WorkoutEntry, body: WorkoutEntry): (r: WorkoutEntry)
    ensures r.id == stored.id
    ensures r == body.(id := stored.id)
  {
    stored.(name := body.name, workoutDate := body.workoutDate, sets := body.sets)
  }

  /** GetAllWorkoutEntries: 200 with every row, possibly none; each listed
      entry is exactly what a lookup by its Id returns. */
  method GetAllWorkoutEntries(store: WorkoutStore) returns (r: Response<seq<WorkoutEntry>>)
    requires store.Valid()
    ensures r.Ok? && r.value == store.rows
    ensures forall i :: 0 <= i < |r.value| ==> store.Find(r.value[i].id) == Some(r.value[i])
  {
    r := Ok(store.rows);
    forall i | 0 <= i < |store.rows|
      ensures store.Find(store.rows[i].id) == Some(store.rows[i])
    {
      EntryIndexOfRow(store.rows, i);
    }
  }

  /** GetWorkoutEntryById: 404 carrying the requested Id when no row has
      it, otherwise 200 with that row. */
  method GetWorkoutEntryById(store: WorkoutStore, id: int) returns (r: Response<WorkoutEntry>)
    ensures r.Ok? || r.NotFound?
    ensures r.NotFound? <==> forall i :: 0 <= i < |store.rows| ==> store.rows[i].id != id
    ensures r.NotFound? ==> r.id == id
    ensures r.Ok? ==> r.value in store.rows && r.value.id == id
  {
    var found := store.Find(id);
    if found.None? {
      return NotFound(id);
    }
    return Ok(found.value);
  }

  /** CreateWorkoutEntry: an invalid body is echoed back with 400 and the
      store is left alone; a valid one becomes a new row under a fresh Id,
      is committed once, and comes back with 201 and its location. */
  method CreateWorkoutEntry(store: WorkoutStore, body: WorkoutEntry) returns (r: Response<WorkoutEntry>)
    requires store.Valid()
    modifies store
    ensures store.Valid()
    ensures !ValidEntry(body) ==> r == BadRequest(body) && unchanged(store)
    ensures ValidEntry(body) ==>
      && r.Created?
      && r.value == body.(id := r.value.id)
      && EntryIndex(old(store.rows), r.value.id).None?
      && r.location == EntryLocation(r.value.id)
      && store.rows == old(store.rows) + [r.value]
      && store.saved == store.rows
      && store.saveCount == old(store.saveCount) + 1
  {
    if !ValidEntry(body) {
      return BadRequest(body);
    }
    var stored := store.Add(body);
    store.SaveChanges();
    r := Created(EntryLocation(stored.id), stored);
  }

  /** UpdateWorkoutEntry: validation comes first, so an invalid body gets
      400 even when the Id is unknown; an unknown Id gets 404 with that Id;
      otherwise the stored entry takes Name, WorkoutDate and Sets from the
      body (keeping its own Id), is committed once, and the answer is 204. */
  method UpdateWorkoutEntry(store: WorkoutStore, id: int, body: WorkoutEntry) returns (r: Response<WorkoutEntry>)
    requires store.Valid()
    modifies store
    ensures store.Valid()
    ensures !ValidEntry(body) ==> r == BadRequest(body) && unchanged(store)
    ensures ValidEntry(body) && old(store.Find(id)).None? ==> r == NotFound(id) && unchanged(store)
    ensures ValidEntry(body) && old(store.Find(id)).Some? ==>
      && r == NoContent
      && store.rows == WithEntry(old(store.rows), Replaced(old(store.Find(id)).value, body))
      && store.saved == store.rows
      && store.saveCount == old(store.saveCount) + 1
  {
    if !ValidEntry(body) {
      return BadRequest(body);
    }
    var fromDb := store.Find(id);
    if fromDb.None? {
      return NotFound(id);
    }
    store.Put(Replaced(fromDb.value, body));
    store.SaveChanges();
    r := NoContent;
  }

  /** DeleteWorkoutEntry: 404 with the Id when no row has it; otherwise the
      row is removed, the removal committed once, and the answer is 204. */
  method DeleteWorkoutEntry(store: WorkoutStore, id: int) returns (r: Response<WorkoutEntry>)
    requires store.Valid()
    modifies store
    ensures store.Valid()
    ensures old(store.Find(id)).None? ==> r == NotFound(id) && unchanged(store)
    ensures old(store.Find(id)).Some? ==>
      && r == NoContent
      && store.rows == WithoutEntry(old(store.rows), id)
      && store.saved == store.rows
      && store.saveCount == old(store.saveCount) + 1
  {
    var found := store.Find(id);
    if found.None? {
      return NotFound(id);
    }
    store.Delete(found.value);
    store.SaveChanges();
    r := NoContent;
  }
}
