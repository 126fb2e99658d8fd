/** Request sequences against one store, checked from the handlers'
    contracts alone: what a client of the HTTP surface can rely on. */
module Scenarios {
  import opened Lists
  import opened Models
  import opened SetValidator
  import opened WorkoutEntryValidator
  import opened Repository
  import opened Responses
  import opened WorkoutEndpoints
  import opened SetEndpoints

  /** Two reads with no write between them answer alike. */
  method FetchTwice(store: WorkoutStore, id: int) returns (first: Response<WorkoutEntry>, second: Response<WorkoutEntry>)
    requires store.Valid()
    ensures first == second
  {
    first := GetWorkoutEntryById(store, id);
    second := GetWorkoutEntryById(store, id);
    if first.Ok? {
      FindIsUnique(store, first.value);
      FindIsUnique(store, second.value);
    }
  }

  /** POST a valid entry, read the Id back out of the Location header and
      GET it: 200 with the entry as stored, which is the body under the new
      Id. */
  method CreateThenFetch(store: WorkoutStore, body: WorkoutEntry) returns (created: Response<WorkoutEntry>, fetched: Response<WorkoutEntry>)
    requires store.Valid() && ValidEntry(body)
    modifies store
    ensures created.Created? && ParseEntryLocation(created.location) == Some(created.value.id)
    ensures fetched == Ok(created.value)
    ensures fetched.value == body.(id := fetched.value.id)
  {
    created := CreateWorkoutEntry(store, body);
    EntryLocationRoundTrip(created.value.id);
    var id := ParseEntryLocation(created.location).value;
    fetched := GetWorkoutEntryById(store, id);
    assert created.value == store.rows[|store.rows| - 1];
    FindIsUnique(store, created.value);
    FindIsUnique(store, fetched.value);
  }

  /** DELETE an existing entry, then GET it: 204, then 404 with its Id. */
  method DeleteThenFetch(store: WorkoutStore, id: int) returns (deleted: Response<WorkoutEntry>, fetched: Response<WorkoutEntry>)
    requires store.Valid() && store.Find(id).Some?
    modifies store
    ensures deleted == NoContent && fetched == NotFound(id)
  {
    deleted := DeleteWorkoutEntry(store, id);
    fetched := GetWorkoutEntryById(store, id);
  }

  /** POST a set with zero repetitions under an existing entry: 400 with
      the set echoed, and the entry's sets as they were. */
  method CreateZeroRepetitionSet(store: WorkoutStore, workoutId: int, s: Set) returns (r: Response<Set>)
    requires store.Valid() && s.repetitions == 0
    modifies store
    ensures r == BadRequest(s)
    ensures store.Find(workoutId) == old(store.Find(workoutId))
    ensures store.saveCount == old(store.saveCount)
  {
    r := CreateSet(store, workoutId, s);
  }

  /** PUT a valid set whose Id is not among an existing entry's sets: 404
      carrying the set's Id, not the entry's. */
  method UpdateUnknownSet(store: WorkoutStore, workoutId: int, update: Set) returns (r: Response<Set>)
    requires store.Valid() && ValidSet(update)
    requires store.Find(workoutId).Some?
    requires forall i :: 0 <= i < |store.Find(workoutId).value.sets| ==> store.Find(workoutId).value.sets[i].id != update.id
    modifies store
    ensures r == NotFound(update.id)
    ensures store.saveCount == old(store.saveCount)
  {
    r := UpdateSet(store, workoutId, update);
  }

  /** POST a valid set under an existing entry, then DELETE it by the Id
      its Location names: 201, then 204, and the table is back to what it
      was, with two commits in between. */
  method CreateThenDeleteSet(store: WorkoutStore, workoutId: int, s: Set) returns (created: Response<Set>, deleted: Response<Set>)
    requires store.Valid() && ValidSet(s) && store.Find(workoutId).Some?
    modifies store
    ensures created.Created? && ParseSetLocation(created.location) == Some((workoutId, created.value.id))
    ensures deleted == NoContent
    ensures store.rows == old(store.rows) && store.saved == store.rows
    ensures store.saveCount == old(store.saveCount) + 2
  {
    ghost var rows0 := store.rows;
    ghost var parent := store.Find(workoutId).value;
    ghost var k :| 0 <= k < |rows0| && rows0[k] == parent;
    created := CreateSet(store, workoutId, s);
    SetLocationRoundTrip(workoutId, created.value.id);
    ghost var grown := parent.(sets := parent.sets + [created.value]);
    assert store.rows[k] == grown;
    FindIsUnique(store, grown);
    AppendedSetFound(parent.sets, created.value);
    deleted := DeleteSet(store, workoutId, created.value.id);
    WithEntryTwice(rows0, grown, parent, k);
  }
}
