/** The three set handlers. A set lives in its parent entry's Sets list;
    the handlers look the parent up, find the set in that list by Id (the
    first match), edit the list in place and commit. */
module SetEndpoints {
  import opened Lists
  import opened Models
  import opened SetValidator
  import opened Repository
  import opened Responses

  /** Sets.FirstOrDefault(o => o.Id == id), as a position in the list. */
  function SetIndex(sets: seq<Set>, id: int): (r: Option<nat>)
    ensures r.Some? ==> r.value < |sets| && sets[r.value].id == id
    ensures r.Some? ==> forall i :: 0 <= i < r.value ==> sets[i].id != id
    ensures r.None? <==> forall i :: 0 <= i < |sets| ==> sets[i].id != id
  {
    FirstIndexWhere(sets, (s: Set) => s.id == id)
  }

  /** The three assignments UpdateSet makes to the found set, as an edit of
      the list: the set at `k` takes ExerciseName, Repetitions and Weight
      from `update` and keeps its Id; the length and every other element
      stay as they were. */
  function PatchAt(sets: seq<Set>, k: nat, update: Set): (r: seq<Set>)
    requires k < |sets|
    ensures |r| == |sets|
    ensures r[k] == update.(id := sets[k].id)
    ensures forall i :: 0 <= i < |sets| && i != k ==> r[i] == sets[i]
  {
    sets[k := sets[k].(exerciseName := update.exerciseName, repetitions := update.repetitions, weight := update.weight)]
  }

  /** A set appended under an Id no earlier set has is the one a later
      lookup by that Id finds, and removing it gives the list back. */
  lemma AppendedSetFound(sets: seq<Set>, s: Set)
    requires forall i :: 0 <= i < |sets| ==> sets[i].id != s.id
    ensures SetIndex(sets + [s], s.id) == Some(|sets|)
    ensures RemoveAt(sets + [s], |sets|) == sets
  {
    var xs := sets + [s];
    assert xs[|sets|].id == s.id;
    assert forall i :: 0 <= i < |sets| ==> xs[i] == sets[i];
  }

  /** Updating a set keeps it where a lookup by its Id finds it, and doing
      the same update twice changes nothing more than doing it once. */
  lemma PatchStable(sets: seq<Set>, k: nat, update: Set)
    requires SetIndex(sets, update.id) == Some(k)
    ensures SetIndex(PatchAt(sets, k, update), update.id) == Some(k)
    ensures PatchAt(PatchAt(sets, k, update), k, update) == PatchAt(sets, k, update)
  {
  }

  /** CreateSet: an invalid set is echoed back with 400; a missing parent
      gives 404 with the parent's Id; in both cases nothing changes and
      nothing is committed. Otherwise the set, under a fresh Id, is
      appended at the end of the parent's Sets, committed once, and comes
      back with 201 and its location. */
  method CreateSet(store: WorkoutStore, workoutId: int, s: Set) returns (r: Response<Set>)
    requires store.Valid()
    modifies store
    ensures store.Valid()
    ensures !ValidSet(s) ==> r == BadRequest(s) && unchanged(store)
    ensures ValidSet(s) && old(store.Find(workoutId)).None? ==> r == NotFound(workoutId) && unchanged(store)
    ensures ValidSet(s) && old(store.Find(workoutId)).Some? ==>
      var parent := old(store.Find(workoutId)).value;
      && r.Created?
      && r.value == s.(id := r.value.id)
      && SetIdFree(old(store.rows), r.value.id)
      && r.location == SetLocation(workoutId, r.value.id)
      && store.rows == WithEntry(old(store.rows), parent.(sets := parent.sets + [r.value]))
      && store.saved == store.rows
      && store.saveCount == old(store.saveCount) + 1
  {
    if !ValidSet(s) {
      return BadRequest(s);
    }
    var found := store.Find(workoutId);
    if found.None? {
      return NotFound(workoutId);
    }
    var parent := found.value;
    var id := store.NewSetId();
    var created := s.(id := id);
    store.Put(parent.(sets := parent.sets + [created]));
    store.SaveChanges();
    r := Created(SetLocation(workoutId, created.id), created);
  }

  /** UpdateSet: validation, then the parent, then the set whose Id the
      body carries. An invalid body gives 400, a missing parent 404 with
      the parent's Id, a missing set 404 with the set's Id, each with no
      change and no commit. Otherwise the first set with that Id takes the
      body's ExerciseName, Repetitions and Weight, the change is committed
      once, and the answer is 204. */
  method UpdateSet(store: WorkoutStore, workoutId: int, update: Set) returns (r: Response<Set>)
    requires store.Valid()
    modifies store
    ensures store.Valid()
    ensures !ValidSet(update) ==> r == BadRequest(update) && unchanged(store)
    ensures ValidSet(update) && old(store.Find(workoutId)).None? ==> r == NotFound(workoutId) && unchanged(store)
    ensures ValidSet(update) && old(store.Find(workoutId)).Some? ==>
      var parent := old(store.Find(workoutId)).value;
      match SetIndex(parent.sets, update.id)
      case None => r == NotFound(update.id) && unchanged(store)
      case Some(k) =>
        && r == NoContent
        && store.rows == WithEntry(old(store.rows), parent.(sets := PatchAt(parent.sets, k, update)))
        && store.saved == store.rows
        && store.saveCount == old(store.saveCount) + 1
  {
    if !ValidSet(update) {
      return BadRequest(update);
    }
    var found := store.Find(workoutId);
    if found.None? {
      return NotFound(workoutId);
    }
    var parent := found.value;
    var k := SetIndex(parent.sets, update.id);
    if k.None? {
      return NotFound(update.id);
    }
    store.Put(parent.(sets := PatchAt(parent.sets, k.value, update)));
    store.SaveChanges();
    r := NoContent;
  }

  /** DeleteSet: no validation. A missing parent gives 404 with the
      parent's Id, a missing set 404 with the set's Id, each with no change
      and no commit. Otherwise the first set with that Id leaves the
      parent's Sets (the rest keep their order), the change is committed
      once, and the answer is 204. */
  method DeleteSet(store: WorkoutStore, workoutId: int, setId: int) returns (r: Response<Set>)
    requires store.Valid()
    modifies store
    ensures store.Valid()
    ensures old(store.Find(workoutId)).None? ==> r == NotFound(workoutId) && unchanged(store)
    ensures old(store.Find(workoutId)).Some? ==>
      var parent := old(store.Find(workoutId)).value;
      match SetIndex(parent.sets, setId)
      case None => r == NotFound(setId) && unchanged(store)
      case Some(k) =>
        && r == NoContent
        && store.rows == WithEntry(old(store.rows), parent.(sets := RemoveAt(parent.sets, k)))
        && store.saved == store.rows
        && store.saveCount == old(store.saveCount) + 1
  {
    var found := store.Find(workoutId);
    if found.None? {
      return NotFound(workoutId);
    }
    var parent := found.value;
    var k := SetIndex(parent.sets, setId);
    if k.None? {
      return NotFound(setId);
    }
    store.Put(parent.(sets := RemoveAt(parent.sets, k.value)));
    store.SaveChanges();
    r := NoContent;
  }
}
