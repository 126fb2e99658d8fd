/** IWorkoutEntryRepository over its unit of work: the table of workout
    entries as the request's context sees it, the table as last saved, and
    a count of SaveChangesAsync calls. */
module Repository {
  import opened Lists
  import opened Models

  /** The primary key: no two rows share an Id. */
  predicate DistinctIds(rows: seq<WorkoutEntry>) {
    forall i, j :: 0 <= i < j < |rows| ==> rows[i].id != rows[j].id
  }

  /** The query behind GetWorkEntryAsync: the first row whose Id is `id`. */
  function EntryIndex(rows: seq<WorkoutEntry>, id: int): (r: Option<nat>)
    ensures r.Some? ==> r.value < |rows| && rows[r.value].id == id
    ensures r.None? <==> forall i :: 0 <= i < |rows| ==> rows[i].id != id
  {
    FirstIndexWhere(rows, (e: WorkoutEntry) => e.id == id)
  }

  /** With distinct Ids, the lookup by a row's own Id finds that row. */
  lemma EntryIndexOfRow(rows: seq<WorkoutEntry>, i: nat)
    requires DistinctIds(rows) && i < |rows|
    ensures EntryIndex(rows, rows[i].id) == Some(i)
  {
  }

  /** The table after the tracked row with `e`'s Id has been edited into
      `e`: that row changes, every other row stays where and what it was. */
  function WithEntry(rows: seq<WorkoutEntry>, e: WorkoutEntry): (r: seq<WorkoutEntry>)
    requires DistinctIds(rows)
    ensures |r| == |rows|
    ensures forall i :: 0 <= i < |rows| ==> r[i] == (if rows[i].id == e.id then e else rows[i])
    ensures DistinctIds(r)
  {
    match EntryIndex(rows, e.id)
    case None => rows
    case Some(k) => rows[k := e]
  }

  /** The table after the row with Id `id` has been deleted: one row fewer
      when it was there, and every other row still present. */
  function WithoutEntry(rows: seq<WorkoutEntry>, id: int): (r: seq<WorkoutEntry>)
    requires DistinctIds(rows)
    ensures EntryIndex(rows, id).Some? ==> |r| == |rows| - 1
    ensures forall x :: x in r <==> x in rows && x.id != id
    ensures DistinctIds(r)
  {
    match EntryIndex(rows, id)
    case None => rows
    case Some(k) =>
      var r := RemoveAt(rows, k);
      assert forall x :: x in r ==> x in rows by {
        forall x | x in r ensures x in rows {
          var i :| 0 <= i < |r| && r[i] == x;
          if i >= k { assert rows[i + 1] == x; }
        }
      }
      assert forall x :: x in rows && x.id != id ==> x in r by {
        forall x | x in rows && x.id != id ensures x in r {
          var i :| 0 <= i < |rows| && rows[i] == x;
          if i < k { assert r[i] == x; } else { assert r[i - 1] == x; }
        }
      }
      r
  }

  /** No set of any row carries Id `id`. */
  predicate SetIdFree(rows: seq<WorkoutEntry>, id: int) {
    forall i, j :: 0 <= i < |rows| && 0 <= j < |rows[i].sets| ==> rows[i].sets[j].id != id
  }

  /** A number above every row's Id. */
  function EntryIdBound(rows: seq<WorkoutEntry>): (b: int)
    ensures forall i :: 0 <= i < |rows| ==> rows[i].id < b
  {
    if rows == [] then 0
    else
      var b := EntryIdBound(rows[..|rows| - 1]);
      var last := rows[|rows| - 1].id;
      if b <= last then last + 1 else b
  }

  /** A number above the Id of every set in `sets`. */
  function SetIdBound(sets: seq<Set>): (b: int)
    ensures forall j :: 0 <= j < |sets| ==> sets[j].id < b
  {
    if sets == [] then 0
    else
      var b := SetIdBound(sets[..|sets| - 1]);
      var last := sets[|sets| - 1].id;
      if b <= last then last + 1 else b
  }

  /** A number above the Id of every set of every row. */
  function AllSetIdBound(rows: seq<WorkoutEntry>): (b: int)
    ensures forall i, j :: 0 <= i < |rows| && 0 <= j < |rows[i].sets| ==> rows[i].sets[j].id < b
  {
    if rows == [] then 0
    else
      var init := rows[..|rows| - 1];
      var b := AllSetIdBound(init);
      var last := SetIdBound(rows[|rows| - 1].sets);
      assert forall i :: 0 <= i < |init| ==> init[i] == rows[i];
      if b <= last then last else b
  }

  /** With distinct Ids, looking up a row's Id returns that row. */
  lemma FindIsUnique(store: WorkoutStore, e: WorkoutEntry)
    requires store.Valid() && e in store.rows
    ensures store.Find(e.id) == Some(e)
  {
    var i :| 0 <= i < |store.rows| && store.rows[i] == e;
    EntryIndexOfRow(store.rows, i);
  }

  /** Editing a row and then editing it back to its old value leaves the
      table as it was. */
  lemma {:induction false} WithEntryTwice(rows: seq<WorkoutEntry>, e1: WorkoutEntry, e2: WorkoutEntry, k: nat)
    requires DistinctIds(rows) && k < |rows| && rows[k].id == e1.id == e2.id && e2 == rows[k]
    ensures WithEntry(WithEntry(rows, e1), e2) == rows
  {
    var r := WithEntry(WithEntry(rows, e1), e2);
    assert |r| == |rows|;
    forall i | 0 <= i < |rows| ensures r[i] == rows[i] {
      if rows[i].id == e1.id {
        assert i == k;
      }
    }
  }

  class WorkoutStore {
    /** The WorkoutEntries table as the current context sees it, tracked
        changes included, in table order. */
    var rows: seq<WorkoutEntry>
    /** The table as the last SaveChangesAsync left it. */
    var saved: seq<WorkoutEntry>
    /** How many times SaveChangesAsync has been called. */
    ghost var saveCount: nat

    ghost predicate Valid()
      reads this
    {
      DistinctIds(rows)
    }

    constructor ()
      ensures Valid()
      ensures rows == [] && saved == [] && saveCount == 0
    {
      rows := [];
      saved := [];
      saveCount := 0;
    }

    /** GetWorkEntryAsync(id): the entry with that Id, or null. */
    function Find(id: int): (r: Option<WorkoutEntry>)
      reads this
      ensures r.Some? ==> r.value.id == id && r.value in rows
      ensures r.None? <==> forall i :: 0 <= i < |rows| ==> rows[i].id != id
    {
      match EntryIndex(rows, id)
      case None => None
      case Some(k) => Some(rows[k])
    }

    /** CreateWorkoutEntry: adds the entry as a new row under a key the
        store chooses, one that no row has. Nothing is saved. */
    method Add(e: WorkoutEntry) returns (stored: WorkoutEntry)
      requires Valid()
      modifies this
      ensures Valid()
      ensures stored == e.(id := stored.id)
      ensures EntryIndex(old(rows), stored.id).None?
      ensures rows == old(rows) + [stored]
      ensures saved == old(saved) && saveCount == old(saveCount)
    {
      var bound := EntryIdBound(rows);
      assert EntryIndex(rows, bound).None?;
      var id :| EntryIndex(rows, id).None?;
      assert EntryIndex(rows, id).None?;
      assert forall i :: 0 <= i < |rows| ==> rows[i].id != id;
      stored := e.(id := id);
      rows := rows + [stored];
    }

    /** DeleteWorkoutEntry: removes the row of a fetched entry (its sets go
        with it). Nothing is saved. */
    method Delete(e: WorkoutEntry)
      requires Valid() && e in rows
      modifies this
      ensures Valid()
      ensures rows == WithoutEntry(old(rows), e.id)
      ensures saved == old(saved) && saveCount == old(saveCount)
    {
      rows := WithoutEntry(rows, e.id);
    }

    /** Change tracking: the fetched entry with `e`'s Id has been edited
        into `e`. Nothing is saved. */
    method Put(e: WorkoutEntry)
      requires Valid() && Find(e.id).Some?
      modifies this
      ensures Valid()
      ensures rows == WithEntry(old(rows), e)
      ensures saved == old(saved) && saveCount == old(saveCount)
    {
      rows := WithEntry(rows, e);
    }

    /** The key the store gives a set added to some entry: one that no set
        in the table has. */
    method NewSetId() returns (id: int)
      ensures SetIdFree(rows, id)
    {
      var bound := AllSetIdBound(rows);
      assert SetIdFree(rows, bound);
      id :| SetIdFree(rows, id);
    }

    /** SaveChangesAsync: the table now holds what the context sees. */
    method SaveChanges()
      modifies this
      ensures rows == old(rows) && saved == rows
      ensures saveCount == old(saveCount) + 1
    {
      saved := rows;
      saveCount := saveCount + 1;
    }
  }
}
