/** WorkoutEntryValidator: Name must be neither null nor blank and at most
    300 UTF-16 code units long, WorkoutDate must not be default(DateTime),
    and every element of Sets must pass the SetValidator rules. */
module WorkoutEntryValidator {
  import opened Lists
  import opened Text
  import opened Models
  import opened Validation
  import opened SetValidator

  const MaxNameLength := 300

  /** RuleForEach(Sets): each element's failures, element by element, in
      list order, labelled with the element's position. */
  function SetsFailures(sets: seq<Set>): (fs: seq<Failure>)
    ensures forall k :: 0 <= k < |fs| ==> fs[k].property.SetsItem? && fs[k].property.index < |sets|
  {
    if sets == [] then []
    else SetsFailures(sets[..|sets| - 1]) + Nested(|sets| - 1, ValidateSet(sets[|sets| - 1]))
  }

  /** The failures of the three rules, in the order they are declared. Both
      rules on Name run, so a blank name longer than 300 fails twice. */
  function ValidateEntry(e: WorkoutEntry): (fs: seq<Failure>)
    ensures forall k :: 0 <= k < |fs| ==> fs[k].property in {Name, WorkoutDate} || fs[k].property.SetsItem?
  {
    (if IsNullOrWhiteSpace(e.name) then [Failure(Name, NotEmpty)] else [])
    + (if e.name.Some? && Utf16Length(e.name.value) > MaxNameLength
       then [Failure(Name, MaximumLength(MaxNameLength))] else [])
    + (if e.workoutDate == 0 then [Failure(WorkoutDate, NotEmpty)] else [])
    + SetsFailures(e.sets)
  }

  /** The child rule's failures for a non-empty list are those for all but
      the last set, followed by the last set's own. */
  lemma SetsFailuresLast(sets: seq<Set>)
    requires sets != []
    ensures SetsFailures(sets) == [] <==> SetsFailures(sets[..|sets| - 1]) == [] && ValidSet(sets[|sets| - 1])
  {
    var fs := ValidateSet(sets[|sets| - 1]);
    assert |Nested(|sets| - 1, fs)| == |fs|;
  }

  /** The child rule reports nothing exactly when every set is valid; in
      particular an empty Sets list passes. */
  lemma {:induction false} SetsFailuresEmpty(sets: seq<Set>)
    ensures SetsFailures(sets) == [] <==> forall i :: 0 <= i < |sets| ==> ValidSet(sets[i])
  {
    if sets != [] {
      var init, last := sets[..|sets| - 1], |sets| - 1;
      SetsFailuresLast(sets);
      SetsFailuresEmpty(init);
      if SetsFailures(sets) == [] {
        forall i | 0 <= i < |sets| ensures ValidSet(sets[i]) {
          if i < last {
            assert init[i] == sets[i];
          }
        }
      } else if ValidSet(sets[last]) {
        var i :| 0 <= i < |init| && !ValidSet(init[i]);
        assert init[i] == sets[i];
      }
    }
  }

  /** Every failure the child rule reports points at a set that really is
      invalid. */
  lemma {:induction false} SetsFailuresLocate(sets: seq<Set>, k: nat)
    requires k < |SetsFailures(sets)|
    ensures SetsFailures(sets)[k].property.SetsItem?
    ensures SetsFailures(sets)[k].property.index < |sets|
    ensures !ValidSet(sets[SetsFailures(sets)[k].property.index])
  {
    var init := sets[..|sets| - 1];
    var last := |sets| - 1;
    var fs := ValidateSet(sets[last]);
    var head, tail := SetsFailures(init), Nested(last, fs);
    assert SetsFailures(sets) == head + tail;
    if k < |head| {
      SetsFailuresLocate(init, k);
      assert (head + tail)[k] == head[k];
    } else {
      var j := k - |head|;
      assert (head + tail)[k] == tail[j] == Failure(SetsItem(last, fs[j].property), fs[j].rule);
      assert fs != [];
    }
  }

  /** Each of the entry's own rules reports its failure exactly when its
      condition is broken; both Name rules run, so a blank name over 300
      code units fails both. */
  lemma ValidateEntryRules(e: WorkoutEntry)
    ensures Failure(Name, NotEmpty) in ValidateEntry(e) <==> IsNullOrWhiteSpace(e.name)
    ensures Failure(Name, MaximumLength(MaxNameLength)) in ValidateEntry(e) <==>
      e.name.Some? && Utf16Length(e.name.value) > MaxNameLength
    ensures Failure(WorkoutDate, NotEmpty) in ValidateEntry(e) <==> e.workoutDate == 0
  {
    var own := ValidateEntry(e)[..|ValidateEntry(e)| - |SetsFailures(e.sets)|];
    assert ValidateEntry(e) == own + SetsFailures(e.sets);
    assert forall f :: f in SetsFailures(e.sets) ==> f.property.SetsItem?;
  }

  /** ValidationResult.IsValid for an entry: valid exactly when the name and
      date rules hold and every set is valid. Id is never looked at. */
  predicate ValidEntry(e: WorkoutEntry)
    ensures ValidEntry(e) <==>
      && !IsNullOrWhiteSpace(e.name)
      && Utf16Length(e.name.value) <= MaxNameLength
      && e.workoutDate != 0
      && forall i :: 0 <= i < |e.sets| ==> ValidSet(e.sets[i])
  {
    SetsFailuresEmpty(e.sets);
    ValidateEntry(e) == []
  }

  /** One invalid set makes the whole entry invalid. */
  lemma InvalidSetInvalidatesEntry(e: WorkoutEntry, i: nat)
    requires i < |e.sets| && !ValidSet(e.sets[i])
    ensures !ValidEntry(e)
  {
  }
}
