/** SetValidator: Repetitions and Weight must not be their default value,
    ExerciseName must not be null and at most 150 UTF-16 code units long. */
module SetValidator {
  import opened Lists
  import opened Text
  import opened Models
  import opened Validation

  const MaxExerciseNameLength := 150

  /** The failures the three rules report, in the order they are declared.
      MaximumLength passes on null, so a null name fails only NotNull. */
  function ValidateSet(s: Set): (fs: seq<Failure>)
    ensures forall k :: 0 <= k < |fs| ==> fs[k].property in {Repetitions, Weight, ExerciseName}
  {
    (if s.repetitions == 0 then [Failure(Repetitions, NotEmpty)] else [])
    + (if s.weight == 0.0 then [Failure(Weight, NotEmpty)] else [])
    + (if s.exerciseName.None? then [Failure(ExerciseName, NotNull)] else [])
    + (if s.exerciseName.Some? && Utf16Length(s.exerciseName.value) > MaxExerciseNameLength
       then [Failure(ExerciseName, MaximumLength(MaxExerciseNameLength))] else [])
  }

  /** Each rule reports its failure exactly when its condition is broken,
      whatever the other rules report. */
  lemma ValidateSetRules(s: Set)
    ensures Failure(Repetitions, NotEmpty) in ValidateSet(s) <==> s.repetitions == 0
    ensures Failure(Weight, NotEmpty) in ValidateSet(s) <==> s.weight == 0.0
    ensures Failure(ExerciseName, NotNull) in ValidateSet(s) <==> s.exerciseName.None?
    ensures Failure(ExerciseName, MaximumLength(MaxExerciseNameLength)) in ValidateSet(s) <==>
      s.exerciseName.Some? && Utf16Length(s.exerciseName.value) > MaxExerciseNameLength
  {
  }

  /** ValidationResult.IsValid: a set is valid exactly when every rule
      holds. Any non-zero repetition count passes, negatives included; the
      empty name passes; Id is never looked at. */
  predicate ValidSet(s: Set)
    ensures ValidSet(s) <==>
      && s.repetitions != 0
      && s.weight != 0.0
      && s.exerciseName.Some?
      && Utf16Length(s.exerciseName.value) <= MaxExerciseNameLength
  {
    ValidateSet(s) == []
  }

  /** The verdict does not depend on the set's Id. */
  lemma ValidSetIgnoresId(s: Set, id: int)
    ensures ValidateSet(s.(id := id)) == ValidateSet(s)
  {
  }

  /** NotNull().MaximumLength(150) lets the empty exercise name through. */
  lemma EmptyExerciseNameAccepted(s: Set)
    requires s.repetitions != 0 && s.weight != 0.0
    requires s.exerciseName == Some("")
    ensures ValidSet(s)
  {
  }
}
