/** What a FluentValidation validator reports: a list of field-level
    failures, empty exactly when the object is valid. */
module Validation {

  /** The property a failure is about. `SetsItem(i, p)` is property `p` of
      element `i` of an entry's Sets, reported as "Sets[i].p". */
  datatype Property =
    | Repetitions
    | Weight
    | ExerciseName
    | Name
    | WorkoutDate
    | SetsItem(index: nat, inner: Property)

  /** The rule that failed. */
  datatype Rule = NotEmpty | NotNull | MaximumLength(max: nat)

  datatype Failure = Failure(property: Property, rule: Rule)

  /** The failures of the child at position `index` of a collection, as the
      parent validator reports them. */
  function Nested(index: nat, fs: seq<Failure>): seq<Failure> {
    seq(|fs|, k requires 0 <= k < |fs| => Failure(SetsItem(index, fs[k].property), fs[k].rule))
  }
}
