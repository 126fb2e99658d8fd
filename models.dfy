/** The two records the service stores. A workout entry owns an ordered
    list of sets. */
module Models {
  import opened Lists

  /** One exercise set. `exerciseName` is None when the body carried null;
      `weight` is the double property, which the service only compares
      with zero. */
  datatype Set = Set(id: int, exerciseName: Option<string>, repetitions: int, weight: real)

  /** A logged workout. `workoutDate` is the DateTime as a tick count, so
      0 is default(DateTime), that is DateTime.MinValue. */
  datatype WorkoutEntry = WorkoutEntry(id: int, name: Option<string>, workoutDate: nat, sets: seq<Set>)
}
