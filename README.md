# MinimalWorkoutApi request handling, in Dafny

A model of the request-handling core of MinimalWorkoutApi, a small CRUD
service. It keeps workout entries, each with an ordered list of exercise
sets. Three parts are modelled:

- The two FluentValidation validators (`SetValidator`,
  `WorkoutEntryValidator`). Each is a function that returns the list of
  field-level failures. Each has a predicate (`ValidSet`, `ValidEntry`) that
  holds when that list is empty. The predicates are proved equal to the
  plain conjunction of the rules, with `RuleForEach` becoming a quantifier
  over `Sets`.
- The repository (`IWorkoutEntryRepository`) as a class, `WorkoutStore`. It
  holds:
  - the entries table as the request's unit of work sees it (`rows`, in
    table order, Ids distinct);
  - the table as the last `SaveChangesAsync` left it (`saved`);
  - a ghost count of `SaveChangesAsync` calls (`saveCount`), so contracts
    can say "committed exactly once" or "not committed".
- The eight endpoint handlers, as methods over the store. Results are a
  datatype `Response<T>`: `Ok`, `Created` (with its Location string),
  `NoContent`, `BadRequest` and `NotFound` (with the Id that was not found).
  Every failure path is stated to leave the store unchanged, `saveCount`
  included.

Modules, leaf first:

- `Lists`: `Option`, LINQ `FirstOrDefault(predicate)` as `FirstIndexWhere`, and `List.Remove` as `RemoveAt`.
- `Text`: .NET `char.IsWhiteSpace`, `string.Length` in UTF-16 code units, and `int.ToString()`. It also holds a reader, `ParseDecimal`, used only to state that a Location names its Id. That reader is not `int.Parse`: it accepts leading zeros and "-0", and refuses "+5" and surrounding whitespace.
- `Models`: the `Set` and `WorkoutEntry` records.
- `Validation`: the failure records.
- `SetValidator`, `WorkoutEntryValidator`: the two validators.
- `Repository`: the store.
- `Responses`: the result type and the Location headers.
- `WorkoutEndpoints`, `SetEndpoints`: the handlers.
- `Scenarios`: request sequences checked from the handler contracts alone.

Modelling choices:

- `Name` and `ExerciseName` are `Option<string>`; `None` is null.
- `WorkoutDate` is a tick count; 0 is `default(DateTime)`, which is `DateTime.MinValue`.
- `Weight` is a `real`; it is only compared with zero.
- A store-assigned key is a nondeterministic choice. An entry gets an Id no row has. A set gets an Id no set in the table has.
- An edit made in place to a fetched, tracked entity is written back with `WorkoutStore.Put`.
- `NotEmpty` on `Repetitions` (`SetValidator.cs:10`) rejects only 0, so negative counts pass.

## Where the code and its tests disagree

The model follows the handler and validator code:

- `SetValidator.cs:12` is `NotNull().MaximumLength(150)`, so an empty
  `ExerciseName` is valid (`EmptyExerciseNameAccepted`). The test at
  `MinimalWorkoutApi.UnitTests/Validators/SetValidatorTests.cs:33-44`
  expects it to be rejected.
- `SetEndpointsTests.cs` and `WorkoutEndpointTests.cs` call `CreateSet`,
  `UpdateSet`, `CreateWorkoutEntry` and `UpdateWorkoutEntry` without the
  validator argument that the handlers take (compare `SetEndpointsTests.cs:33`
  with `SetEndpoints.cs:20`).
- `MinimalWorkoutApiTests.cs` is an older copy of the endpoint tests.
- The set update route is `PUT "/"`. The target set's Id comes from the
  body, not from the path (`SetEndpoints.cs:14`).

## Model

| member | source | states |
|---|---|---|
| `Lists.FirstIndexWhere` | MinimalWorkoutApi/Endpoints/SetEndpoints.cs:59 | the FirstOrDefault search: the result is the position of the first element satisfying the predicate, every earlier element fails it, and None exactly when no element satisfies it |
| `Lists.RemoveAt` | MinimalWorkoutApi/Endpoints/SetEndpoints.cs:91 | List.Remove of a found element: one element fewer, elements before it unchanged, elements after it shifted down by one in their order |
| `Lists.RemoveAtMultiset` | MinimalWorkoutApi/Endpoints/SetEndpoints.cs:91 | removal takes out exactly one copy of the removed element and nothing else |
| `Text.IsWhiteSpace` | MinimalWorkoutApi/Validators/WorkoutEntryValidator.cs:10 | char.IsWhiteSpace, the characters NotEmpty treats as blank: space, tab, line feed and carriage return are among them, and none is a digit or outside the Basic Multilingual Plane |
| `Text.IsNullOrWhiteSpace` | MinimalWorkoutApi/Validators/WorkoutEntryValidator.cs:10 | string.IsNullOrWhiteSpace, what NotEmpty rejects on a string: null, the empty string, or only whitespace; a blank string's length in code units is its character count |
| `Text.Utf16Length` | MinimalWorkoutApi/Validators/SetValidator.cs:12 | the length MaximumLength checks counts UTF-16 code units: between one and two per character, and equal to the character count exactly when no character is outside the Basic Multilingual Plane |
| `Text.Digits` | MinimalWorkoutApi/Endpoints/WorkoutEndpoints.cs:53 | the digits of a natural number: at least one, all decimal digits, and no leading zero for a positive number |
| `Text.Decimal` | MinimalWorkoutApi/Endpoints/WorkoutEndpoints.cs:53 | int.ToString() as interpolated into a Location: never empty and never holding '/'; a leading '-' exactly for a negative number; all digits exactly for a non-negative one; a leading '0' only in "0" itself |
| `Text.DecimalRoundTrip` | MinimalWorkoutApi/Endpoints/WorkoutEndpoints.cs:53 | the decimal text of an Id, as interpolated into a Location, reads back as that Id, so distinct Ids give distinct texts |
| `SetValidator.ValidateSet` | MinimalWorkoutApi/Validators/SetValidator.cs:10-12 | every reported failure is about Repetitions, Weight or ExerciseName |
| `SetValidator.ValidateSetRules` | MinimalWorkoutApi/Validators/SetValidator.cs:10-12 | each rule reports its failure exactly when its condition is broken: NotEmpty on Repetitions iff it is 0, NotEmpty on Weight iff it is 0.0, NotNull on ExerciseName iff it is null, MaximumLength(150) iff it is non-null and over 150 code units |
| `SetValidator.ValidSet` | MinimalWorkoutApi/Validators/SetValidator.cs:10-12 | a set is valid iff Repetitions is non-zero, Weight is non-zero, ExerciseName is not null and at most 150 code units long; 150 passes, 151 fails, negatives pass |
| `SetValidator.ValidSetIgnoresId` | MinimalWorkoutApi/Validators/SetValidator.cs:10-12 | changing a set's Id changes none of its failures |
| `SetValidator.EmptyExerciseNameAccepted` | MinimalWorkoutApi/Validators/SetValidator.cs:12 | an empty exercise name passes NotNull().MaximumLength(150) |
| `WorkoutEntryValidator.SetsFailures` | MinimalWorkoutApi/Validators/WorkoutEntryValidator.cs:12 | RuleForEach(Sets): every failure it reports is labelled "Sets[i]" for a position i that exists in Sets |
| `WorkoutEntryValidator.ValidateEntry` | MinimalWorkoutApi/Validators/WorkoutEntryValidator.cs:10-12 | the entry's failure list: every failure is about Name, WorkoutDate or an element of Sets, never Id |
| `WorkoutEntryValidator.ValidateEntryRules` | MinimalWorkoutApi/Validators/WorkoutEntryValidator.cs:10-11 | NotEmpty on Name fails iff Name is null or blank; MaximumLength(300) fails iff Name is non-null and over 300 code units, so a blank over-long name fails both; NotEmpty on WorkoutDate fails iff it is the default |
| `WorkoutEntryValidator.SetsFailuresEmpty` | MinimalWorkoutApi/Validators/WorkoutEntryValidator.cs:12 | RuleForEach reports nothing iff every set is valid, so an empty Sets list passes |
| `WorkoutEntryValidator.SetsFailuresLocate` | MinimalWorkoutApi/Validators/WorkoutEntryValidator.cs:12 | every child failure names a position in Sets whose set is invalid |
| `WorkoutEntryValidator.ValidEntry` | MinimalWorkoutApi/Validators/WorkoutEntryValidator.cs:10-12 | an entry is valid iff Name is not null, empty or whitespace only and at most 300 code units, WorkoutDate is not the default, and every set is valid; Id is not looked at |
| `WorkoutEntryValidator.InvalidSetInvalidatesEntry` | MinimalWorkoutApi/Validators/WorkoutEntryValidator.cs:12 | one invalid set makes the whole entry invalid |
| `Repository.EntryIndex` | MinimalWorkoutApi/Repository/IWorkoutEntryRepository.cs:8 | the lookup by Id finds a row with that Id, and finds none exactly when no row has it |
| `Repository.EntryIndexOfRow` | MinimalWorkoutApi/Repository/IWorkoutEntryRepository.cs:8 | with distinct Ids, looking up a row's Id gives that row's position |
| `Repository.FindIsUnique` | MinimalWorkoutApi/Repository/IWorkoutEntryRepository.cs:8 | with distinct Ids, looking up the Id of any stored entry returns that entry |
| `Repository.WithEntry` | MinimalWorkoutApi/Endpoints/WorkoutEndpoints.cs:72-74 | writing back an edited entity changes only the row with its Id, keeps the table's length and order, and keeps Ids distinct |
| `Repository.WithEntryTwice` | MinimalWorkoutApi/Endpoints/SetEndpoints.cs:84-93 | editing a row and then editing it back to its old value leaves the table as it was |
| `Repository.WithoutEntry` | MinimalWorkoutApi/Repository/IWorkoutEntryRepository.cs:10 | deleting by Id removes exactly the row with that Id (one row fewer when it existed) and keeps every other row |
| `Repository.WorkoutStore.Find` | MinimalWorkoutApi/Repository/IWorkoutEntryRepository.cs:8 | GetWorkEntryAsync returns a stored entry with the requested Id, and null exactly when no row has it |
| `Repository.WorkoutStore.Add` | MinimalWorkoutApi/Repository/IWorkoutEntryRepository.cs:9 | CreateWorkoutEntry appends the entry under a key no row had, changes nothing else of it, and does not save |
| `Repository.WorkoutStore.Delete` | MinimalWorkoutApi/Repository/IWorkoutEntryRepository.cs:10 | DeleteWorkoutEntry removes the entry's row and does not save |
| `Repository.WorkoutStore.Put` | MinimalWorkoutApi/Endpoints/WorkoutEndpoints.cs:72-74 | an in-place edit of a tracked entry replaces its row and does not save |
| `Repository.WorkoutStore.NewSetId` | MinimalWorkoutApi/Endpoints/SetEndpoints.cs:38-40 | the Id the store gives a new set is carried by no set in the table |
| `Repository.WorkoutStore.SaveChanges` | MinimalWorkoutApi/Repository/IWorkoutEntryRepository.cs:11 | SaveChangesAsync makes the saved table what the context sees and counts one commit |
| `Responses.Response.StatusCode` | MinimalWorkoutApi/Endpoints/SetEndpoints.cs:20 | each result kind has its HTTP status, below 300 exactly for Ok, Created and NoContent |
| `Responses.EntryLocation` | MinimalWorkoutApi/Endpoints/WorkoutEndpoints.cs:53 | the Location of a created entry starts with "/workoutEntries/" and its Id segment, the rest, holds no '/' |
| `Responses.SetLocation` | MinimalWorkoutApi/Endpoints/SetEndpoints.cs:40 | the Location of a created set starts with "/workoutEntry/" and ends in a '/' followed by the set's Id segment, which holds no '/' |
| `Responses.EntryLocationRoundTrip` | MinimalWorkoutApi/Endpoints/WorkoutEndpoints.cs:53 | the Location "/workoutEntries/{id}" names the created entry's Id |
| `Responses.FirstSlash` | MinimalWorkoutApi/Endpoints/SetEndpoints.cs:40 | in a set location the first '/' after the prefix ends the parent's Id, since a decimal Id holds no '/' |
| `Responses.SetLocationRoundTrip` | MinimalWorkoutApi/Endpoints/SetEndpoints.cs:40 | the Location "/workoutEntry/{workoutId}/set/{setId}" names both the parent's Id and the set's Id |
| `WorkoutEndpoints.Replaced` | MinimalWorkoutApi/Endpoints/WorkoutEndpoints.cs:72-74 | the updated entry is the body under the stored entry's Id: the body's own Id is ignored |
| `WorkoutEndpoints.GetAllWorkoutEntries` | MinimalWorkoutApi/Endpoints/WorkoutEndpoints.cs:23-26 | Ok with every stored entry, possibly none; each listed entry is what a lookup by its Id returns |
| `WorkoutEndpoints.GetWorkoutEntryById` | MinimalWorkoutApi/Endpoints/WorkoutEndpoints.cs:28-38 | NotFound carrying the requested Id exactly when no entry has it; otherwise Ok with the stored entry that has it |
| `WorkoutEndpoints.CreateWorkoutEntry` | MinimalWorkoutApi/Endpoints/WorkoutEndpoints.cs:40-54 | invalid body: BadRequest echoing it, store unchanged, no commit; valid body: appended under a fresh Id, committed once, Created with "/workoutEntries/{id}" and the stored entry |
| `WorkoutEndpoints.UpdateWorkoutEntry` | MinimalWorkoutApi/Endpoints/WorkoutEndpoints.cs:56-79 | validation before lookup; BadRequest or NotFound(id) leave the store unchanged with no commit; otherwise only that entry changes, taking Name, WorkoutDate and Sets from the body and keeping its Id; committed once; NoContent |
| `WorkoutEndpoints.DeleteWorkoutEntry` | MinimalWorkoutApi/Endpoints/WorkoutEndpoints.cs:81-94 | NotFound(id) with no change when absent; otherwise exactly that entry is removed, committed once, NoContent |
| `SetEndpoints.SetIndex` | MinimalWorkoutApi/Endpoints/SetEndpoints.cs:59 | the set lookup finds the first set with the Id, and none exactly when no set has it |
| `SetEndpoints.PatchAt` | MinimalWorkoutApi/Endpoints/SetEndpoints.cs:66-68 | the found set takes ExerciseName, Repetitions and Weight from the body and keeps its Id; the length and every other set are unchanged |
| `SetEndpoints.AppendedSetFound` | MinimalWorkoutApi/Endpoints/SetEndpoints.cs:36-40 | a set appended under a fresh Id is the one a later lookup by that Id finds, and removing it restores the list |
| `SetEndpoints.PatchStable` | MinimalWorkoutApi/Endpoints/SetEndpoints.cs:59-68 | after an update the set is still found at the same place, and repeating the update changes nothing |
| `SetEndpoints.CreateSet` | MinimalWorkoutApi/Endpoints/SetEndpoints.cs:20-41 | BadRequest(set) or NotFound(workoutId) with no change and no commit; otherwise the set under a fresh Id is appended at the end of the parent's Sets, committed once, Created with "/workoutEntry/{workoutId}/set/{setId}" |
| `SetEndpoints.UpdateSet` | MinimalWorkoutApi/Endpoints/SetEndpoints.cs:43-73 | validation, then parent, then child; BadRequest, NotFound(workoutId) or NotFound(updatedSet.Id) with no change and no commit; otherwise only the first matching set is patched, committed once, NoContent |
| `SetEndpoints.DeleteSet` | MinimalWorkoutApi/Endpoints/SetEndpoints.cs:75-96 | no validation; NotFound(workoutId) or NotFound(setId) with no change and no commit; otherwise exactly the first matching set is removed, the rest in order, committed once, NoContent |
| `Scenarios.FetchTwice` | MinimalWorkoutApi/Endpoints/WorkoutEndpoints.cs:28-38 | two reads with no write between them give equal results |
| `Scenarios.CreateThenFetch` | MinimalWorkoutApi/Endpoints/WorkoutEndpoints.cs:40-54 | fetching by the Id read from a new entry's Location returns Ok with that entry, which is the body under its new Id |
| `Scenarios.DeleteThenFetch` | MinimalWorkoutApi/Endpoints/WorkoutEndpoints.cs:81-94 | after deleting an existing entry, fetching it gives NotFound with its Id |
| `Scenarios.CreateZeroRepetitionSet` | MinimalWorkoutApi/Endpoints/SetEndpoints.cs:22-27 | a set with zero repetitions is refused with BadRequest and the parent is unchanged, with no commit |
| `Scenarios.UpdateUnknownSet` | MinimalWorkoutApi/Endpoints/SetEndpoints.cs:59-64 | updating a set the existing parent lacks gives NotFound with the set's Id, not the parent's |
| `Scenarios.CreateThenDeleteSet` | MinimalWorkoutApi/Endpoints/SetEndpoints.cs:36-40 | creating a set and deleting it by the Id its Location names restores the table, after two commits |

## Left out

- HTTP hosting and routing (`Program.cs`, `MapWorkoutEndpoints`, `MapSetEndpoints`) are not modelled. The handlers are called directly with their arguments. The set routes are grouped under `/workoutEntry/{id}/set` while the handlers take a parameter named `workoutId`; how the framework binds it is not modelled.
- Dependency injection (`ServiceExtensions.cs`) is not modelled. The validator arguments are fixed to the registered `SetValidator` and `WorkoutEntryValidator`.
- `async`/`Task` and the `TypedResults` framework types are not modelled. Handlers are synchronous and results are a plain datatype.
- Entity Framework (`WorkoutEntryRepository.cs`, the `DbContext` classes) is replaced by the `WorkoutStore` class.
- `Repository.WorkoutStore.Add`: key generation is a free choice of an unused key. EF's sequential generator and its keeping of a non-zero client-supplied Id are not modelled.
- The sets inside a newly created entry keep whatever Ids their body carried, 0 included, so several sets may share an Id. EF would add each of them: a set with Id 0 would get a generated key, and one with a non-zero Id would be inserted under it, with the commit failing when that Id is taken. Neither behaviour is modelled.
- `SetEndpoints.CreateSet`: the body's Id is ignored. The new set is always appended under a fresh Id, and its Location names that Id. EF finds the set only when `SaveChangesAsync` scans the parent's Sets. A found set whose key is non-zero, say n, is tracked as an update, not an insert. With no set of Id n, the commit fails and no Created is returned. With a set of Id n under another entry, that set is overwritten from the body and moved under this parent, and the Location names n. With a set of Id n under this parent, the commit fails with an identity conflict. None of these three cases is modelled.
- `WorkoutEndpoints.UpdateWorkoutEntry`: the body's Sets replace the stored ones as values, keeping the Ids they carry, and the model answers NoContent. EF treats them by the same rule as a created set. A set with Id 0 gets a generated key, where the model keeps 0, so several sets may share it. A set with a non-zero Id that is not tracked is an update of an existing row: that row is moved under this entry, or the commit fails when no row has the Id. A set reusing the Id of one of the stored entry's sets, which are tracked, raises an identity conflict at `SaveChangesAsync`. None of these cases is modelled.
- `Repository.WorkoutStore.SaveChanges`: it always succeeds. A store that rejects the write (a persistence error) is not modelled.
- Object identity is not modelled. Entities are values, so the aliasing between the object a handler returns and the tracked object in the context is not captured.
- Orphaned set rows are not modelled. In the model a set lives inside its entry's row, so deleting an entry (`WorkoutEndpoints.cs:90`) or removing a set (`SetEndpoints.cs:91`) makes the sets disappear. In the database the relationship is optional, because `Set` has only a nullable shadow key to its entry. EF's default there, ClientSetNull, leaves those set rows in the table with a null parent key. No handler reads a set except through its parent, so no response differs.
- Concurrency between requests is not modelled. Each handler runs alone on the store.
- `Weight` is a `real`, not a double. NaN and negative zero are not modelled.
- Ids and `Repetitions` are unbounded integers, not 32-bit. No arithmetic is done on them.
- `WorkoutDate` is a tick count. No other `DateTime` behaviour is modelled.
- A null `Sets` list, null elements in it, and a null request body are not modelled.
- Failure messages are not modelled. A failure carries its property and rule only.
- The Location text uses `int.ToString()` with a "-" sign. Culture-specific negative signs are not modelled.
- The unit tests are evidence only. They are not modelled.
