/** The typed HTTP results the handlers return, and the Location header
    values of the two Created results. */
module Responses {
  import opened Lists
  import opened Text

  /** Ok<T> (200), Created<T> (201), NoContent (204), BadRequest<T> (400)
      and NotFound<int> (404), whose payload is the Id that was not found. */
  datatype Response<T> =
    | Ok(value: T)
    | Created(location: string, value: T)
    | NoContent
    | BadRequest(value: T)
    | NotFound(id: int)
  {
    function StatusCode(): (code: int)
      ensures 200 <= code < 500
      ensures code < 300 <==> (Ok? || Created? || NoContent?)
    {
      match this
      case Ok(_) => 200
      case Created(_, _) => 201
      case NoContent => 204
      case BadRequest(_) => 400
      case NotFound(_) => 404
    }
  }

  const EntryPrefix := "/workoutEntries/"
  const SetPrefix := "/workoutEntry/"
  const SetInfix := "/set/"

  /** $"/workoutEntries/{id}" */
  function EntryLocation(id: int): (loc: string)
    ensures |loc| > |EntryPrefix| && loc[..|EntryPrefix|] == EntryPrefix
    ensures forall i :: |EntryPrefix| <= i < |loc| ==> loc[i] != '/'
  {
    EntryPrefix + Decimal(id)
  }

  /** $"/workoutEntry/{workoutId}/set/{setId}" */
  function SetLocation(workoutId: int, setId: int): (loc: string)
    ensures |loc| > |SetPrefix| + |SetInfix| && loc[..|SetPrefix|] == SetPrefix
    ensures |Decimal(setId)| < |loc|
    ensures var last := |loc| - |Decimal(setId)|;
      && loc[last - 1] == '/'
      && forall i :: last <= i < |loc| ==> loc[i] != '/'
  {
    SetPrefix + Decimal(workoutId) + SetInfix + Decimal(setId)
  }

  /** Reads the entry Id back out of an entry location. */
  function ParseEntryLocation(loc: string): Option<int> {
    if |loc| >= |EntryPrefix| && loc[..|EntryPrefix|] == EntryPrefix
    then ParseDecimal(loc[|EntryPrefix|..])
    else None
  }

  predicate IsSlash(c: char) { c == '/' }

  /** Reads the parent and set Ids back out of a set location. */
  function ParseSetLocation(loc: string): Option<(int, int)> {
    if |loc| >= |SetPrefix| && loc[..|SetPrefix|] == SetPrefix then
      var rest := loc[|SetPrefix|..];
      match FirstIndexWhere(rest, IsSlash)
      case None => None
      case Some(k) =>
        var tail := rest[k..];
        if |tail| >= |SetInfix| && tail[..|SetInfix|] == SetInfix then
          match (ParseDecimal(rest[..k]), ParseDecimal(tail[|SetInfix|..]))
          case (Some(w), Some(s)) => Some((w, s))
          case _ => None
        else None
    else None
  }

  /** The location of a created entry names that entry and no other. */
  lemma EntryLocationRoundTrip(id: int)
    ensures ParseEntryLocation(EntryLocation(id)) == Some(id)
  {
    assert EntryLocation(id)[|EntryPrefix|..] == Decimal(id);
    DecimalRoundTrip(id);
  }

  /** In `w + t`, with no '/' in `w` and `t` starting with one, the first
      '/' is the one `t` starts with. */
  lemma FirstSlash(w: string, t: string)
    requires forall i :: 0 <= i < |w| ==> w[i] != '/'
    requires |t| > 0 && t[0] == '/'
    ensures FirstIndexWhere(w + t, IsSlash) == Some(|w|)
  {
    var xs := w + t;
    assert xs[|w|] == t[0];
    assert forall i :: 0 <= i < |w| ==> xs[i] == w[i];
  }

  /** The location of a created set names its parent and the set itself. */
  lemma SetLocationRoundTrip(workoutId: int, setId: int)
    ensures ParseSetLocation(SetLocation(workoutId, setId)) == Some((workoutId, setId))
  {
    var loc := SetLocation(workoutId, setId);
    var w, s := Decimal(workoutId), Decimal(setId);
    var tail := SetInfix + s;
    var rest := loc[|SetPrefix|..];
    assert loc == SetPrefix + (w + tail);
    assert rest == w + tail;
    FirstSlash(w, tail);
    assert rest[..|w|] == w;
    assert rest[|w|..] == tail;
    assert tail[..|SetInfix|] == SetInfix;
    assert tail[|SetInfix|..] == s;
    DecimalRoundTrip(workoutId);
    DecimalRoundTrip(setId);
  }
}
