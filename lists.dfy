/** Option, and the two List<T> operations the handlers rely on: LINQ's
    FirstOrDefault with a predicate (as a position) and List.Remove of an
    element found by that search (as removal at a position). */
module Lists {

  /** A possibly missing value; `None` stands for C#'s null. */
  datatype Option<+T> = None | Some(value: T)

  /** Position of the first element of `xs` satisfying `p`, or None when
      there is none (the search FirstOrDefault(p) performs). */
  function FirstIndexWhere<T>(xs: seq<T>, p: T -> bool): (r: Option<nat>)
    ensures r.Some? ==> r.value < |xs| && p(xs[r.value])
    ensures r.Some? ==> forall i :: 0 <= i < r.value ==> !p(xs[i])
    ensures r.None? <==> forall i :: 0 <= i < |xs| ==> !p(xs[i])
  {
    if |xs| == 0 then None
    else if p(xs[0]) then Some(0)
    else match FirstIndexWhere(xs[1..], p)
      case None => None
      case Some(k) => Some(k + 1)
  }

  /** `xs` without its element at position `k`; later elements shift down
      by one and keep their order. */
  function RemoveAt<T>(xs: seq<T>, k: nat): (r: seq<T>)
    requires k < |xs|
    ensures |r| == |xs| - 1
    ensures forall i :: 0 <= i < k ==> r[i] == xs[i]
    ensures forall i :: k <= i < |r| ==> r[i] == xs[i + 1]
  {
    xs[..k] + xs[k + 1..]
  }

  /** Removing an element takes exactly one copy of it out of the list. */
  lemma RemoveAtMultiset<T>(xs: seq<T>, k: nat)
    requires k < |xs|
    ensures multiset(RemoveAt(xs, k)) == multiset(xs) - multiset{xs[k]}
    ensures multiset(RemoveAt(xs, k)) + multiset{xs[k]} == multiset(xs)
  {
    var before, after := xs[..k], xs[k + 1..];
    assert xs == before + [xs[k]] + after;
    assert RemoveAt(xs, k) == before + after;
    assert multiset(xs) == multiset(before) + multiset{xs[k]} + multiset(after);
  }
}
