/** Values shared by every service: optional values, results with an error,
    the first-match lookup that every `query(...).filter(...).first()` in the
    services performs, and the clock arithmetic in integer seconds. */
module Common {

  datatype Option<+T> = None | Some(value: T)

  datatype Result<+T, +E> = Success(value: T) | Failure(error: E)

  /** One minute, one hour and one day, in seconds. */
  const MINUTE: int := 60
  const HOUR: int := 60 * MINUTE
  const DAY: int := 24 * HOUR

  /** The index of the first element of `s` that satisfies `p`, as a
      database query with `.first()` returns the first matching row. */
  function IndexOfFirst<T>(s: seq<T>, p: T -> bool): (r: Option<nat>)
    ensures r.Some? ==> r.value < |s| && p(s[r.value])
    ensures r.Some? ==> forall j :: 0 <= j < r.value ==> !p(s[j])
    ensures r.None? <==> forall j :: 0 <= j < |s| ==> !p(s[j])
    decreases |s|
  {
    if s == [] then None
    else if p(s[0]) then Some(0)
    else match IndexOfFirst(s[1..], p)
      case None => None
      case Some(k) => Some(k + 1)
  }

  /** Overwriting the first match with another value that matches keeps it the first match. */
  lemma {:induction false} IndexOfFirstUpdate<T>(s: seq<T>, p: T -> bool, i: nat, x: T)
    requires IndexOfFirst(s, p) == Some(i)
    requires p(x)
    ensures IndexOfFirst(s[i := x], p) == Some(i)
  {
    var t := s[i := x];
    assert forall j :: 0 <= j < i ==> t[j] == s[j];
    assert p(t[i]);
    assert forall j :: 0 <= j < i ==> !p(t[j]);
  }
}
