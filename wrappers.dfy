/** Small value types shared by the other modules: an optional value, a
    result that is either a value or an exit status, and two sequence
    helpers. */
module Wrappers {

  datatype Option<+T> = None | Some(value: T)

  /** A computation that either yields a value or ends the process with an
      exit status. */
  datatype Result<+T> = Success(value: T) | Failure(code: int)

  /** The index of the first element of `s` that satisfies `p`, if any. */
  function FirstIndex<T>(s: seq<T>, p: T -> bool): (k: Option<nat>)
    ensures k.Some? ==> k.value < |s| && p(s[k.value])
    ensures k.Some? ==> forall j :: 0 <= j < k.value ==> !p(s[j])
    ensures k.None? <==> forall j :: 0 <= j < |s| ==> !p(s[j])
  {
    if s == [] then None
    else if p(s[0]) then Some(0)
    else match FirstIndex(s[1..], p)
      case None => None
      case Some(k) => Some(k + 1)
  }

  /** `n` copies of `x`. */
  function Repeat<T>(x: T, n: nat): (r: seq<T>)
    ensures |r| == n
    ensures forall j :: 0 <= j < n ==> r[j] == x
  {
    if n == 0 then [] else [x] + Repeat(x, n - 1)
  }
}
