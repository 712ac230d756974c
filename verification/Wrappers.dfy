/** What several modules share: optional values, results, and the end of a list. */
module Wrappers {

  datatype Option<+T> = None | Some(value: T)

  datatype Result<+T, +E> = Ok(value: T) | Err(error: E)

  /** The first element that meets the test; the length if none does. */
  function IndexWhere<T>(s: seq<T>, test: T -> bool): (i: nat)
    ensures i <= |s|
    ensures forall j :: 0 <= j < i ==> !test(s[j])
    ensures i < |s| ==> test(s[i])
  {
    if s == [] || test(s[0]) then 0 else 1 + IndexWhere(s[1..], test)
  }

  /** `slice(-n)` for a positive `n`. */
  function LastN<T>(s: seq<T>, n: nat): (r: seq<T>)
    ensures |r| == if |s| < n then |s| else n
    ensures forall i :: 0 <= i < |r| ==> r[i] == s[|s| - |r| + i]
  {
    if |s| <= n then s else s[|s| - n..]
  }
}
