/** Optional and fallible values shared by every module. */
module Wrappers {
  datatype Option<+T> = None | Some(value: T)

  datatype Result<+T, +E> = Ok(value: T) | Err(error: E)

  function Max(a: int, b: int): int { if a > b then a else b }

  function Min(a: int, b: int): int { if a < b then a else b }

  lemma SomeElement<T>(s: set<T>) returns (x: T)
    requires s != {}
    ensures x in s
  {
    x :| x in s;
  }

  /** The numbers below `n`. */
  function Below(n: nat): (rs: set<nat>)
    ensures |rs| == n && forall r | r in rs :: r < n
  {
    if n == 0 then {} else Below(n - 1) + {n - 1}
  }
}
