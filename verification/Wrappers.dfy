/** Optional values, results, clipped arithmetic, and the one law of sequences every loop needs. */
module Wrappers {

  datatype Option<+T> = None | Some(value: T) {
    function GetOr(default: T): T { if Some? then value else default }

    function Or(other: Option<T>): Option<T> { if Some? then this else other }
  }

  datatype Result<+T, +E> = Ok(value: T) | Err(error: E)

  function Max(a: nat, b: nat): nat { if a >= b then a else b }

  function Min(a: nat, b: nat): nat { if a <= b then a else b }

  /** One less, but not below zero. */
  function Less1(a: nat): nat { if a == 0 then 0 else a - 1 }

  lemma Assoc<T>(a: seq<T>, b: seq<T>, c: seq<T>)
    ensures (a + b) + c == a + (b + c)
    ensures a + [] == a
  {
  }
}
