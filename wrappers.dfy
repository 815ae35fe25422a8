/** Option and Result types, the error kinds the node bodies can raise, and two
    small facts about sequences of options (the source uses None for a null node). */
module Wrappers {

  /** Python's None (a null node) or a value. */
  datatype Option<+T> = None | Some(value: T)

  /** The exceptions the modelled code can raise, named after their cause. */
  datatype Error =
    | NoInvertResults   // the explicit `assert not first, "No invert results"`
    | ShapeMismatch     // numpy refusing an element-wise operation on arrays of different shapes
    | IndexOutOfRange   // indexing a result list past its end
    | NoneResult        // subscripting or reading an attribute of None
    | NotAnImage        // a failed `assert isinstance(..., Image)`

  /** A value, or the exception that stopped the computation. */
  datatype Result<+T> = Ok(value: T) | Err(error: Error)

  /** Index of the first non-None entry, or |xs| when every entry is None. */
  function FirstSome<T>(xs: seq<Option<T>>): (k: nat)
    ensures k <= |xs|
    ensures k < |xs| ==> xs[k].Some?
    ensures forall i :: 0 <= i < k ==> xs[i].None?
  {
    if xs == [] then 0
    else if xs[0].Some? then 0
    else 1 + FirstSome(xs[1..])
  }

  /** Length of the longest prefix of non-None entries. */
  function LeadingSome<T>(xs: seq<Option<T>>): (m: nat)
    ensures m <= |xs|
    ensures forall i :: 0 <= i < m ==> xs[i].Some?
    ensures m < |xs| ==> xs[m].None?
  {
    if xs == [] then 0
    else if xs[0].None? then 0
    else 1 + LeadingSome(xs[1..])
  }

  /** Number of non-None entries. */
  function CountSome<T>(xs: seq<Option<T>>): (n: nat)
    ensures n <= |xs|
  {
    if xs == [] then 0
    else CountSome(xs[..|xs| - 1]) + (if xs[|xs| - 1].Some? then 1 else 0)
  }

  function Min(a: nat, b: nat): (r: nat) { if a <= b then a else b }
}
