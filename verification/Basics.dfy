/** Values shared by the modules of the model. */
module Basics {

  /** A value that may be missing; usable with `:-` in functions. */
  datatype Option<+T> = None | Some(value: T) {
    predicate IsFailure() { None? }
    function PropagateFailure<U>(): Option<U> requires None? { None }
    function Extract(): T requires Some? { value }
  }

  datatype Severity = P0 | P1 | P2 | P3

  function Abs(x: int): nat { if x < 0 then -x else x }

  function MaxReal(a: real, b: real): real { if a >= b then a else b }
}
