/** Failure-carrying results shared by the modules of this model (a Python
    call that raises is modelled as returning `Err` with the exception kind),
    and the small integer facts several modules use. */
module Wrappers {

  datatype Option<+T> = None | Some(value: T)

  datatype Result<+T, +E> = Ok(value: T) | Err(error: E)

  function Min(a: int, b: int): int {
    if a <= b then a else b
  }

  /** Multiplying by a non-negative factor keeps the order. */
  lemma MulMonotonic(a: int, b: int, c: int)
    requires a <= b && c >= 0
    ensures a * c <= b * c
  {
    assert b * c - a * c == (b - a) * c;
  }
}
