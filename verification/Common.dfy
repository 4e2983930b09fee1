/** Small datatypes shared by the models of the services. */
module Common {

  datatype Option<+T> = None | Some(value: T)

  datatype Result<+T, +E> = Ok(value: T) | Err(error: E)

  type UserId = nat

  /** Clock readings and durations, in an unspecified fixed unit. */
  type Time = nat

  function Min(a: int, b: int): int {
    if a <= b then a else b
  }

  function Max(a: int, b: int): int {
    if a >= b then a else b
  }

  // ---- arithmetic ----

  lemma CancelFactor(x: int, y: int, b: nat)
    requires x * b < y * b
    ensures x < y
  {
  }

  lemma ScaleUp(x: int, y: int, c: nat)
    requires x <= y
    ensures x * c <= y * c
  {
  }

  lemma OneMore(x: int, c: int)
    ensures (x + 1) * c == x * c + c
  {
  }

  lemma QuotientBounds(a: int, b: nat)
    requires b > 0
    ensures a / b * b <= a < a / b * b + b
  {
  }
}
