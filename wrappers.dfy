/** Small stock datatypes and the numeric helpers the game scripts take from the engine. */
module Wrappers {

  /** A reference that may be null: `None` is the null reference. */
  datatype Option<+T> = None | Some(value: T)

  /** The integer `Mathf.Min`. */
  function Min(a: int, b: int): (r: int)
    ensures r <= a && r <= b
    ensures r == a || r == b
  {
    if a <= b then a else b
  }

  /** `Mathf.Min` on floating point values, modelled as reals. */
  function MinR(a: real, b: real): (r: real)
    ensures r <= a && r <= b
    ensures r == a || r == b
  {
    if a <= b then a else b
  }

  /** `Mathf.Max` on floating point values, modelled as reals. */
  function MaxR(a: real, b: real): (r: real)
    ensures a <= r && b <= r
    ensures r == a || r == b
  {
    if a <= b then b else a
  }
}
