/** The option type and the few numeric functions that several modules use. */
module Common {
  datatype Option<T> = None | Some(value: T)

  function Max(a: int, b: int): int {
    if a < b then b else a
  }

  function Min(a: int, b: int): int {
    if a < b then a else b
  }

  function Abs(x: int): int {
    if x < 0 then -x else x
  }

  function MaxReal(a: real, b: real): real {
    if a < b then b else a
  }

  function MinReal(a: real, b: real): real {
    if b < a then b else a
  }

  function AbsReal(x: real): real {
    if x < 0.0 then -x else x
  }
}
