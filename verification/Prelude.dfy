// Values shared by every component of the model.
module Prelude {
  datatype Option<+T> = None | Some(value: T)

  function Min(x: real, y: real): (least: real)
    ensures (x <= y ==> least == x) && (y <= x ==> least == y)
  {
    if x <= y then x else y
  }

  function MaxInt(x: int, y: int): (most: int)
    ensures most >= x && most >= y && (most == x || most == y)
  {
    if x >= y then x else y
  }

  // math.ceil: the least integer that is not below x.
  function Ceil(x: real): (c: int)
    ensures x <= c as real < x + 1.0
  {
    -((-x).Floor)
  }

  // Timestamps that never run backwards.
  ghost predicate Ordered(times: seq<real>) {
    forall i, j :: 0 <= i <= j < |times| ==> times[i] <= times[j]
  }
}
