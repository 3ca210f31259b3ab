/** Small integer helpers shared by the heartbeat and the SMS cap. */
module Bounds {

  function Min(a: int, b: int): (m: int)
    ensures m <= a && m <= b && (m == a || m == b)
  {
    if a < b then a else b
  }

  /** The non-negative part of an integer. */
  function Max0(a: int): (m: nat)
    ensures m >= a && (a >= 0 ==> m == a)
  {
    if a < 0 then 0 else a
  }
}
