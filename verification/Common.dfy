/** Small vocabulary shared by all the models. */
module Common {

  datatype Option<+T> = None | Some(value: T)

  /** What one call to a database or to a remote API may do.
      `Fails`: no effect, the caller sees an error.
      `LostReply`: the effect happens, the caller still sees an error. */
  datatype Fault = Fine | Fails | LostReply

  /** Conversion of a float to an integer: towards zero. */
  function Truncate(x: real): (n: int)
    ensures x >= 0.0 ==> n as real <= x < n as real + 1.0
    ensures x <= 0.0 ==> n as real - 1.0 < x <= n as real
  {
    if x >= 0.0 then x.Floor else -((-x).Floor)
  }

  /** Every call from number `from` up to `until` went well. */
  ghost predicate AllFine(faults: nat -> Fault, from: nat, until: nat) {
    forall k :: from <= k < until ==> faults(k) == Fine
  }
}
