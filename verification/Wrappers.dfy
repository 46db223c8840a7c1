/** The optional value used for C pointers that may be NULL and for searches that may fail. */
module Wrappers {

  datatype Option<+T> = None | Some(value: T) {

    function GetOr(default: T): T {
      match this
      case Some(v) => v
      case None => default
    }
  }

  /**
   Keeps a predicate closed in proofs that only pass it on: written forall i {:trigger Look(i)} :: Look(i) ==> P,
   it means P, and the verifier opens it where Look is mentioned.
   */
  predicate Look(i: int) {
    true
  }
}
