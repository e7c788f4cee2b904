/**
  Foundation's `UUID`. The model never looks inside an identifier; it only
  compares identifiers for equality.
 */
module Identifiers {

  datatype Uuid = Uuid(bits: nat)

  /**
    A source of fresh identifiers: an operation that calls `UUID()` several
    times receives `newId(0)` on its first call, `newId(1)` on its second, and
    so on.
   */
  type IdSource = nat -> Uuid

  /** Every call of the source yields a different identifier. */
  ghost predicate Injective(newId: IdSource) {
    forall a: nat, b: nat :: newId(a) == newId(b) ==> a == b
  }
}
