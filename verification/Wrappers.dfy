/** Types shared by all modules. */
module Wrappers {
  datatype Option<+T> = None | Some(value: T)

  /** A floating-point reading: the code drops whatever is not finite at its boundaries. */
  datatype Num = Finite(v: real) | NonFinite
}
