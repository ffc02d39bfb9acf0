/** Optional values and error outcomes shared by the other modules. */
module Wrappers {

  datatype Option<+T> = None | Some(value: T)

  /** The outcome of an operation that returns nothing or raises. */
  datatype Outcome<+E> = Done | Raised(error: E)

  /** The Python exceptions the modelled code raises itself. */
  datatype Exception =
    | RuntimeError(message: string)
    | ValueError(message: string)
    | AttributeError(message: string)
}
