/** Failure-carrying wrappers shared by every module of the model. */
module Base {

  /** A value that may be missing (Python's `None`, or an absent key). */
  datatype Option<T> = None | Some(value: T)

  /** A computation that either produced a value or raised a Python exception. */
  datatype Result<T, E> = Ok(value: T) | Raised(error: E)

  /** The Python exceptions the modelled code raises or catches. */
  datatype PyError =
    | JsonDecodeError   // json.loads rejected its input
    | AttributeError    // `.get` called on a decoded value that is not a dict
    | TypeError         // `[:2]`, `[0]` or `int()` applied to a value that does not support it
    | ValueError        // `int()` applied to text that is not a number
    | KeyError          // `[0]` applied to a dict without that key
    | NameError         // a module used without being imported
    | ServiceError      // the completion service failed while streaming
}
