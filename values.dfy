/** Python values and outcomes that the projector client hands back to its callers. */
module Values {

  datatype Option<T> = None | Some(value: T)

  /** The Python values the public operations return: `None`, `False` or a string. */
  datatype PyValue = PyNone | PyFalse | PyStr(s: string)

  /** Exceptions the modelled code can raise. */
  datatype PyError =
    | AttributeError  // `None.encode(...)` on a command missing from the command table
    | NameError       // the undefined name `ALL` in the lock code as written

  /** What a Python call does: return a value or raise. */
  datatype Outcome = Returned(value: PyValue) | Raised(error: PyError)
}
