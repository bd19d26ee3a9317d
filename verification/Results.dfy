/** Result codes and optional values shared by all components. */
module Results {

  datatype Option<+T> = None | Some(value: T)

  /** The result codes of the modelled operations (ERR_NOERROR is `Ok`). */
  datatype Result =
    | Ok
    | Pointer
    | InvalidArg
    | InvalidState
    | NotFound
    | Failed
    | Timeout
    | Cancelled
    | ResourceInUse
    | OutOfRange
    | OutOfSync
    | Empty
    | Memory
}
