/** Result kinds shared by every route handler. */
module Outcomes {

  /** An optional value, for the nullable columns and the fields whose default is None. */
  datatype Option<+T> = None | Some(value: T)

  /**
   * What a handler hands back to its caller: the value on success, or the kind of
   * failure it raised. `NotFound` is an HTTP 404, `NotAuthorized` the HTTP 401 the
   * handlers raise for a row owned by somebody else, and `ServerFault` an exception
   * that escapes the handler (an HTTP 500).
   */
  datatype Outcome<+T> = Ok(value: T) | NotFound | NotAuthorized | ServerFault
  {
    /** The same failure, carried over to a result of another type. */
    function Propagate<U>(): (r: Outcome<U>)
      requires !Ok?
      ensures r.NotFound? == NotFound? && r.NotAuthorized? == NotAuthorized?
      ensures r.ServerFault? == ServerFault?
    {
      match this
      case NotFound => NotFound
      case NotAuthorized => NotAuthorized
      case ServerFault => ServerFault
    }
  }
}
