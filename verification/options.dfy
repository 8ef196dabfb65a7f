/** An optional value: a `Map.get` miss, a row `SELECT` that finds nothing, an
    absent `req.files` or `mimetype`, or a property a handler never writes
    (`fromAdmin`, `createdAt`). A property the client did not send is
    `JsVal.Undefined` instead. */
module Options {

  datatype Option<+T> = None | Some(value: T) {

    /** The value, or `default` when there is none. */
    function GetOr(default: T): T {
      match this
      case Some(v) => v
      case None => default
    }
  }
}
