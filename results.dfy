// Outcomes shared by the repositories and the services: an optional row, the
// errors the services raise, and a result that carries either a value or one
// of those errors.
module Results {

  datatype Option<+T> = None | Some(value: T) {
    function GetOr(default: T): T {
      match this
      case Some(v) => v
      case None => default
    }
  }

  /** The errors that leave a service call, by the HTTP status they carry. */
  datatype Error =
    | NotFound      // 404: no row has the requested id
    | Conflict      // 409: another row already has the requested name
    | BadRequest    // 400: a reply's parent comment is on another post
    | Validation    // 422: a request body breaks a field constraint of its schema
    | Integrity     // the store refused a write that breaks a table constraint
    | StorageFault  // commit or rollback of the session itself raised

  datatype Result<+T> = Ok(value: T) | Err(error: Error)
}
