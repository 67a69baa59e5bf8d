/** The HTTP vocabulary the handlers use: hyper's status codes and header bytes. */
module Http {

  /** The status codes the handlers return (hyper::StatusCode constants). */
  datatype StatusCode =
    | Ok200
    | NoContent204
    | BadRequest400
    | Unauthorized401
    | NotFound404
    | Conflict409
    | InternalServerError500

  /** One octet of a raw header value. */
  newtype Byte = b: int | 0 <= b < 256
}
