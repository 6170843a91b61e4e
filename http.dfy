/** The HTTP status codes the JSON endpoints answer with. */
module Http {

  datatype Status = Ok200 | Created201 | NoContent204 | BadRequest400 | Forbidden403 | NotFound404 | Conflict409 | ServerError500

  function Code(s: Status): (c: int)
    ensures 200 <= c <= 500
    ensures c < 300 <==> s.Ok200? || s.Created201? || s.NoContent204?
    ensures c == 500 <==> s.ServerError500?
  {
    match s
    case Ok200 => 200
    case Created201 => 201
    case NoContent204 => 204
    case BadRequest400 => 400
    case Forbidden403 => 403
    case NotFound404 => 404
    case Conflict409 => 409
    case ServerError500 => 500
  }
}
