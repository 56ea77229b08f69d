/** The HTTP status codes the route handlers answer with. */
module Http {

  /** 200, 400, 401, 404 and 500. */
  datatype Status = Ok | BadRequest | Unauthorized | NotFound | InternalError
}
