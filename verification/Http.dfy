/**
 The HTTP status codes the server answers with.
 */
module Http {
  const OK: int := 200
  const BAD_REQUEST: int := 400
  const INTERNAL_ERROR: int := 500
}
