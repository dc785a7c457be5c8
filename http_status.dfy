/** The HTTP status codes the to-do servers answer with. */
module HttpStatus {
  const OK := 200
  const Created := 201
  const NoContent := 204
  const NotFound := 404
}
