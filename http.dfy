/** The shape every handler hands back to express: a status code and a JSON body. */
module Http {

  datatype Response<+B> = Response(status: int, body: B)

  const Ok: int := 200
  const Created: int := 201
  const BadRequest: int := 400
  const Unauthorized: int := 401
  const NotFound: int := 404
  const InternalError: int := 500
}
