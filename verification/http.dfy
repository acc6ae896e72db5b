/** The HTTP-level vocabulary the handlers answer in: a status code and a
    JSON body of one of the shapes the handlers produce, plus the JavaScript
    truthiness test applied to request-body fields. */
module Http {
  import opened Lookup

  datatype Body =
    | ErrorBody(error: string)
    | MessageBody(message: string)
    | TokenBody(token: string)
    | ProfileBody(fullName: string, email: string)

  datatype Response = Response(status: int, body: Body)

  const Ok: int := 200
  const Created: int := 201
  const BadRequest: int := 400
  const Unauthorized: int := 401
  const Forbidden: int := 403
  const NotFound: int := 404
  const ServerError: int := 500

  /** A request-body field: absent (undefined or null) or a string. */
  type Field = Option<string>

  /** JavaScript truthiness of a string field: present and non-empty. */
  predicate Truthy(f: Field) {
    f.Some? && f.value != ""
  }
}
