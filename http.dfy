/**
 * What a handler writes back: a status code and a body. JSON encoding is not
 * modelled; each body variant names the JSON object the handler encodes.
 */
module Http {
  import opened Uuids
  import opened Database

  const StatusOK := 200
  const StatusCreated := 201
  const StatusNoContent := 204
  const StatusBadRequest := 400
  const StatusUnauthorized := 401
  const StatusForbidden := 403
  const StatusNotFound := 404
  const StatusInternalServerError := 500

  /** models.User: the public view of a user row, without the password hash. */
  datatype User = User(id: Uuid, createdAt: int, updatedAt: int, email: string, isChirpyRed: bool)

  function Public(row: UserRow): (u: User)
    ensures u.id == row.id && u.email == row.email && u.isChirpyRed == row.isChirpyRed
    ensures u.createdAt == row.createdAt && u.updatedAt == row.updatedAt
  {
    User(row.id, row.createdAt, row.updatedAt, row.email, row.isChirpyRed)
  }

  datatype Body =
    | NoBody
    | ErrorJson(error: string)
    | UserJson(user: User)
    | LoginJson(user: User, token: string, refreshToken: string)
    | TokenJson(token: string)
    | ChirpJson(chirp: Chirp)
    | ChirpsJson(chirps: seq<Chirp>)
    | JsonNull
    | CleanedJson(cleanedBody: string)
    | Text(text: string)
    | MetricsHtml(hits: int)

  datatype Response = Response(status: int, body: Body)

  /**
   * Writing a body under a status: net/http refuses any body for 204 No
   * Content, so whatever the handler encodes is dropped there.
   */
  function Respond(status: int, body: Body): (r: Response)
    ensures r.status == status
    ensures r.body == if status == StatusNoContent then NoBody else body
  {
    Response(status, if status == StatusNoContent then NoBody else body)
  }

  /** utils.RespondWithError: `{"error": msg}` under the given status. */
  function Error(status: int, msg: string): (r: Response)
    ensures r.status == status
    ensures status != StatusNoContent ==> r.body == ErrorJson(msg)
  {
    Respond(status, ErrorJson(msg))
  }
}
