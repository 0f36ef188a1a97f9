/**
 * The HTTP errors the endpoints raise (`HTTPException`), as status code,
 * detail text and response headers.
 */
module Http {
  datatype HttpError = HttpError(status: int, detail: string, headers: map<string, string>)

  const BadRequest: int := 400
  const Unauthorized: int := 401
  const InternalServerError: int := 500

  /** The challenge a 401 carries for a bearer-token resource (RFC 6750, section 3). */
  const BearerChallenge: map<string, string> := map["WWW-Authenticate" := "Bearer"]

  /** `get_current_user`: the token did not resolve to a stored user. */
  const CredentialsError: HttpError := HttpError(Unauthorized, "Could not validate credentials", BearerChallenge)

  /** `login`: no such user, or the password does not verify. */
  const LoginError: HttpError := HttpError(Unauthorized, "Incorrect email or password", BearerChallenge)

  /** `create_user`: the email is already in use. */
  const EmailAlreadyRegistered: HttpError := HttpError(BadRequest, "Email already registered", map[])

  /** An exception the endpoint does not handle, such as a database integrity error. */
  const ServerError: HttpError := HttpError(InternalServerError, "Internal Server Error", map[])
}
