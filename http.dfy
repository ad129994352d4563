/** What the route handlers see of an HTTP exchange: the authenticated user
    the token middleware attached, the client, the request line, and the
    status/body pairs they answer with. */
module Http {
  import opened Common
  import opened Database

  /** The JWT payload `{ id, username, role }` a login signs. */
  datatype Claims = Claims(id: nat, username: string, role: Role)

  /** A signed token: its payload and validity window (`expiresIn: '24h'`).
      The signature itself is not modelled. */
  datatype Token = Token(payload: Claims, issuedAt: int, expiresAt: int)

  const TokenLifetime: int := 24 * 60 * 60

  function Sign(claims: Claims, now: int): (t: Token)
    ensures t.payload == claims && t.expiresAt - t.issuedAt == TokenLifetime
  {
    Token(claims, now, now + TokenLifetime)
  }

  /** The request as the audit wrapper reads it: `req.user` (set by the token
      middleware, absent on public routes), `req.ip`, the `user-agent` header
      ("" when absent), `req.method` and `req.path`. */
  datatype Request = Request(user: Option<Claims>, ip: string, userAgent: string, httpMethod: string, path: string)

  /** `authenticateToken` and `requireAdmin` let the request through: a
      verified token whose role is admin. */
  predicate AdminCaller(req: Request) { req.user.Some? && req.user.value.role == Admin }

  /** A bound SQL parameter. */
  datatype Param = Text(text: string) | Int(number: int)

  /** One entry of express-validator's `errors.array()`: the field and its
      message. */
  datatype FieldError = FieldError(field: string, msg: string)

  /** One validator of an express-validator chain, applied to the request:
      whether its field passed, and the error it records when not. */
  datatype Validator = Validator(ok: bool, error: FieldError)

  /** What `validationResult(req)` collects from a chain: the error of every
      failing validator, in the chain's order. */
  function Reported(chain: seq<Validator>): (errs: seq<FieldError>)
    ensures |errs| <= |chain|
    ensures errs == [] <==> forall i :: 0 <= i < |chain| ==> chain[i].ok
    ensures forall e :: e in errs <==> exists i :: 0 <= i < |chain| && !chain[i].ok && chain[i].error == e
  {
    if chain == [] then []
    else (if chain[0].ok then [] else [chain[0].error]) + Reported(chain[1..])
  }

  /** The answer of a read-only route: its data, or an error status with the
      `{ error }` message. */
  datatype Outcome<T> = Ok(value: T) | Fail(status: int, error: string)

  const OK: int := 200
  const CREATED: int := 201
  const BAD_REQUEST: int := 400
  const UNAUTHORIZED: int := 401
  const NOT_FOUND: int := 404
  const SERVER_ERROR: int := 500
}
