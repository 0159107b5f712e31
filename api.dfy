/**
 * The API's error type, its messages and HTTP responses, and the guard
 * that turns a request into the authenticated user.
 */
module Api {
  import opened Base
  import Decimal
  import opened Uuid
  import opened Models
  import Jwt

  // HTTP status codes
  const BadRequestStatus: nat := 400
  const UnauthorizedStatus: nat := 401
  const InternalServerErrorStatus: nat := 500
  const ServiceUnavailableStatus: nat := 503

  const PlainText: string := "text/plain; charset=utf-8"

  /**
   * `api::Error`. The report carried by `InternalServerError` and
   * `ExternalDependencyFailed`, and the B2 error carried by `Backblaze`,
   * are represented by the text they format to.
   */
  datatype Error =
    | Database(db: DbError)
    | BadOrNoAuth
    | LackPermissions
    | InternalServerError(why: string)
    | ExternalDependencyFailed(why: string)
    | Backblaze(why: string)
    | IncorrectFilecount(wanted: nat)

  /** `Display` for the database errors the model produces. */
  function DbMessage(e: DbError): string
  {
    match e
    case NotFound => "Record not found"
    case UniqueViolation(message) => message
  }

  const FilecountPrefix: string := "incorrect number of files uploaded (wanted "

  /** `Display` for `Error`, as its `#[error]` attributes write it. */
  function Message(e: Error): string
  {
    match e
    case Database(db) => "internal database error: " + DbMessage(db)
    case BadOrNoAuth => "bad or no authorization"
    case LackPermissions => "you lack needed permissions"
    case InternalServerError(why) => "internal server error: " + why
    case ExternalDependencyFailed(why) => "external dependency failed: " + why
    case Backblaze(why) => "backblaze error: " + why
    case IncorrectFilecount(n) => FilecountPrefix + Decimal.Show(n) + ")"
  }

  datatype Response = Response(status: nat, contentType: string, body: string)

  /** `Responder::respond_to` for `Error`. */
  function RespondTo(e: Error): Response
  {
    match e
    case Database(db) => Response(InternalServerErrorStatus, PlainText, DbMessage(db))
    case BadOrNoAuth => Response(UnauthorizedStatus, PlainText, Message(e))
    case LackPermissions => Response(UnauthorizedStatus, PlainText, Message(e))
    case InternalServerError(why) => Response(InternalServerErrorStatus, PlainText, why)
    case ExternalDependencyFailed(why) => Response(InternalServerErrorStatus, PlainText, why)
    case Backblaze(why) => Response(InternalServerErrorStatus, PlainText, "b2 error: " + why)
    case IncorrectFilecount(_) => Response(BadRequestStatus, PlainText, Message(e))
  }

  /** Reads the wanted count back out of an incorrect-file-count body. */
  function WantedCount(body: string): Option<nat>
  {
    if |body| > |FilecountPrefix| && IsPrefix(FilecountPrefix, body) && body[|body| - 1] == ')'
    then Decimal.Parse(body[|FilecountPrefix|..|body| - 1])
    else None
  }

  /** The status table: 400 only for a wrong file count, 401 only for the two auth errors, 500 for the rest. */
  lemma RespondToStatus(e: Error)
    ensures RespondTo(e).contentType == PlainText
    ensures RespondTo(e).status == BadRequestStatus <==> e.IncorrectFilecount?
    ensures RespondTo(e).status == UnauthorizedStatus <==> (e.BadOrNoAuth? || e.LackPermissions?)
    ensures RespondTo(e).status == InternalServerErrorStatus
        <==> (e.Database? || e.InternalServerError? || e.ExternalDependencyFailed? || e.Backblaze?)
  {
  }

  /** The 400 body names the wanted count, and it can be read back from it. */
  lemma IncorrectFilecountBody(n: nat)
    ensures RespondTo(IncorrectFilecount(n)).status == BadRequestStatus
    ensures RespondTo(IncorrectFilecount(n)).body == Message(IncorrectFilecount(n))
    ensures WantedCount(RespondTo(IncorrectFilecount(n)).body) == Some(n)
  {
    var body := FilecountPrefix + Decimal.Show(n) + ")";
    Decimal.ParseShow(n);
    assert body[..|FilecountPrefix|] == FilecountPrefix;
    assert body[|FilecountPrefix|..|body| - 1] == Decimal.Show(n);
  }

  /** The tables `jwt::verify` reads through the pooled connection. */
  datatype Connection = Connection(tokens: map<Uuid, Token>, users: map<Uuid, User>)

  /** A request guard's outcome: the user, or a failure status. */
  datatype AuthOutcome = Authenticated(user: User) | Rejected(status: nat)

  function Check(token: string, unsign: Jwt.Unsigner, conn: Connection): AuthOutcome
  {
    match Jwt.Verify(token, unsign, conn.tokens, conn.users)
    case Ok(u) => Authenticated(u)
    case Err(_) => Rejected(UnauthorizedStatus)
  }

  /**
   * `FromRequest for models::User`. `authorization` holds the values of
   * every `authorization` header, `pool` the connection the database guard
   * hands out (`None` when it fails), `cookie` the private `token` cookie.
   */
  function FromRequest(authorization: seq<string>, pool: Option<Connection>, cookie: Option<string>,
                       unsign: Jwt.Unsigner): AuthOutcome
  {
    match pool
    case None => Rejected(ServiceUnavailableStatus)
    case Some(conn) =>
      if |authorization| == 0 then
        (match cookie
         case None => Rejected(UnauthorizedStatus)
         case Some(tok) => Check(tok, unsign, conn))
      else if |authorization| == 1 then Check(authorization[0], unsign, conn)
      else Rejected(BadRequestStatus)
  }

  /** The token a request presents: its one header, else the cookie when there is no header. */
  function Presented(authorization: seq<string>, cookie: Option<string>): Option<string>
  {
    if |authorization| == 0 then cookie
    else if |authorization| == 1 then Some(authorization[0])
    else None
  }

  /**
   * A request authenticates as `u` exactly when the database is available,
   * it carries at most one header, and the token it presents passes
   * `verify` as `u`, that is, its signed claims admit `u`.
   */
  lemma FromRequestAuthenticates(authorization: seq<string>, pool: Option<Connection>, cookie: Option<string>,
                                 unsign: Jwt.Unsigner, u: User)
    ensures FromRequest(authorization, pool, cookie, unsign) == Authenticated(u)
        <==> && pool.Some? && |authorization| <= 1 && Presented(authorization, cookie).Some?
             && var tok := Presented(authorization, cookie).value;
                unsign(tok).Some? && Jwt.Admits(unsign(tok).value, pool.value.tokens, pool.value.users, u)
  {
    var out := FromRequest(authorization, pool, cookie, unsign);
    if pool.Some? && Presented(authorization, cookie).Some? && |authorization| <= 1 {
      var tok := Presented(authorization, cookie).value;
      Jwt.VerifyIff(tok, unsign, pool.value.tokens, pool.value.users, u);
      assert out == Check(tok, unsign, pool.value);
    }
  }

  /**
   * How the guard fails: 503 without a connection; 400 for two or more
   * headers, before any token is looked at; 401 for a missing cookie or a
   * token `verify` turns down. A single header is used and the cookie
   * ignored.
   */
  lemma FromRequestRejects(authorization: seq<string>, pool: Option<Connection>, cookie: Option<string>,
                           unsign: Jwt.Unsigner)
    ensures pool.None? ==> FromRequest(authorization, pool, cookie, unsign) == Rejected(ServiceUnavailableStatus)
    ensures pool.Some? && |authorization| >= 2 ==> FromRequest(authorization, pool, cookie, unsign) == Rejected(BadRequestStatus)
    ensures pool.Some? && |authorization| == 0 && cookie.None?
        ==> FromRequest(authorization, pool, cookie, unsign) == Rejected(UnauthorizedStatus)
    ensures |authorization| == 1
        ==> FromRequest(authorization, pool, cookie, unsign) == FromRequest(authorization, pool, None, unsign)
    ensures pool.Some? && Presented(authorization, cookie).Some?
            && Jwt.Verify(Presented(authorization, cookie).value, unsign, pool.value.tokens, pool.value.users).Err?
        ==> FromRequest(authorization, pool, cookie, unsign) == Rejected(UnauthorizedStatus)
    ensures FromRequest(authorization, pool, cookie, unsign).Rejected?
        ==> FromRequest(authorization, pool, cookie, unsign).status in {BadRequestStatus, UnauthorizedStatus, ServiceUnavailableStatus}
  {
  }
}
