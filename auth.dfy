/**
 * The `/api/auth/signup` and `/api/auth/login` handlers as functions from the
 * parsed request body and the outcomes of the library calls they await (bcrypt,
 * the PostgreSQL query, `jwt.sign`) to the reply they send.
 */
module AuthApi {
  import opened Json

  const MissingCredentials := "Missing username or password"
  const SignupFailed := "Signup failed"
  const InvalidCredentials := "Invalid credentials"
  const LoginFailed := "Login failed"

  /** The user as the client sees it: `id`, `username`, `display_name`. */
  datatype PublicUser = PublicUser(id: Json, username: Json, displayName: Json)

  /** A row of the login query, which also carries the stored `password_hash`. */
  datatype UserRow = UserRow(id: Json, username: Json, displayName: Json, passwordHash: Json)

  datatype Body = ErrorBody(error: string) | Session(user: PublicUser, token: string)

  /** The HTTP reply, or none at all when an exception escapes the async handler. */
  datatype Reply = Reply(status: nat, body: Body) | Unanswered

  /** The parameters of the signup `INSERT`. */
  datatype InsertArgs = InsertArgs(username: Field, passwordHash: string, displayName: Field)

  /** Both handlers' guard: `username` and `password` must be truthy. */
  predicate CredentialsPresent(body: map<string, Json>)
    ensures CredentialsPresent(body) ==> "username" in body && "password" in body
    ensures CredentialsPresent(body) ==> body["username"] != JStr("") && body["password"] != JStr("")
  {
    Truthy(Get(body, "username")) && Truthy(Get(body, "password"))
  }

  function MissingReply(): Reply
  {
    Reply(400, ErrorBody(MissingCredentials))
  }

  /**
   * The `INSERT` the signup handler issues, if any: only after the credentials
   * guard and a successful hash, storing the hash (never the password) and
   * `display_name || username`.
   */
  function SignupInsert(body: map<string, Json>, hash: Outcome<string>): (q: Option<InsertArgs>)
    ensures q.Some? <==> CredentialsPresent(body) && hash.Done?
    ensures q.Some? ==> q.value.passwordHash == hash.value && q.value.username == Get(body, "username")
    ensures q.Some? && Truthy(Get(body, "display_name")) ==> q.value.displayName == Get(body, "display_name")
    ensures q.Some? && !Truthy(Get(body, "display_name")) ==> q.value.displayName == Get(body, "username")
  {
    if CredentialsPresent(body) && hash.Done? then
      Some(InsertArgs(Get(body, "username"), hash.value, Or(Get(body, "display_name"), Get(body, "username"))))
    else None
  }

  /**
   * The `try` block of signup after the insert: `result.rows[0]` (a `TypeError`
   * when no row came back) and `jwt.sign`; any exception becomes a 500.
   */
  function SignupStore(insert: Outcome<seq<PublicUser>>, sign: Outcome<string>): (r: Reply)
    ensures r.Reply? && (r.status == 200 || r.status == 500)
    ensures r.status == 200 <==> insert.Done? && insert.value != [] && sign.Done?
    ensures r.status == 200 ==> r.body == Session(insert.value[0], sign.value)
    ensures r.status == 500 ==> r.body == ErrorBody(SignupFailed)
  {
    match insert
    case Threw => Reply(500, ErrorBody(SignupFailed))
    case Done(rows) =>
      if rows == [] then Reply(500, ErrorBody(SignupFailed))
      else
        match sign
        case Threw => Reply(500, ErrorBody(SignupFailed))
        case Done(token) => Reply(200, Session(rows[0], token))
  }

  /**
   * Signup as written: `bcrypt.hash` is awaited before the `try`, so its rejection
   * escapes the handler and no reply is sent. `db` answers the insert it is given.
   */
  function SignupAsWritten(body: map<string, Json>, hash: Outcome<string>,
                           db: InsertArgs -> Outcome<seq<PublicUser>>, sign: Outcome<string>): (r: Reply)
    ensures r.Unanswered? <==> CredentialsPresent(body) && hash.Threw?
    ensures !CredentialsPresent(body) ==> r == MissingReply()
    ensures SignupInsert(body, hash).Some? ==> r == SignupStore(db(SignupInsert(body, hash).value), sign)
  {
    if !CredentialsPresent(body) then MissingReply()
    else if hash.Threw? then Unanswered
    else SignupStore(db(SignupInsert(body, hash).value), sign)
  }

  /** Signup with the hash inside the `try`: every request is answered, a failed hash with 500. */
  function Signup(body: map<string, Json>, hash: Outcome<string>,
                  db: InsertArgs -> Outcome<seq<PublicUser>>, sign: Outcome<string>): (r: Reply)
    ensures r.Reply? && (r.status == 200 || r.status == 400 || r.status == 500)
    ensures r.status == 400 <==> !CredentialsPresent(body)
    ensures r.status == 400 ==> r.body == ErrorBody(MissingCredentials)
    ensures r.status == 200 <==>
              var q := SignupInsert(body, hash);
              q.Some? && db(q.value).Done? && db(q.value).value != [] && sign.Done?
    ensures r.status == 200 ==> r.body == Session(db(SignupInsert(body, hash).value).value[0], sign.value)
    ensures r.status == 500 ==> r.body == ErrorBody(SignupFailed)
    ensures !SignupAsWritten(body, hash, db, sign).Unanswered? ==> r == SignupAsWritten(body, hash, db, sign)
  {
    if !CredentialsPresent(body) then MissingReply()
    else if hash.Threw? then Reply(500, ErrorBody(SignupFailed))
    else SignupStore(db(SignupInsert(body, hash).value), sign)
  }

  /**
   * Both signup handlers depend on the database only through the one insert they
   * issue: two databases that answer that insert alike give the same reply.
   */
  lemma SignupDependsOnlyOnIssuedInsert(body: map<string, Json>, hash: Outcome<string>,
                                        db1: InsertArgs -> Outcome<seq<PublicUser>>,
                                        db2: InsertArgs -> Outcome<seq<PublicUser>>, sign: Outcome<string>)
    requires SignupInsert(body, hash).Some? ==> db1(SignupInsert(body, hash).value) == db2(SignupInsert(body, hash).value)
    ensures Signup(body, hash, db1, sign) == Signup(body, hash, db2, sign)
    ensures SignupAsWritten(body, hash, db1, sign) == SignupAsWritten(body, hash, db2, sign)
  {
  }

  /** A password that is not a string makes bcrypt reject; as written the request then goes unanswered. */
  lemma SignupNonStringPasswordUnanswered(db: InsertArgs -> Outcome<seq<PublicUser>>, sign: Outcome<string>)
    ensures var body := map["username" := JStr("alice"), "password" := JNum(123.0)];
            SignupAsWritten(body, Threw, db, sign) == Unanswered &&
            Signup(body, Threw, db, sign) == Reply(500, ErrorBody(SignupFailed))
  {
  }

  /**
   * Login: 400 without credentials; inside the `try`, 401 when no row matches or the
   * password does not match, 500 when the query, the comparison or `jwt.sign` throws,
   * and otherwise the user without its hash and a fresh token.
   */
  function Login(body: map<string, Json>, query: Outcome<seq<UserRow>>,
                 compare: Outcome<bool>, sign: Outcome<string>): (r: Reply)
    ensures r.Reply? && (r.status == 200 || r.status == 400 || r.status == 401 || r.status == 500)
    ensures r.status == 400 <==> !CredentialsPresent(body)
    ensures r.status == 400 ==> r.body == ErrorBody(MissingCredentials)
    ensures r.status == 401 <==>
              CredentialsPresent(body) && query.Done? && (query.value == [] || compare == Done(false))
    ensures r.status == 401 ==> r.body == ErrorBody(InvalidCredentials)
    ensures r.status == 500 <==>
              CredentialsPresent(body) &&
              (query.Threw? || (query.value != [] && (compare.Threw? || (compare == Done(true) && sign.Threw?))))
    ensures r.status == 500 ==> r.body == ErrorBody(LoginFailed)
    ensures r.status == 200 <==>
              CredentialsPresent(body) && query.Done? && query.value != [] && compare == Done(true) && sign.Done?
    ensures r.status == 200 ==>
              var row := query.value[0];
              r.body == Session(PublicUser(row.id, row.username, row.displayName), sign.value)
  {
    if !CredentialsPresent(body) then MissingReply()
    else
      match query
      case Threw => Reply(500, ErrorBody(LoginFailed))
      case Done(rows) =>
        if rows == [] then Reply(401, ErrorBody(InvalidCredentials))
        else
          match compare
          case Threw => Reply(500, ErrorBody(LoginFailed))
          case Done(valid) =>
            if !valid then Reply(401, ErrorBody(InvalidCredentials))
            else
              match sign
              case Threw => Reply(500, ErrorBody(LoginFailed))
              case Done(token) =>
                var user := rows[0];
                Reply(200, Session(PublicUser(user.id, user.username, user.displayName), token))
  }

  /** An unknown username and a wrong password get the same reply. */
  lemma LoginHidesWhichCheckFailed(body: map<string, Json>, row: UserRow, rows: seq<UserRow>,
                                   compare: Outcome<bool>, sign: Outcome<string>, sign': Outcome<string>)
    requires CredentialsPresent(body)
    ensures Login(body, Done([]), compare, sign) == Login(body, Done([row] + rows), Done(false), sign')
  {
  }
}
