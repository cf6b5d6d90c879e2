/**
 * `POST /api/auth/login` (src/app/api/auth/login/route.ts): look the user
 * up by exact e-mail, compare the password with bcrypt, and on success sign
 * a seven-day token and set it as the `token` cookie. The handler only
 * reads the store, so it is a function of the `users` table.
 */
module LoginRoute {
  import opened Schema
  import opened Http
  import opened Crypto

  /** The destructured body `{ email, password }`. */
  datatype LoginForm = LoginForm(email: Option<string>, password: Option<string>)

  /** The options passed to `cookies().set`. */
  datatype Cookie = Cookie(name: string, value: string, httpOnly: bool, secure: bool, sameSite: string, maxAge: nat)

  /** A successful login answers with the user's id, name and e-mail and nothing else. */
  datatype LoginBody = Profile(id: int, name: string, email: string) | Error(error: string)

  datatype LoginResponse = LoginResponse(status: nat, body: LoginBody, cookie: Option<Cookie>)

  const MissingCredentialsError := "Email and password are required"
  const InvalidCredentialsError := "Invalid credentials"
  const LoginFailedError := "Failed to login"

  /** `secure` follows `process.env.NODE_ENV === 'production'`. */
  function SessionCookie(token: string, production: bool): Cookie {
    Cookie("token", token, true, production, "lax", SevenDays)
  }

  /** The one answer for an unknown e-mail and for a wrong password alike. */
  const InvalidCredentials := LoginResponse(UNAUTHORIZED, Error(InvalidCredentialsError), None)

  /** The stored user the credentials identify, if the e-mail is known and the password matches. */
  function Authenticated(users: seq<User>, form: LoginForm, bcrypt: Bcrypt): Option<User>
    requires Filled(form.email) && Filled(form.password)
  {
    match UserByEmail(users, form.email.value)
    case None => None
    case Some(u) => if bcrypt.compare(form.password.value, u.password) then Some(u) else None
  }

  /**
   * The handler at time `now`. `body` is `None` when `request.json()`
   * throws; the catch answers 500.
   */
  function Login(users: seq<User>, body: Option<LoginForm>, bcrypt: Bcrypt, jwt: Jwt, now: nat, production: bool)
    : (r: LoginResponse)
    ensures r.status == OK <==>
              && body.Some? && Filled(body.value.email) && Filled(body.value.password)
              && exists u :: u in users && u.email == body.value.email.value
                             && bcrypt.compare(body.value.password.value, u.password)
                             && UserByEmail(users, u.email) == Some(u)
    ensures r.status == OK ==>
              var u := UserByEmail(users, body.value.email.value).value;
              && r.body == Profile(u.id, u.name, u.email)
              && r.cookie == Some(SessionCookie(Issue(jwt, u.id, now), production))
    ensures r.status != OK ==> r.cookie.None? && r.body.Error?
    ensures body.None? ==> r == LoginResponse(SERVER_ERROR, Error(LoginFailedError), None)
    ensures body.Some? && !(Filled(body.value.email) && Filled(body.value.password)) ==>
              r == LoginResponse(BAD_REQUEST, Error(MissingCredentialsError), None)
    ensures body.Some? && Filled(body.value.email) && Filled(body.value.password) && r.status != OK ==>
              r == InvalidCredentials
  {
    match body
    case None => LoginResponse(SERVER_ERROR, Error(LoginFailedError), None)
    case Some(form) =>
      if !Filled(form.email) || !Filled(form.password) then
        LoginResponse(BAD_REQUEST, Error(MissingCredentialsError), None)
      else
        match Authenticated(users, form, bcrypt)
        case None => InvalidCredentials
        case Some(u) =>
          LoginResponse(OK, Profile(u.id, u.name, u.email), Some(SessionCookie(Issue(jwt, u.id, now), production)))
  }

  /**
   * An unknown e-mail and a wrong password for a known one cannot be told
   * apart by the answer.
   */
  lemma UnknownEmailLooksLikeWrongPassword(users: seq<User>, unknown: LoginForm, wrong: LoginForm,
                                           bcrypt: Bcrypt, jwt: Jwt, now: nat, production: bool)
    requires Filled(unknown.email) && Filled(unknown.password)
    requires Filled(wrong.email) && Filled(wrong.password)
    requires forall u :: u in users ==> u.email != unknown.email.value
    requires exists u :: u in users && u.email == wrong.email.value && !bcrypt.compare(wrong.password.value, u.password)
    requires UniqueEmails(users)
    ensures Login(users, Some(unknown), bcrypt, jwt, now, production)
         == Login(users, Some(wrong), bcrypt, jwt, now, production)
         == InvalidCredentials
  {
    var u :| u in users && u.email == wrong.email.value && !bcrypt.compare(wrong.password.value, u.password);
    assert UserByEmail(users, wrong.email.value) == Some(u);
  }
}
