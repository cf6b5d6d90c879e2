/**
 * `POST /api/auth/signup` (src/app/api/auth/signup/route.ts): a chain of
 * early-return checks on the request body, then one `INSERT` into `users`
 * with the bcrypt hash in place of the password.
 */
module SignupRoute {
  import opened Schema
  import opened Http
  import opened EmailFormat
  import opened Crypto
  import opened Database

  /** The destructured body `{ name, email, password }`; `None` for a missing field. */
  datatype SignupForm = SignupForm(name: Option<string>, email: Option<string>, password: Option<string>) {
    predicate AllFilled() {
      Filled(name) && Filled(email) && Filled(password)
    }
  }

  datatype SignupBody = Message(message: string) | Error(error: string)
  datatype SignupResponse = SignupResponse(status: nat, body: SignupBody)

  const MissingFieldsError := "이름, 이메일, 비밀번호는 필수 입력 항목입니다."
  const BadEmailError := "올바른 이메일 형식이 아닙니다."
  const ShortPasswordError := "비밀번호가 너무 짧습니다!"
  const DuplicateEmailError := "이미 등록된 이메일입니다."
  const SignupFailedError := "회원가입 중 오류가 발생했습니다."
  const SignupDoneMessage := "회원가입이 완료되었습니다."

  const MinPasswordLength: nat := 6

  /** What the checks decide: insert these fields, or answer with this error. */
  datatype Verdict = Accept(name: string, email: string, password: string) | Reject(status: nat, error: string)

  /**
   * The validation chain, in the order the handler runs it. `body` is
   * `None` when `req.json()` throws, which the handler's catch turns into
   * a 500.
   */
  function Check(users: seq<User>, body: Option<SignupForm>): (v: Verdict)
    ensures v.Accept? <==>
              && body.Some? && body.value.AllFilled()
              && EmailShape(body.value.email.value)
              && Utf16Length(body.value.password.value) >= MinPasswordLength
              && UserByEmail(users, body.value.email.value).None?
    ensures v.Accept? ==>
              v == Accept(body.value.name.value, body.value.email.value, body.value.password.value)
    // The first failing check decides the answer.
    ensures body.None? ==> v == Reject(SERVER_ERROR, SignupFailedError)
    ensures body.Some? && !body.value.AllFilled() ==> v == Reject(BAD_REQUEST, MissingFieldsError)
    ensures body.Some? && body.value.AllFilled() && !EmailShape(body.value.email.value) ==>
              v == Reject(BAD_REQUEST, BadEmailError)
    ensures body.Some? && body.value.AllFilled() && EmailShape(body.value.email.value)
            && Utf16Length(body.value.password.value) < MinPasswordLength ==>
              v == Reject(BAD_REQUEST, ShortPasswordError)
    ensures body.Some? && body.value.AllFilled() && EmailShape(body.value.email.value)
            && Utf16Length(body.value.password.value) >= MinPasswordLength
            && UserByEmail(users, body.value.email.value).Some? ==>
              v == Reject(BAD_REQUEST, DuplicateEmailError)
  {
    match body
    case None => Reject(SERVER_ERROR, SignupFailedError)
    case Some(f) =>
      if !f.AllFilled() then Reject(BAD_REQUEST, MissingFieldsError)
      else
        EmailRegexIffShape(f.email.value);
        if !MatchesEmailRegex(f.email.value) then Reject(BAD_REQUEST, BadEmailError)
        else if Utf16Length(f.password.value) < MinPasswordLength then Reject(BAD_REQUEST, ShortPasswordError)
        else if UserByEmail(users, f.email.value).Some? then Reject(BAD_REQUEST, DuplicateEmailError)
        else Accept(f.name.value, f.email.value, f.password.value)
  }

  /**
   * The handler: a rejected request leaves the store as it was; an accepted
   * one appends exactly one user, holding `bcrypt.hash(password)`, and
   * answers 201. The INSERT cannot hit the UNIQUE constraint, because the
   * duplicate check ran first.
   */
  method Signup(db: Store, body: Option<SignupForm>, bcrypt: Bcrypt, now: nat) returns (res: SignupResponse)
    requires db.Valid()
    modifies db
    ensures db.Valid()
    ensures Check(old(db.users), body).Reject? ==>
              && res == SignupResponse(Check(old(db.users), body).status, Error(Check(old(db.users), body).error))
              && db.Snapshot() == old(db.Snapshot())
    ensures Check(old(db.users), body).Accept? ==>
              var v := Check(old(db.users), body);
              && res == SignupResponse(CREATED, Message(SignupDoneMessage))
              && db.users == old(db.users) + [User(old(db.userSeq) + 1, v.name, v.email, bcrypt.hash(v.password), now)]
              && db.userSeq == old(db.userSeq) + 1
              && db.surveys == old(db.surveys) && db.responses == old(db.responses)
              && db.surveySeq == old(db.surveySeq) && db.responseSeq == old(db.responseSeq)
  {
    var v := Check(db.users, body);
    if v.Reject? {
      return SignupResponse(v.status, Error(v.error));
    }
    var hashed := bcrypt.hash(v.password);
    var r := db.InsertUser(v.name, v.email, hashed, now);
    assert r.Inserted?;
    res := SignupResponse(CREATED, Message(SignupDoneMessage));
  }
}
