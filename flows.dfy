/**
 * Properties that span several routes: what one handler leaves in the
 * store, or hands to the client, and what a later handler then does with
 * it.
 */
module Flows {
  import opened Schema
  import opened Http
  import opened Crypto
  import SignupRoute
  import LoginRoute
  import SurveysRoute
  import UserRoute

  /** The `users` table after an accepted signup. */
  function AfterSignup(users: seq<User>, v: SignupRoute.Verdict, hashed: string, id: int, now: nat): seq<User>
    requires v.Accept?
  {
    users + [User(id, v.name, v.email, hashed, now)]
  }

  /**
   * Signing up and then logging in with the same e-mail and password
   * succeeds, answers with the new user, and sets a session cookie for
   * that user's id.
   */
  lemma SignupThenLogin(users: seq<User>, form: SignupRoute.SignupForm, bcrypt: Bcrypt, jwt: Jwt,
                        id: int, signedUpAt: nat, now: nat, production: bool)
    requires AcceptsOwnHash(bcrypt)
    requires SignupRoute.Check(users, Some(form)).Accept?
    ensures var v := SignupRoute.Check(users, Some(form));
            var users' := AfterSignup(users, v, bcrypt.hash(v.password), id, signedUpAt);
            LoginRoute.Login(users', Some(LoginRoute.LoginForm(form.email, form.password)), bcrypt, jwt, now, production)
              == LoginRoute.LoginResponse(OK, LoginRoute.Profile(id, v.name, v.email),
                                          Some(LoginRoute.SessionCookie(Issue(jwt, id, now), production)))
  {
    var v := SignupRoute.Check(users, Some(form));
    var u := User(id, v.name, v.email, bcrypt.hash(v.password), signedUpAt);
    UserByEmailAppendFresh(users, u);
    assert bcrypt.compare(v.password, bcrypt.hash(v.password));
  }

  /**
   * Once an e-mail is registered, no second signup with it is accepted,
   * whatever its name and password; a second request that passes the
   * earlier checks gets the duplicate-e-mail answer.
   */
  lemma SecondSignupRejected(users: seq<User>, first: SignupRoute.SignupForm, second: SignupRoute.SignupForm,
                             hashed: string, id: int, now: nat)
    requires SignupRoute.Check(users, Some(first)).Accept?
    requires second.email == first.email
    ensures var users' := AfterSignup(users, SignupRoute.Check(users, Some(first)), hashed, id, now);
            && SignupRoute.Check(users', Some(second)).Reject?
            && (second.AllFilled() && Utf16Length(second.password.value) >= SignupRoute.MinPasswordLength ==>
                  SignupRoute.Check(users', Some(second))
                    == SignupRoute.Reject(BAD_REQUEST, SignupRoute.DuplicateEmailError))
  {
    var v := SignupRoute.Check(users, Some(first));
    var u := User(id, v.name, v.email, hashed, now);
    UserByEmailAppendFresh(users, u);
  }

  /**
   * The cookie a successful login sets opens the user page for that same
   * user for seven days, also in any later consistent store that still
   * holds the user; from then on the page answers 401.
   */
  lemma LoginSessionOpensUserPage(t: Tables, later: Tables, form: LoginRoute.LoginForm, bcrypt: Bcrypt,
                                  jwt: Jwt, now: nat, at: nat, production: bool)
    requires Consistent(t) && Consistent(later) && t.users <= later.users
    requires RoundTrips(jwt)
    requires LoginRoute.Login(t.users, Some(form), bcrypt, jwt, now, production).status == OK
    ensures var r := LoginRoute.Login(t.users, Some(form), bcrypt, jwt, now, production);
            var page := UserRoute.Get(later, Some(r.cookie.value.value), jwt, at);
            && (at < now + SevenDays ==>
                  page.status == OK && page.body.user == UserRoute.PublicUser(r.body.id, r.body.name, r.body.email))
            && (at >= now + SevenDays ==> page.status == UNAUTHORIZED)
  {
    var u := UserByEmail(t.users, form.email.value).value;
    var i :| 0 <= i < |t.users| && t.users[i] == u;
    assert UserKey(t.users[i]) >= 1;
    assert later.users[i] == u;
    UserByIdUnique(later, u);
    IssuedTokenLifetime(jwt, u.id, now, at);
  }

  /**
   * A survey just inserted by POST /api/surveys is listed by GET
   * /api/surveys under its category, with its owner's name and no
   * responses, whichever order is asked for.
   */
  lemma NewSurveyListed(t: Tables, s: Survey, sort: Option<string>)
    requires Consistent(t) && s.id == t.surveySeq + 1 && UserById(t.users, s.userId).Some?
    ensures var t' := t.(surveys := t.surveys + [s], surveySeq := t.surveySeq + 1);
            SurveysRoute.Listing(s, Some(UserById(t.users, s.userId).value.name), 0)
              in SurveysRoute.List(t', Some(s.category), sort)
  {
    var t' := t.(surveys := t.surveys + [s], surveySeq := t.surveySeq + 1);
    forall x | x in t.responses ensures x.surveyId != s.id {
      var earlier := SurveyById(t.surveys, x.surveyId).value;
      var i :| 0 <= i < |t.surveys| && t.surveys[i] == earlier;
      assert SurveyKey(t.surveys[i]) <= t.surveySeq;
    }
    assert SurveysRoute.Listed(t', s) == SurveysRoute.Listing(s, Some(UserById(t.users, s.userId).value.name), 0);
  }
}
