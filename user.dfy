/**
 * `GET /api/user` (src/app/api/user/route.ts): resolve the `token` cookie
 * to a user id, look the user up, and return the user's own surveys and the
 * surveys the user has responded to, each with its own ordering. The
 * handler only reads the store, so it is a function of the tables.
 */
module UserRoute {
  import opened Schema
  import opened Http
  import opened Crypto
  import opened Ordering

  /**
   * `getUserId`: the verified token's `id`, or null when the cookie is
   * missing or empty or `jwt.verify` throws (bad signature, malformed,
   * expired).
   */
  function SessionUserId(cookie: Option<string>, jwt: Jwt, now: nat): (r: Option<int>)
    ensures r.Some? <==> Filled(cookie) && Verify(jwt, cookie.value, now).Some?
    ensures r.Some? ==> r.value == Verify(jwt, cookie.value, now).value.id
  {
    if !Filled(cookie) then None
    else match Verify(jwt, cookie.value, now)
      case None => None
      case Some(decoded) => Some(decoded.id)
  }

  /**
   * The cookie a login sets names its user for seven days and no one after
   * that; a missing or empty cookie names no one.
   */
  lemma SessionOfIssuedToken(jwt: Jwt, id: int, issuedAt: nat, now: nat)
    requires RoundTrips(jwt)
    ensures SessionUserId(Some(Issue(jwt, id, issuedAt)), jwt, now)
              == if now < issuedAt + SevenDays then Some(id) else None
    ensures SessionUserId(None, jwt, now) == None && SessionUserId(Some(""), jwt, now) == None
  {
    IssuedTokenLifetime(jwt, id, issuedAt, now);
  }

  /** `SELECT id, name, email FROM users`: the password hash is not selected. */
  datatype PublicUser = PublicUser(id: int, name: string, email: string)

  /** A row of `SELECT s.*, sr.created_at as responded_at`. */
  datatype Responded = Responded(survey: Survey, respondedAt: nat)

  datatype UserBody =
    | Page(user: PublicUser, surveys: seq<Survey>, responses: seq<Responded>)
    | Error(error: string)

  datatype UserResponse = UserResponse(status: nat, body: UserBody)

  const AuthRequiredError := "Authentication required"
  const UserNotFoundError := "User not found"

  /** `SELECT * FROM surveys WHERE user_id = ?` before ORDER BY. */
  function OwnedBy(surveys: seq<Survey>, userId: int): (r: seq<Survey>)
    ensures forall s :: multiset(r)[s] == if s.userId == userId then multiset(surveys)[s] else 0
    ensures forall s :: s in r <==> s in surveys && s.userId == userId
    ensures |r| <= |surveys|
  {
    if surveys == [] then []
    else
      assert surveys == [surveys[0]] + surveys[1..];
      (if surveys[0].userId == userId then [surveys[0]] else []) + OwnedBy(surveys[1..], userId)
  }

  /** The rows of `survey_responses` with `sr.user_id = ?`, in table order. */
  function RowsOf(responses: seq<SurveyResponse>, userId: int): (r: seq<SurveyResponse>)
    ensures forall x :: multiset(r)[x] == if x.userId == userId then multiset(responses)[x] else 0
    ensures forall x :: x in r <==> x in responses && x.userId == userId
    ensures |r| <= |responses|
  {
    if responses == [] then []
    else
      assert responses == [responses[0]] + responses[1..];
      (if responses[0].userId == userId then [responses[0]] else []) + RowsOf(responses[1..], userId)
  }

  /**
   * `surveys s JOIN survey_responses sr ON s.id = sr.survey_id` over the
   * given response rows, before ORDER BY: each row joined to its survey.
   */
  function Joined(surveys: seq<Survey>, rows: seq<SurveyResponse>): (r: seq<Responded>)
    ensures |r| <= |rows|
    ensures forall x :: x in r ==>
              && x.survey in surveys
              && exists row :: row in rows && row.surveyId == x.survey.id && row.createdAt == x.respondedAt
  {
    if rows == [] then []
    else
      var rest := Joined(surveys, rows[1..]);
      assert forall row :: row in rows[1..] ==> row in rows;
      match SurveyById(surveys, rows[0].surveyId)
      case None => rest
      case Some(s) => [Responded(s, rows[0].createdAt)] + rest
  }

  /** When every row's survey exists, the join keeps every row, in order. */
  lemma {:induction false} JoinedKeepsEveryRow(surveys: seq<Survey>, rows: seq<SurveyResponse>)
    requires forall row :: row in rows ==> SurveyById(surveys, row.surveyId).Some?
    ensures |Joined(surveys, rows)| == |rows|
    ensures forall i :: 0 <= i < |rows| ==>
              Joined(surveys, rows)[i] == Responded(SurveyById(surveys, rows[i].surveyId).value, rows[i].createdAt)
  {
    if rows != [] {
      assert forall row :: row in rows[1..] ==> row in rows;
      JoinedKeepsEveryRow(surveys, rows[1..]);
      assert rows[0] in rows;
      var r := Joined(surveys, rows);
      assert r == [Responded(SurveyById(surveys, rows[0].surveyId).value, rows[0].createdAt)] + Joined(surveys, rows[1..]);
      forall i | 0 < i < |rows|
        ensures r[i] == Responded(SurveyById(surveys, rows[i].surveyId).value, rows[i].createdAt)
      {
        assert rows[i] == rows[1..][i - 1];
      }
    }
  }

  /** `ORDER BY created_at DESC` */
  function CreatedKey(s: Survey): Key {
    Key(s.createdAt, 0)
  }

  /** `ORDER BY sr.created_at DESC` */
  function RespondedKey(x: Responded): Key {
    Key(x.respondedAt, 0)
  }

  /**
   * The handler. `if (!userId)` also rejects a verified token whose id is
   * 0, which is falsy in JavaScript.
   */
  function Get(t: Tables, cookie: Option<string>, jwt: Jwt, now: nat): (r: UserResponse)
    ensures r.status in {OK, UNAUTHORIZED, NOT_FOUND}
    ensures r.status == UNAUTHORIZED <==> SessionUserId(cookie, jwt, now) in {None, Some(0)}
    ensures r.status == UNAUTHORIZED ==> r.body == Error(AuthRequiredError)
    ensures r.status == NOT_FOUND <==>
              && SessionUserId(cookie, jwt, now).Some? && SessionUserId(cookie, jwt, now).value != 0
              && UserById(t.users, SessionUserId(cookie, jwt, now).value).None?
    ensures r.status == NOT_FOUND ==> r.body == Error(UserNotFoundError)
    ensures r.status == OK ==>
              var id := SessionUserId(cookie, jwt, now).value;
              var u := UserById(t.users, id).value;
              && r.body.Page?
              && r.body.user == PublicUser(u.id, u.name, u.email)
              && (forall s :: s in r.body.surveys <==> s in t.surveys && s.userId == id)
              && multiset(r.body.surveys) == multiset(OwnedBy(t.surveys, id))
              && Descending(r.body.surveys, CreatedKey)
              && multiset(r.body.responses) == multiset(Joined(t.surveys, RowsOf(t.responses, id)))
              && Descending(r.body.responses, RespondedKey)
  {
    match SessionUserId(cookie, jwt, now)
    case None => UserResponse(UNAUTHORIZED, Error(AuthRequiredError))
    case Some(userId) =>
      if userId == 0 then UserResponse(UNAUTHORIZED, Error(AuthRequiredError))
      else match UserById(t.users, userId)
        case None => UserResponse(NOT_FOUND, Error(UserNotFoundError))
        case Some(u) =>
          var surveys := SortDesc(OwnedBy(t.surveys, userId), CreatedKey);
          var responses := SortDesc(Joined(t.surveys, RowsOf(t.responses, userId)), RespondedKey);
          assert forall s :: s in surveys <==> s in multiset(surveys);
          UserResponse(OK, Page(PublicUser(u.id, u.name, u.email), surveys, responses))
  }

  /**
   * In a consistent store every response row of the user appears in the
   * page, joined to its survey: one entry per row, repeated pairs included.
   */
  lemma PageListsEveryResponse(t: Tables, cookie: Option<string>, jwt: Jwt, now: nat, id: int)
    requires Consistent(t)
    requires SessionUserId(cookie, jwt, now) == Some(id) && id != 0 && UserById(t.users, id).Some?
    ensures var page := Get(t, cookie, jwt, now).body;
            && |page.responses| == |RowsOf(t.responses, id)|
            && forall row :: row in t.responses && row.userId == id ==>
                 Responded(SurveyById(t.surveys, row.surveyId).value, row.createdAt) in page.responses
  {
    var rows := RowsOf(t.responses, id);
    var page := Get(t, cookie, jwt, now).body;
    JoinedKeepsEveryRow(t.surveys, rows);
    var joined := Joined(t.surveys, rows);
    assert |page.responses| == |multiset(page.responses)| == |multiset(joined)| == |joined|;
    forall row | row in t.responses && row.userId == id
      ensures Responded(SurveyById(t.surveys, row.surveyId).value, row.createdAt) in page.responses
    {
      var i :| 0 <= i < |rows| && rows[i] == row;
      assert joined[i] in multiset(joined);
    }
  }
}
