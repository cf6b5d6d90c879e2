/**
 * `/api/surveys` (src/app/api/surveys/route.ts).
 *
 * GET builds one SELECT from the query parameters and runs it: an optional
 * category filter, the owner's name from a LEFT JOIN, the response count
 * from a COUNT subquery, and one of two ORDER BY clauses. It only reads
 * the store, so it is a function of the tables.
 *
 * POST authenticates the `token` cookie, validates the body, checks that
 * the token's user exists, inserts the survey and reads the new row back.
 */
module SurveysRoute {
  import opened Schema
  import opened Http
  import opened Crypto
  import opened Ordering
  import opened Database

  // ---------------------------------------------------------------------
  // GET /api/surveys?category=&sort=
  // ---------------------------------------------------------------------

  /**
   * One result row: `s.*`, `user_name`, and `response_count` from the
   * subquery. The result set then has two columns named `response_count`:
   * the stored one from `s.*` (inside `survey`) and the subquery's count
   * after it. A bare name in ORDER BY binds to the first result column of
   * that name, so `ORDER BY response_count` sorts on the stored column; the
   * row object better-sqlite3 builds keeps the last column of a name, so the
   * client sees the count.
   */
  datatype Listing = Listing(survey: Survey, userName: Option<string>, responseCount: nat)

  /** `WHERE s.category = ?`, added only when the `category` parameter is truthy. */
  predicate InCategory(s: Survey, category: Option<string>) {
    !Filled(category) || s.category == category.value
  }

  function FilterCategory(surveys: seq<Survey>, category: Option<string>): (r: seq<Survey>)
    ensures forall s :: multiset(r)[s] == if InCategory(s, category) then multiset(surveys)[s] else 0
    ensures forall s :: s in r <==> s in surveys && InCategory(s, category)
    ensures |r| <= |surveys|
    ensures !Filled(category) ==> r == surveys
  {
    if surveys == [] then []
    else
      assert surveys == [surveys[0]] + surveys[1..];
      (if InCategory(surveys[0], category) then [surveys[0]] else []) + FilterCategory(surveys[1..], category)
  }

  /** `u.name as user_name` through `LEFT JOIN users u ON s.user_id = u.id`. */
  function OwnerName(users: seq<User>, userId: int): Option<string> {
    match UserById(users, userId)
    case None => None
    case Some(u) => Some(u.name)
  }

  function Listed(t: Tables, s: Survey): Listing {
    Listing(s, OwnerName(t.users, s.userId), ResponseCount(t.responses, s.id))
  }

  /** The selected surveys as result rows, before ORDER BY. */
  function Rows(t: Tables, ss: seq<Survey>): (r: seq<Listing>)
    ensures |r| == |ss|
    ensures forall i :: 0 <= i < |ss| ==> r[i] == Listed(t, ss[i])
    ensures forall l :: l in r <==> l.survey in ss && l == Listed(t, l.survey)
  {
    if ss == [] then []
    else
      var rest := Rows(t, ss[1..]);
      assert ss == [ss[0]] + ss[1..];
      [Listed(t, ss[0])] + rest
  }

  /**
   * `ORDER BY response_count DESC, s.created_at DESC`, where
   * `response_count` names the stored `s.response_count`.
   */
  function PopularKey(l: Listing): Key {
    Key(l.survey.responseCount, l.survey.createdAt)
  }

  /** The same order on the count the client sees. */
  function ShownPopularKey(l: Listing): Key {
    Key(l.responseCount, l.survey.createdAt)
  }

  /** `ORDER BY s.created_at DESC` */
  function LatestKey(l: Listing): Key {
    Key(l.survey.createdAt, 0)
  }

  /** `searchParams.get('sort') || 'latest'` selects the popular order only for `popular`. */
  predicate IsPopular(sort: Option<string>) {
    sort == Some("popular")
  }

  /**
   * The GET handler's result: a permutation of the surveys in the category
   * (all surveys when there is no category), each with its owner's name and
   * its number of response rows, in the order the `sort` parameter selects.
   */
  function List(t: Tables, category: Option<string>, sort: Option<string>): (r: seq<Listing>)
    ensures multiset(r) == multiset(Rows(t, FilterCategory(t.surveys, category)))
    ensures |r| == |FilterCategory(t.surveys, category)|
    ensures forall l :: l in r <==> && l.survey in t.surveys && InCategory(l.survey, category)
                                     && l == Listed(t, l.survey)
    ensures forall l :: l in r ==> l.responseCount == ResponseCount(t.responses, l.survey.id)
    ensures IsPopular(sort) ==> Descending(r, PopularKey)
    ensures !IsPopular(sort) ==> Descending(r, LatestKey)
  {
    var rows := Rows(t, FilterCategory(t.surveys, category));
    var r := if IsPopular(sort) then SortDesc(rows, PopularKey) else SortDesc(rows, LatestKey);
    assert forall l :: l in r <==> l in multiset(r);
    assert forall l :: l in rows <==> l in multiset(rows);
    r
  }

  /** Every stored `response_count` equals the number of response rows naming the survey. */
  ghost predicate CountsInSync(t: Tables) {
    forall s :: s in t.surveys ==> s.responseCount == ResponseCount(t.responses, s.id)
  }

  /**
   * While the stored counts are in sync with the response rows, the popular
   * listing is also ordered by the count the client sees.
   */
  lemma PopularOrderMatchesShownCount(t: Tables, category: Option<string>)
    requires CountsInSync(t)
    ensures Descending(List(t, category, Some("popular")), ShownPopularKey)
  {
    var r := List(t, category, Some("popular"));
    forall i, j | 0 <= i < j < |r| ensures AtLeast(ShownPopularKey(r[i]), ShownPopularKey(r[j])) {
      assert r[i] in r && r[j] in r;
      assert PopularKey(r[i]) == ShownPopularKey(r[i]) && PopularKey(r[j]) == ShownPopularKey(r[j]);
    }
  }

  /**
   * The popular order follows the stored column, not the rows: a survey
   * with two response rows but a stored count of 0 is listed after a newer
   * survey with none, although the client sees counts 2 and 0.
   */
  lemma PopularOrderFollowsStoredCount()
    ensures
      var owner := User(1, "alice", "alice@example.com", "h", 0);
      var older := Survey(1, "a", None, "https://a.example", "arts", 1, 0, 1);
      var newer := Survey(2, "b", None, "https://b.example", "arts", 1, 0, 2);
      var t := Tables([owner], [older, newer], [SurveyResponse(1, 1, 1, 5), SurveyResponse(2, 1, 1, 6)], 1, 2, 2);
      List(t, None, Some("popular")) == [Listing(newer, Some("alice"), 0), Listing(older, Some("alice"), 2)]
  {
    var owner := User(1, "alice", "alice@example.com", "h", 0);
    var older := Survey(1, "a", None, "https://a.example", "arts", 1, 0, 1);
    var newer := Survey(2, "b", None, "https://b.example", "arts", 1, 0, 2);
    var t := Tables([owner], [older, newer], [SurveyResponse(1, 1, 1, 5), SurveyResponse(2, 1, 1, 6)], 1, 2, 2);
    var lo, ln := Listing(older, Some("alice"), 2), Listing(newer, Some("alice"), 0);
    ExampleRows(t, older, newer, lo, ln);
    TwoRowsInOrder(List(t, None, Some("popular")), ln, lo, PopularKey);
  }

  /** The result rows of the two-survey store, before ORDER BY. */
  lemma ExampleRows(t: Tables, older: Survey, newer: Survey, lo: Listing, ln: Listing)
    requires older == Survey(1, "a", None, "https://a.example", "arts", 1, 0, 1)
    requires newer == Survey(2, "b", None, "https://b.example", "arts", 1, 0, 2)
    requires t == Tables([User(1, "alice", "alice@example.com", "h", 0)], [older, newer],
                         [SurveyResponse(1, 1, 1, 5), SurveyResponse(2, 1, 1, 6)], 1, 2, 2)
    requires lo == Listing(older, Some("alice"), 2) && ln == Listing(newer, Some("alice"), 0)
    ensures Rows(t, FilterCategory(t.surveys, None)) == [lo, ln]
  {
    assert ResponseCount(t.responses, 1) == 2;
    assert ResponseCount(t.responses, 2) == 0;
    assert Listed(t, older) == lo && Listed(t, newer) == ln;
    assert FilterCategory(t.surveys, None) == [older, newer];
    var r := Rows(t, [older, newer]);
    assert |r| == 2 && r[0] == lo && r[1] == ln;
    assert r == [lo, ln];
  }

  /** Two rows whose keys differ have one descending order. */
  lemma TwoRowsInOrder<T>(r: seq<T>, a: T, b: T, key: T -> Key)
    requires multiset(r) == multiset{b, a} && Descending(r, key) && !AtLeast(key(b), key(a))
    ensures r == [a, b]
  {
    assert |r| == |multiset(r)| == 2;
    assert r == [r[0], r[1]];
    assert multiset(r) == multiset{r[0], r[1]};
    assert AtLeast(key(r[0]), key(r[1]));
    assert r[0] in multiset(r);
    assert r[0] != b;
  }

  /** In a consistent store the LEFT JOIN always finds the owner. */
  lemma ListedOwnersNamed(t: Tables, category: Option<string>, sort: Option<string>)
    requires Consistent(t)
    ensures forall l :: l in List(t, category, sort) ==>
              && UserById(t.users, l.survey.userId).Some?
              && l.userName == Some(UserById(t.users, l.survey.userId).value.name)
  {
  }

  // ---------------------------------------------------------------------
  // POST /api/surveys
  // ---------------------------------------------------------------------

  /** The destructured body `{ title, description, url, category }`. */
  datatype SurveyForm = SurveyForm(title: Option<string>, description: Option<string>,
                                   url: Option<string>, category: Option<string>) {
    predicate RequiredFilled() {
      Filled(title) && Filled(url) && Filled(category)
    }
  }

  datatype CreateBody = Created(listing: Listing) | Error(error: string)
  datatype CreateResponse = CreateResponse(status: nat, body: CreateBody)

  const AuthRequiredError := "Authentication required"
  const FieldsRequiredError := "Title, URL, and category are required"
  const InvalidUrlError := "Invalid URL format"
  const UserNotFoundError := "User not found"
  const CreateFailedError := "Failed to create survey"

  /** What the checks decide: insert a survey for `owner`, or answer with this error. */
  datatype CreateVerdict =
    | Accept(owner: User, title: string, description: Option<string>, url: string, category: string)
    | Reject(status: nat, error: string)

  /**
   * The checks before the INSERT, in the handler's order. `cookie` is the
   * `token` cookie's value; `body` is `None` when `request.json()` throws;
   * `isUrl` is whether `new URL(url)` parses. A token that fails
   * `jwt.verify` throws, and the catch answers 500.
   */
  function CreateCheck(users: seq<User>, cookie: Option<string>, body: Option<SurveyForm>,
                       jwt: Jwt, isUrl: string -> bool, now: nat): (v: CreateVerdict)
    ensures v.Accept? <==>
              && Filled(cookie) && Verify(jwt, cookie.value, now).Some?
              && body.Some? && body.value.RequiredFilled() && isUrl(body.value.url.value)
              && UserById(users, Verify(jwt, cookie.value, now).value.id).Some?
    ensures v.Accept? ==>
              && v.owner.id == Verify(jwt, cookie.value, now).value.id
              && UserById(users, v.owner.id) == Some(v.owner)
              && v.title == body.value.title.value && v.description == body.value.description
              && v.url == body.value.url.value && v.category == body.value.category.value
              && v.title != "" && v.url != "" && v.category != ""
    ensures !Filled(cookie) ==> v == Reject(UNAUTHORIZED, AuthRequiredError)
    ensures Filled(cookie) && Verify(jwt, cookie.value, now).None? ==> v == Reject(SERVER_ERROR, CreateFailedError)
    ensures Filled(cookie) && Verify(jwt, cookie.value, now).Some? && body.None? ==>
              v == Reject(SERVER_ERROR, CreateFailedError)
    ensures Filled(cookie) && Verify(jwt, cookie.value, now).Some? && body.Some? && !body.value.RequiredFilled() ==>
              v == Reject(BAD_REQUEST, FieldsRequiredError)
    ensures Filled(cookie) && Verify(jwt, cookie.value, now).Some? && body.Some? && body.value.RequiredFilled()
              && !isUrl(body.value.url.value) ==>
              v == Reject(BAD_REQUEST, InvalidUrlError)
    ensures Filled(cookie) && Verify(jwt, cookie.value, now).Some? && body.Some? && body.value.RequiredFilled()
              && isUrl(body.value.url.value) && UserById(users, Verify(jwt, cookie.value, now).value.id).None? ==>
              v == Reject(NOT_FOUND, UserNotFoundError)
    ensures v.Reject? && v.status == BAD_REQUEST ==>
              body.Some? && (!body.value.RequiredFilled() || !isUrl(body.value.url.value))
    ensures v.Reject? && v.status == NOT_FOUND ==>
              && Filled(cookie) && Verify(jwt, cookie.value, now).Some?
              && UserById(users, Verify(jwt, cookie.value, now).value.id).None?
    ensures v.Reject? ==> v.status in {BAD_REQUEST, UNAUTHORIZED, NOT_FOUND, SERVER_ERROR}
  {
    if !Filled(cookie) then Reject(UNAUTHORIZED, AuthRequiredError)
    else match Verify(jwt, cookie.value, now)
      case None => Reject(SERVER_ERROR, CreateFailedError)
      case Some(decoded) =>
        match body
        case None => Reject(SERVER_ERROR, CreateFailedError)
        case Some(f) =>
          if !f.RequiredFilled() then Reject(BAD_REQUEST, FieldsRequiredError)
          else if !isUrl(f.url.value) then Reject(BAD_REQUEST, InvalidUrlError)
          else match UserById(users, decoded.id)
            case None => Reject(NOT_FOUND, UserNotFoundError)
            case Some(u) => Accept(u, f.title.value, f.description, f.url.value, f.category.value)
  }

  /**
   * The POST handler: a rejected request leaves the store as it was; an
   * accepted one appends exactly one survey owned by the token's user, with
   * `response_count` 0, and answers 201 with that row and the owner's name.
   * The INSERT cannot hit the foreign key, because the owner check ran
   * first.
   */
  method Create(db: Store, cookie: Option<string>, body: Option<SurveyForm>, jwt: Jwt,
                isUrl: string -> bool, now: nat) returns (res: CreateResponse)
    requires db.Valid()
    modifies db
    ensures db.Valid()
    ensures CreateCheck(old(db.users), cookie, body, jwt, isUrl, now).Reject? ==>
              var v := CreateCheck(old(db.users), cookie, body, jwt, isUrl, now);
              res == CreateResponse(v.status, Error(v.error)) && db.Snapshot() == old(db.Snapshot())
    ensures CreateCheck(old(db.users), cookie, body, jwt, isUrl, now).Accept? ==>
              var v := CreateCheck(old(db.users), cookie, body, jwt, isUrl, now);
              var s := Survey(old(db.surveySeq) + 1, v.title, v.description, v.url, v.category, v.owner.id, 0, now);
              && db.surveys == old(db.surveys) + [s]
              && db.surveySeq == old(db.surveySeq) + 1
              && db.users == old(db.users) && db.responses == old(db.responses)
              && db.userSeq == old(db.userSeq) && db.responseSeq == old(db.responseSeq)
              && res == CreateResponse(CREATED, Created(Listing(s, Some(v.owner.name), 0)))
  {
    var v := CreateCheck(db.users, cookie, body, jwt, isUrl, now);
    if v.Reject? {
      return CreateResponse(v.status, Error(v.error));
    }
    var r := db.InsertSurvey(v.title, v.description, v.url, v.category, v.owner.id, now);
    assert r.Inserted?;
    // Read the new row back by `lastInsertRowid`, with `0 as response_count`.
    SurveyByIdAppendFresh(old(db.surveys), db.surveys[|db.surveys| - 1]);
    var row := SurveyById(db.surveys, r.rowid);
    assert row.Some?;
    res := CreateResponse(CREATED, Created(Listing(row.value, OwnerName(db.users, row.value.userId), 0)));
  }
}
