/**
 * The three tables of the SQLite store (src/lib/db.ts): their row types,
 * the lookups the route handlers run against them, and the integrity
 * constraints the schema declares (NOT NULL, UNIQUE, FOREIGN KEY,
 * AUTOINCREMENT, DEFAULT 0).
 *
 * NOT NULL columns are fields of plain types; the one nullable text column,
 * `surveys.description`, is an Option. Timestamps (`created_at`, whose
 * default is CURRENT_TIMESTAMP) are naturals supplied by the caller.
 */
module Schema {

  datatype Option<T> = None | Some(value: T)

  /** A row of `users`; `password` holds the bcrypt hash, never the plaintext. */
  datatype User = User(id: int, name: string, email: string, password: string, createdAt: nat)

  /** A row of `surveys`; `responseCount` is the stored `response_count` column. */
  datatype Survey = Survey(
    id: int,
    title: string,
    description: Option<string>,
    url: string,
    category: string,
    userId: int,
    responseCount: int,
    createdAt: nat)

  /** A row of `survey_responses`. */
  datatype SurveyResponse = SurveyResponse(id: int, surveyId: int, userId: int, createdAt: nat)

  /**
   * The whole store: the three tables in rowid order, and for each table the
   * largest id AUTOINCREMENT has ever handed out (SQLite's `sqlite_sequence`).
   */
  datatype Tables = Tables(
    users: seq<User>,
    surveys: seq<Survey>,
    responses: seq<SurveyResponse>,
    userSeq: nat,
    surveySeq: nat,
    responseSeq: nat)

  // ---------------------------------------------------------------------
  // Lookups (`SELECT ... WHERE col = ?`, first matching row).
  // ---------------------------------------------------------------------

  function UserById(users: seq<User>, id: int): (r: Option<User>)
    ensures r.Some? ==> r.value in users && r.value.id == id
    ensures r.None? <==> forall u :: u in users ==> u.id != id
  {
    if users == [] then None
    else if users[0].id == id then Some(users[0])
    else UserById(users[1..], id)
  }

  /**
   * Under the UNIQUE constraint on `email` the lookup finds the one user
   * with that e-mail.
   */
  function UserByEmail(users: seq<User>, email: string): (r: Option<User>)
    ensures r.Some? ==> r.value in users && r.value.email == email
    ensures r.None? <==> forall u :: u in users ==> u.email != email
    ensures UniqueEmails(users) ==> forall u :: u in users && u.email == email ==> r == Some(u)
  {
    if users == [] then None
    else if users[0].email == email then Some(users[0])
    else
      assert forall i, j :: 0 <= i < j < |users[1..]| ==> users[1..][i] == users[i + 1] && users[1..][j] == users[j + 1];
      UserByEmail(users[1..], email)
  }

  function SurveyById(surveys: seq<Survey>, id: int): (r: Option<Survey>)
    ensures r.Some? ==> r.value in surveys && r.value.id == id
    ensures r.None? <==> forall s :: s in surveys ==> s.id != id
  {
    if surveys == [] then None
    else if surveys[0].id == id then Some(surveys[0])
    else SurveyById(surveys[1..], id)
  }

  /**
   * `SELECT COUNT(*) FROM survey_responses WHERE survey_id = ?`: how often
   * `surveyId` occurs in the table's `survey_id` column.
   */
  function ResponseCount(responses: seq<SurveyResponse>, surveyId: int): (n: nat)
    ensures n == multiset(seq(|responses|, i requires 0 <= i < |responses| => responses[i].surveyId))[surveyId]
    ensures n <= |responses|
    ensures n == 0 <==> forall r :: r in responses ==> r.surveyId != surveyId
  {
    if responses == [] then 0
    else
      var column := seq(|responses|, i requires 0 <= i < |responses| => responses[i].surveyId);
      var rest := seq(|responses[1..]|, i requires 0 <= i < |responses[1..]| => responses[1..][i].surveyId);
      assert column == [responses[0].surveyId] + rest;
      (if responses[0].surveyId == surveyId then 1 else 0) + ResponseCount(responses[1..], surveyId)
  }

  // ---------------------------------------------------------------------
  // Integrity constraints.
  // ---------------------------------------------------------------------

  /**
   * `id INTEGER PRIMARY KEY AUTOINCREMENT`: every id is positive, at most the
   * largest id ever assigned, and rows appear in increasing id order.
   */
  ghost predicate Autoincremented<T>(rows: seq<T>, id: T -> int, last: nat) {
    && (forall i :: 0 <= i < |rows| ==> 1 <= id(rows[i]) <= last)
    && (forall i, j :: 0 <= i < j < |rows| ==> id(rows[i]) < id(rows[j]))
  }

  function UserKey(u: User): int { u.id }
  function SurveyKey(s: Survey): int { s.id }
  function ResponseKey(r: SurveyResponse): int { r.id }

  /** `email TEXT UNIQUE`. */
  ghost predicate UniqueEmails(users: seq<User>) {
    forall i, j :: 0 <= i < j < |users| ==> users[i].email != users[j].email
  }

  /** `FOREIGN KEY (user_id) REFERENCES users(id)` on `surveys`. */
  ghost predicate OwnersExist(users: seq<User>, surveys: seq<Survey>) {
    forall s :: s in surveys ==> UserById(users, s.userId).Some?
  }

  /**
   * The two foreign keys of `survey_responses`. There is no uniqueness on
   * `(survey_id, user_id)`: the same pair may occur in several rows.
   */
  ghost predicate ResponseRefsExist(users: seq<User>, surveys: seq<Survey>, responses: seq<SurveyResponse>) {
    forall r :: r in responses ==> SurveyById(surveys, r.surveyId).Some? && UserById(users, r.userId).Some?
  }

  /** Everything the schema declares, over one state of the store. */
  ghost predicate Consistent(t: Tables) {
    && Autoincremented(t.users, UserKey, t.userSeq)
    && Autoincremented(t.surveys, SurveyKey, t.surveySeq)
    && Autoincremented(t.responses, ResponseKey, t.responseSeq)
    && UniqueEmails(t.users)
    && OwnersExist(t.users, t.surveys)
    && ResponseRefsExist(t.users, t.surveys, t.responses)
  }

  // ---------------------------------------------------------------------
  // Facts about the lookups over a table that grows by one row.
  // ---------------------------------------------------------------------

  lemma {:induction false} UserByIdAppend(users: seq<User>, u: User, id: int)
    requires UserById(users, id).Some?
    ensures UserById(users + [u], id) == UserById(users, id)
  {
    if users[0].id != id {
      assert (users + [u])[1..] == users[1..] + [u];
      UserByIdAppend(users[1..], u, id);
    }
  }

  lemma {:induction false} SurveyByIdAppend(surveys: seq<Survey>, s: Survey, id: int)
    requires SurveyById(surveys, id).Some?
    ensures SurveyById(surveys + [s], id) == SurveyById(surveys, id)
  {
    if surveys[0].id != id {
      assert (surveys + [s])[1..] == surveys[1..] + [s];
      SurveyByIdAppend(surveys[1..], s, id);
    }
  }

  /** A row whose key no earlier row has is what the lookup finds after it is appended. */
  lemma {:induction false} UserByEmailAppendFresh(users: seq<User>, u: User)
    requires UserByEmail(users, u.email).None?
    ensures UserByEmail(users + [u], u.email) == Some(u)
  {
    if users != [] {
      assert (users + [u])[1..] == users[1..] + [u];
      UserByEmailAppendFresh(users[1..], u);
    }
  }

  lemma {:induction false} SurveyByIdAppendFresh(surveys: seq<Survey>, s: Survey)
    requires SurveyById(surveys, s.id).None?
    ensures SurveyById(surveys + [s], s.id) == Some(s)
  {
    if surveys != [] {
      assert (surveys + [s])[1..] == surveys[1..] + [s];
      SurveyByIdAppendFresh(surveys[1..], s);
    }
  }

  /** Ids in a table are unique, so the id lookup finds the one row with that id. */
  lemma UserByIdUnique(t: Tables, u: User)
    requires Autoincremented(t.users, UserKey, t.userSeq) && u in t.users
    ensures UserById(t.users, u.id) == Some(u)
  {
    var r := UserById(t.users, u.id);
    var i :| 0 <= i < |t.users| && t.users[i] == u;
    var j :| 0 <= j < |t.users| && t.users[j] == r.value;
    assert i == j;
  }

  lemma SurveyByIdUnique(t: Tables, s: Survey)
    requires Autoincremented(t.surveys, SurveyKey, t.surveySeq) && s in t.surveys
    ensures SurveyById(t.surveys, s.id) == Some(s)
  {
    var r := SurveyById(t.surveys, s.id);
    var i :| 0 <= i < |t.surveys| && t.surveys[i] == s;
    var j :| 0 <= j < |t.surveys| && t.surveys[j] == r.value;
    assert i == j;
  }

  // ---------------------------------------------------------------------
  // Every successful INSERT keeps the store consistent.
  // ---------------------------------------------------------------------

  /** The next AUTOINCREMENT id is above every id in the table and keeps the ids ordered. */
  lemma AutoincrementAppend<T>(rows: seq<T>, id: T -> int, last: nat, x: T)
    requires Autoincremented(rows, id, last) && id(x) == last + 1
    ensures Autoincremented(rows + [x], id, last + 1)
    ensures forall v :: v in rows ==> id(v) < id(x)
  {
    var r := rows + [x];
    assert forall i :: 0 <= i < |rows| ==> r[i] == rows[i];
    forall v | v in rows ensures id(v) < id(x) {
      var i :| 0 <= i < |rows| && rows[i] == v;
    }
  }

  lemma AddUserConsistent(t: Tables, u: User)
    requires Consistent(t) && u.id == t.userSeq + 1 && UserByEmail(t.users, u.email).None?
    ensures Consistent(t.(users := t.users + [u], userSeq := t.userSeq + 1))
  {
    var t' := t.(users := t.users + [u], userSeq := t.userSeq + 1);
    AutoincrementAppend(t.users, UserKey, t.userSeq, u);
    assert forall i :: 0 <= i < |t.users| ==> t'.users[i] == t.users[i];
    forall s | s in t.surveys ensures UserById(t'.users, s.userId).Some? {
      UserByIdAppend(t.users, u, s.userId);
    }
    forall x | x in t.responses ensures UserById(t'.users, x.userId).Some? {
      UserByIdAppend(t.users, u, x.userId);
    }
  }

  lemma AddSurveyConsistent(t: Tables, s: Survey)
    requires Consistent(t) && s.id == t.surveySeq + 1 && UserById(t.users, s.userId).Some?
    ensures Consistent(t.(surveys := t.surveys + [s], surveySeq := t.surveySeq + 1))
  {
    var t' := t.(surveys := t.surveys + [s], surveySeq := t.surveySeq + 1);
    AutoincrementAppend(t.surveys, SurveyKey, t.surveySeq, s);
    forall x | x in t.responses ensures SurveyById(t'.surveys, x.surveyId).Some? {
      SurveyByIdAppend(t.surveys, s, x.surveyId);
    }
  }

  lemma AddResponseConsistent(t: Tables, x: SurveyResponse)
    requires Consistent(t) && x.id == t.responseSeq + 1
    requires SurveyById(t.surveys, x.surveyId).Some? && UserById(t.users, x.userId).Some?
    ensures Consistent(t.(responses := t.responses + [x], responseSeq := t.responseSeq + 1))
  {
    AutoincrementAppend(t.responses, ResponseKey, t.responseSeq, x);
  }

  /**
   * The schema does not forbid a user answering the same survey twice: a
   * store holding two rows with the same `(survey_id, user_id)` satisfies
   * every constraint.
   */
  lemma RepeatedResponsePairAllowed()
    ensures
      var alice := User(1, "alice", "alice@example.com", "h", 0);
      var survey := Survey(1, "t", None, "https://example.com", "arts", 1, 0, 0);
      var t := Tables([alice], [survey],
                      [SurveyResponse(1, 1, 1, 5), SurveyResponse(2, 1, 1, 6)], 1, 1, 2);
      Consistent(t) && t.responses[0].surveyId == t.responses[1].surveyId
        && t.responses[0].userId == t.responses[1].userId
  {
  }
}
