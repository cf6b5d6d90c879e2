/**
 * The shared `db` handle of src/lib/db.ts: one mutable store holding the
 * three tables, with `PRAGMA foreign_keys = ON`. Each insert method models
 * one `INSERT` statement as SQLite executes it: the column defaults are
 * filled in, the constraints are checked, and a statement that would break
 * one changes nothing and fails.
 */
module Database {
  import opened Schema

  /** The outcome of `stmt.run(...)`: the new row's id, or a constraint error thrown. */
  datatype InsertResult = Inserted(rowid: int) | ConstraintFailed

  class Store {
    var users: seq<User>
    var surveys: seq<Survey>
    var responses: seq<SurveyResponse>
    var userSeq: nat
    var surveySeq: nat
    var responseSeq: nat

    /** The current contents of the store as a value. */
    function Snapshot(): Tables
      reads this
    {
      Tables(users, surveys, responses, userSeq, surveySeq, responseSeq)
    }

    ghost predicate Valid()
      reads this
    {
      Consistent(Snapshot())
    }

    /** `CREATE TABLE IF NOT EXISTS` on a fresh database file. */
    constructor ()
      ensures Valid()
      ensures users == [] && surveys == [] && responses == []
      ensures userSeq == 0 && surveySeq == 0 && responseSeq == 0
    {
      users, surveys, responses := [], [], [];
      userSeq, surveySeq, responseSeq := 0, 0, 0;
    }

    /**
     * `INSERT INTO users (name, email, password) VALUES (?, ?, ?)`: fails on
     * the UNIQUE e-mail; otherwise appends a row with the next id.
     */
    method InsertUser(name: string, email: string, password: string, now: nat) returns (r: InsertResult)
      requires Valid()
      modifies this
      ensures Valid()
      ensures r.Inserted? <==> UserByEmail(old(users), email).None?
      ensures r.Inserted? ==>
                && r.rowid == old(userSeq) + 1
                && (forall u :: u in old(users) ==> u.id < r.rowid)
                && users == old(users) + [User(r.rowid, name, email, password, now)]
                && userSeq == old(userSeq) + 1
      ensures r.ConstraintFailed? ==> users == old(users) && userSeq == old(userSeq)
      ensures surveys == old(surveys) && responses == old(responses)
      ensures surveySeq == old(surveySeq) && responseSeq == old(responseSeq)
    {
      if UserByEmail(users, email).Some? {
        return ConstraintFailed;
      }
      var u := User(userSeq + 1, name, email, password, now);
      AddUserConsistent(Snapshot(), u);
      AutoincrementAppend(users, UserKey, userSeq, u);
      users := users + [u];
      userSeq := userSeq + 1;
      r := Inserted(u.id);
    }

    /**
     * `INSERT INTO surveys (title, description, url, category, user_id)`:
     * fails on the foreign key to `users`; otherwise appends a row with the
     * next id and `response_count` at its default, 0.
     */
    method InsertSurvey(title: string, description: Option<string>, url: string, category: string,
                        userId: int, now: nat) returns (r: InsertResult)
      requires Valid()
      modifies this
      ensures Valid()
      ensures r.Inserted? <==> UserById(old(users), userId).Some?
      ensures r.Inserted? ==>
                && r.rowid == old(surveySeq) + 1
                && (forall s :: s in old(surveys) ==> s.id < r.rowid)
                && surveys == old(surveys) + [Survey(r.rowid, title, description, url, category, userId, 0, now)]
                && surveySeq == old(surveySeq) + 1
      ensures r.ConstraintFailed? ==> surveys == old(surveys) && surveySeq == old(surveySeq)
      ensures users == old(users) && responses == old(responses)
      ensures userSeq == old(userSeq) && responseSeq == old(responseSeq)
    {
      if UserById(users, userId).None? {
        return ConstraintFailed;
      }
      var s := Survey(surveySeq + 1, title, description, url, category, userId, 0, now);
      AddSurveyConsistent(Snapshot(), s);
      AutoincrementAppend(surveys, SurveyKey, surveySeq, s);
      surveys := surveys + [s];
      surveySeq := surveySeq + 1;
      r := Inserted(s.id);
    }

    /**
     * `INSERT INTO survey_responses (survey_id, user_id)`: fails on either
     * foreign key; otherwise appends a row with the next id. Nothing rejects
     * a pair that is already present.
     */
    method InsertResponse(surveyId: int, userId: int, now: nat) returns (r: InsertResult)
      requires Valid()
      modifies this
      ensures Valid()
      ensures r.Inserted? <==> SurveyById(old(surveys), surveyId).Some? && UserById(old(users), userId).Some?
      ensures r.Inserted? ==>
                && r.rowid == old(responseSeq) + 1
                && (forall x :: x in old(responses) ==> x.id < r.rowid)
                && responses == old(responses) + [SurveyResponse(r.rowid, surveyId, userId, now)]
                && responseSeq == old(responseSeq) + 1
      ensures r.ConstraintFailed? ==> responses == old(responses) && responseSeq == old(responseSeq)
      ensures users == old(users) && surveys == old(surveys)
      ensures userSeq == old(userSeq) && surveySeq == old(surveySeq)
    {
      if SurveyById(surveys, surveyId).None? || UserById(users, userId).None? {
        return ConstraintFailed;
      }
      var x := SurveyResponse(responseSeq + 1, surveyId, userId, now);
      ghost var t := Snapshot();
      AddResponseConsistent(t, x);
      AutoincrementAppend(responses, ResponseKey, responseSeq, x);
      responses := responses + [x];
      responseSeq := responseSeq + 1;
      assert Snapshot() == t.(responses := t.responses + [x], responseSeq := t.responseSeq + 1);
      r := Inserted(x.id);
    }
  }
}
