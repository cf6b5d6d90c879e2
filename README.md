# Survey-sharing app: store and route handlers in Dafny

This project models the server side of a small survey-sharing web app. Users sign up and log in. They post links to surveys under a category. They browse the surveys by category and by popularity, and they see their own surveys and the surveys they have answered.

All state lives in one SQLite database with three tables: `users`, `surveys` and `survey_responses`. Each HTTP route runs a fixed sequence of checks and then at most one read or one write on that store. The model covers:

- **Schema** (`schema.dfy`): the three row types and the store as a value (`Tables`). It defines the lookups the handlers run (`WHERE id = ?`, `WHERE email = ?`, `COUNT(*)`). `Consistent` collects every constraint the schema declares: AUTOINCREMENT ids, unique e-mail, and the three foreign keys. NOT NULL columns are fields of plain types. The nullable text column `description` is an `Option`, because POST /api/surveys writes NULL into it when the body omits it. `response_count` and every `created_at` also lack NOT NULL. They get plain types because every INSERT leaves them to their defaults, which are never NULL. There is deliberately no uniqueness on `(survey_id, user_id)`.
- **Database** (`database.dfy`): the shared `db` handle, as a class `Store` with one `seq` field per table, AUTOINCREMENT counters, and `Valid()`. Each insert method behaves like SQLite with `foreign_keys = ON`. It fills in the defaults (`response_count` 0). It takes the next id, which is greater than every id assigned before. If the insert would break the UNIQUE or FOREIGN KEY constraint, it fails and changes nothing.
- **Crypto** (`crypto.dfy`): bcrypt and jsonwebtoken are not modelled as algorithms. Each is a capability value made of functions, and the facts the routes rely on are stated as predicates:
  - a password matches its own hash;
  - a signed token decodes to its claims.
  
  `Verify` adds jsonwebtoken's expiry rule: a token is rejected once the clock reaches `exp`.
- **EmailFormat** (`email.dfy`): the signup pattern `^[^\s@]+@[^\s@]+\.[^\s@]+$`, where `\s` is ECMAScript whitespace. A lemma proves it equivalent to an independent description: no whitespace, exactly one `@` (counted with a multiset), a non-empty local part, and a dot in the domain with a character on each side.
- **Ordering** (`ordering.dfy`): `ORDER BY a DESC, b DESC` as a sort whose contract is "keys do not increase, and the result is a permutation of the input".
- **Routes**:
  - `signup.dfy`: the validation chain as a function `Check`, and the handler `Signup` that inserts the user.
  - `login.dfy`: `Login`, a function of the `users` table, because the route only reads.
  - `surveys.dfy`: GET as the function `List`, and POST as `CreateCheck` followed by the method `Create`.
  - `user.dfy`: GET as the function `Get`.
- **Flows** (`flows.dfy`): properties that span routes:
  - signing up and then logging in succeeds;
  - a second signup with the same e-mail is rejected;
  - the login cookie opens the user page for exactly seven days;
  - a newly created survey is listed with zero responses.

Inputs that the handlers read from the environment are parameters:

- the request body is an `Option`. `None` means either that `json()` threw, or that the body was JSON `null`, so destructuring it threw. Either way the route answers 500;
- the `token` cookie value;
- the clock `now`, in seconds, which also stands in for `CURRENT_TIMESTAMP`;
- `NODE_ENV === 'production'` as a boolean;
- the result of `new URL(url)` as a predicate `isUrl`.

A route that only reads is a function of the tables, so it cannot change the store. A route that writes (`SignupRoute.Signup`, `SurveysRoute.Create`) is a module-level method that takes the `Store` and modifies it, and its contract states the whole new state.

Notes on what the code does:

- The code declares no uniqueness for `(survey_id, user_id)`.
- `POST /api/surveys` answers 500, not 401, when the token fails verification, including when it has expired. `GET /api/user` answers 401 in the same case.
- `GET /api/surveys` selects both `s.*` and a `COUNT(*)` subquery aliased `response_count`, so the result has two columns of that name. A bare name in ORDER BY binds to the first result column of that name, so `sort=popular` orders by the stored `surveys.response_count`. better-sqlite3 keeps the last column of a name in the row object, so the client sees the counted rows. The two orders agree while every stored count equals the number of response rows (`SurveysRoute.PopularOrderMatchesShownCount`). `SurveysRoute.PopularOrderFollowsStoredCount` gives a store where they differ.
- The category is any string. The route does not enforce an enumeration.

## Model

| member | source | states |
|---|---|---|
| Schema.UserById | src/app/api/user/route.ts:32 | `SELECT ... FROM users WHERE id = ?` returns a row of the table with that id. It returns nothing exactly when no row has that id. |
| Schema.UserByEmail | src/app/api/auth/signup/route.ts:41 | `SELECT * FROM users WHERE email = ?` is an exact match. It returns a row with that e-mail, or nothing exactly when no row has it. When e-mails are unique, it returns the one user with that e-mail. |
| Schema.SurveyById | src/app/api/surveys/route.ts:126-134 | The read-back `WHERE s.id = ?` returns a survey with that id, or nothing exactly when none has it. |
| Schema.ResponseCount | src/app/api/surveys/route.ts:37 | `COUNT(*)` of the response rows for a survey is the number of times its id occurs in the `survey_id` column. It is at most the table size, and zero exactly when no row names that survey. |
| Schema.AutoincrementAppend | src/lib/db.ts:16 | The next AUTOINCREMENT id is greater than every id in the table. Ids stay increasing and bounded by the sequence counter. |
| Schema.AddUserConsistent | src/lib/db.ts:15-21 | Appending a user whose e-mail is new, with the next id, keeps every schema constraint. This includes unique e-mail and the foreign keys that point to users. |
| Schema.AddSurveyConsistent | src/lib/db.ts:23-33 | Appending a survey whose `user_id` exists, with the next id, keeps every schema constraint. |
| Schema.AddResponseConsistent | src/lib/db.ts:35-42 | Appending a response whose survey and user exist, with the next id, keeps every schema constraint. |
| Schema.UserByIdUnique | src/lib/db.ts:16 | Primary-key ids are unique, so the id lookup finds the one user with that id. |
| Schema.SurveyByIdUnique | src/lib/db.ts:24 | Survey ids are unique, so the id lookup finds the one survey with that id. |
| Schema.RepeatedResponsePairAllowed | src/lib/db.ts:35-42 | A store with two response rows for the same `(survey_id, user_id)` satisfies every constraint. |
| Database.Store.constructor | src/lib/db.ts:14-43 | Creating the tables yields an empty, consistent store. |
| Database.Store.InsertUser | src/lib/db.ts:15-21 | The INSERT fails exactly when the e-mail is taken. Otherwise it appends one row with id `seq + 1`, above all earlier ids. The other tables are unchanged and the store stays valid. |
| Database.Store.InsertSurvey | src/lib/db.ts:23-33 | The INSERT fails exactly when `user_id` names no user. Otherwise it appends one row with the next id and `response_count` 0. Nothing else changes. |
| Database.Store.InsertResponse | src/lib/db.ts:35-42 | The INSERT fails exactly when the survey or the user is missing, and an existing pair never makes it fail. Otherwise it appends one row with the next id. |
| Crypto.ExpiryIsPermanent | src/app/api/user/route.ts:14 | A well-signed token that `jwt.verify` rejects at some time stays rejected at every later time. A token it accepts is accepted, with the same claims, at every earlier time. |
| Crypto.IssuedTokenLifetime | src/app/api/auth/login/route.ts:41 | A token signed at `now` with `expiresIn: '7d'` verifies to its user's id exactly while `later < now + 604800`. |
| EmailFormat.FirstIndex | src/app/api/auth/signup/route.ts:22 | Returns the first index of a character, or the length when the character is absent. |
| EmailFormat.EmailRegexIffShape | src/app/api/auth/signup/route.ts:22-23 | The regex accepts a string exactly when it has no whitespace, exactly one `@` with something before it, and a dot in the domain with a character on each side. |
| EmailFormat.SplitHasShape | src/app/api/auth/signup/route.ts:22 | Any A@B.C whose parts match `[^\s@]+` has that shape. |
| Ordering.InsertDesc | src/app/api/surveys/route.ts:49-52 | Inserting into a descending sequence keeps it descending, and the result holds the old rows plus the new one. |
| Ordering.SortDesc | src/app/api/surveys/route.ts:49-52 | `ORDER BY ... DESC` yields a permutation of the rows whose keys do not increase. |
| Http.Utf16Length | src/app/api/auth/signup/route.ts:32 | JavaScript `.length` is the number of code points plus the number of code points above U+FFFF. So it lies between the code-point count and twice that, and equals the code-point count exactly when no character is above U+FFFF. |
| SignupRoute.Check | src/app/api/auth/signup/route.ts:13-49 | Signup is accepted exactly when name, e-mail and password are non-empty, the e-mail is well formed, the password has at least 6 UTF-16 units, and the e-mail is not taken. Otherwise the first failing check, in that order, decides the 400 answer. An unreadable body gives 500. |
| SignupRoute.Signup | src/app/api/auth/signup/route.ts:51-64 | A rejected request leaves the store unchanged. An accepted one appends exactly one user with the next id, the given name and e-mail, and `hash(password)`, then answers 201. For requests handled one at a time, the INSERT never fails. |
| LoginRoute.Login | src/app/api/auth/login/route.ts:9-63 | 200 exactly when a user has that e-mail and the password matches its hash. The body is then exactly id, name and e-mail, and the cookie is `token` with the signed 7-day token, HTTP-only, `lax`, max-age 604800. Empty fields give 400. Every other failure gives one 401 `Invalid credentials`. An unreadable body gives 500 `Failed to login` with no cookie. |
| LoginRoute.UnknownEmailLooksLikeWrongPassword | src/app/api/auth/login/route.ts:21-39 | An unknown e-mail and a wrong password for a known e-mail get identical answers. |
| SurveysRoute.FilterCategory | src/app/api/surveys/route.ts:44-47 | Keeps each survey whose category equals the parameter, as often as it occurs, and drops every other survey. A missing or empty parameter keeps all surveys. |
| SurveysRoute.Rows | src/app/api/surveys/route.ts:33-40 | The i-th result row belongs to the i-th selected survey, carrying the owner name from the LEFT JOIN and the counted responses. |
| SurveysRoute.List | src/app/api/surveys/route.ts:27-59 | Returns a permutation of the surveys in the category, each with `response_count` equal to its number of response rows. With `sort=popular` it is ordered by the stored `response_count` descending, then `created_at` descending. Otherwise it is ordered by `created_at` descending. |
| SurveysRoute.PopularOrderMatchesShownCount | src/app/api/surveys/route.ts:49-50 | When every stored `response_count` equals the survey's number of response rows, the popular listing is also ordered by the count the client sees. |
| SurveysRoute.PopularOrderFollowsStoredCount | src/app/api/surveys/route.ts:35-37 | For a store where an older survey has two response rows but a stored count of 0, the popular listing puts the newer survey, with no rows, first. |
| SurveysRoute.ListedOwnersNamed | src/app/api/surveys/route.ts:36-39 | In a consistent store, every listed survey's `user_name` is its owner's name. |
| SurveysRoute.CreateCheck | src/app/api/surveys/route.ts:72-115 | The checks, in order. A missing cookie gives 401. A failed verify gives 500. With a verified token: an unreadable body gives 500, then missing title, url or category gives 400, then an unparseable URL gives 400, then an unknown token user gives 404. Acceptance happens exactly when all checks pass, with the owner being the token's user. |
| SurveysRoute.Create | src/app/api/surveys/route.ts:117-138 | A rejected request leaves the store unchanged. An accepted one appends exactly one survey owned by `decoded.id` with the given fields and `response_count` 0, then answers 201 with that row and the owner's name. |
| UserRoute.SessionOfIssuedToken | src/app/api/user/route.ts:9-19 | `getUserId` on a cookie set at login returns that user's id for seven days and null after that. A missing or empty cookie gives null. |
| UserRoute.OwnedBy | src/app/api/user/route.ts:43-47 | Keeps each survey with `user_id = userId`, as often as it occurs, and drops every other survey. |
| UserRoute.RowsOf | src/app/api/user/route.ts:50-56 | Keeps each response row with `user_id = userId`, as often as it occurs, and drops every other row. |
| UserRoute.Joined | src/app/api/user/route.ts:51-53 | Every joined entry is a survey of the store, paired with the `created_at` of a response row naming it. |
| UserRoute.JoinedKeepsEveryRow | src/app/api/user/route.ts:51-53 | When every row's survey exists, the join has one entry per row, in row order. |
| UserRoute.Get | src/app/api/user/route.ts:22-70 | No session, or id 0, gives 401. An unknown id gives 404. Otherwise the answer is 200 with only id, name and e-mail, the user's own surveys ordered by `created_at` descending, and the joined responses ordered by the response's `created_at` descending. |
| UserRoute.PageListsEveryResponse | src/app/api/user/route.ts:50-56 | For a valid session of an existing user with a nonzero id, in a consistent store, the page has exactly one entry per response row of the user, repeated pairs included. |
| Flows.SignupThenLogin | src/app/api/auth/signup/route.ts:52-58 | After an accepted signup, logging in with the same e-mail and password answers 200 with the new user and a token for its id. |
| Flows.SecondSignupRejected | src/app/api/auth/signup/route.ts:41-49 | After an accepted signup, no signup with that e-mail is accepted, whatever the password. One that passes the earlier checks gets the duplicate-e-mail 400. |
| Flows.LoginSessionOpensUserPage | src/app/api/auth/login/route.ts:41-49 | The login cookie opens the user page for that same user while less than 604800 seconds have passed. After that the page answers 401. |
| Flows.NewSurveyListed | src/app/api/surveys/route.ts:118-121 | A survey just inserted appears in the listing for its category with its owner's name and a response count of 0, for either sort. |

## Left out

- The React views, the layout and the client-side `fetch` calls are presentation code.
- `src/models/Survey.ts` is a Mongoose schema that no SQLite handler uses, so its category enumeration is not enforced anywhere modelled.
- The handlers for `POST /api/surveys/{id}/respond` and `GET`/`DELETE /api/surveys/{id}` are not part of this model. `Database.Store.InsertResponse` gives only the table-level INSERT they rely on. The model has no delete, so AUTOINCREMENT's "never reuse a deleted id" reduces to "the next id is the counter plus one".
- bcrypt and jsonwebtoken are foreign cryptography. The model assumes only that a password matches its own hash, and that a signed token is non-empty and decodes to its claims. bcrypt's random salt, its 72-byte input limit, and token formats other than `{ id, iat, exp }` are not modelled.
- `new URL(url)` is the WHATWG URL parser, which is not visible here. It is the parameter `isUrl`.
- Request and response objects, JSON parsing (only "parsed or threw"), cookies as HTTP headers, `process.env`, `console.log` and the database file path are not modelled. Request fields are optional strings; a non-string JSON value in a field is not modelled.
- `CURRENT_TIMESTAMP` is a natural number supplied by the caller. The order of rows with equal sort keys is unspecified in SQL. The model picks one order, and its contracts claim only what every admissible order shares.
- `getUserId` in src/app/api/surveys/route.ts:9-24 reads `decoded.userId`, but tokens carry `id`. No handler calls it, so it is not modelled.
- The stored `surveys.response_count` column is written only by the respond route. That route inserts the response row and then increments the count (src/app/api/surveys/[id]/respond/route.ts:53-63), which keeps `SurveysRoute.CountsInSync` true. The route itself is not modelled. `Database.Store.InsertResponse` does not touch the stored count.
- 500 answers from exceptions other than an unreadable body or a failed `jwt.verify` are not modelled. These include disk errors, exhausted AUTOINCREMENT, and types that SQLite cannot bind. The model proves that the INSERTs the routes issue never violate a constraint.
- There is no concurrency. Every statement runs synchronously in better-sqlite3, but signup awaits `bcrypt.hash` (src/app/api/auth/signup/route.ts:52) between the duplicate check (line 41) and the INSERT (line 56). Two concurrent signups with one e-mail can both pass the check. The second INSERT then violates UNIQUE and the route answers 500. The model handles requests one at a time.
- Signup hashes with `bcryptjs` (src/app/api/auth/signup/route.ts:2) and login compares with native `bcrypt` (src/app/api/auth/login/route.ts:3). One `Bcrypt` capability stands for both, so `AcceptsOwnHash` assumes the two libraries agree on the hash format.
- JSON strings may carry lone UTF-16 surrogates (`"\ud800"`), which a Dafny `string` of Unicode scalar values cannot hold. Request fields containing them are not modelled, and neither is their effect on `.length` or the e-mail pattern.
- UserRoute.Joined: SQL would emit one row per survey with a matching id. The model joins each response row to the first such survey. The two agree because survey ids are unique.
