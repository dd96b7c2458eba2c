# Content management backend: verified model of the core

This project models the core of a small REST backend for articles and users.
The database is replaced by in-memory tables.

- **Article service.** `getArticles`, `getArticleById`, `createArticle`, `updateArticle` and `deleteArticle` run over a table of articles.
  - The table is a map from id to row, held by the class `ArticleService.ArticleTable`.
  - Listing pins the pagination arithmetic: page clamped to at least 1, limit to at most 100, `skip = (page-1)*limit`, `totalPages = ceil(total/limit)`.
  - It also pins the status and substring filters and the newest-first order.
  - Each state change is a pure step function `(result, new table)`. The class method is proved equal to it, and the frame properties are proved about the step function.
- **Auth service.** `register` is the method `AuthService.UserTable.Register`, which inserts into the user table held by that class. `login` changes nothing, so it is the pure function `AuthService.Login` of the user map. Password hashing, password comparison and token signing are function parameters.
- **Authentication middleware.** It checks the `Authorization` header, takes the token after `"Bearer "`, verifies it and looks up the user. Then it either sets `req.user` to the user's projection and calls `next`, or answers with one of three 401 responses. Token verification is a function parameter.
- **Error handler.** An ordered classification of the thrown value into a status and a failure body:
  - a validation error;
  - the ORM codes P2002 and P2025;
  - a service `statusCode`;
  - the catch-all.
- **Validators.** The article and auth request schemas, written as predicates over a request record (body, query, params). The email format check is a parameter.

Modules follow the source layout:
- `Common`: shared types;
- `Strings`: prefix test, substring search, decimal rendering;
- `Schema`: field constraints and `parseInt` of digit strings;
- `ArticleService`, `AuthService`, `Authenticate`, `ErrorHandler`, `ArticleValidator`, `AuthValidator`.

Modelling choices:
- **Creation order.** Every row gets its `createdAt` from a strictly increasing logical clock. Stamps are therefore distinct, and "order by `createdAt` descending" determines exactly one sequence (`NewestFirstUnique`).
- **Fresh ids.** The UUID the database generates is a parameter, with the precondition that it is not already in the table.
- **Search.** The `search` filter is plain, case-sensitive substring containment. Case sensitivity actually depends on the database engine. An empty search term is falsy in the source, adds no clause, and so matches everything.
- **`limit = 0`.** `?limit=0` passes validation and reaches the service as 0. The source then computes `Math.ceil(total / 0)`, which is `Infinity` or `NaN` and is written to JSON as `null`. The model returns `totalPages == None` in exactly this case and adds no lower clamp.
- **`NODE_ENV`.** The error handler reads `process.env.NODE_ENV` directly, not the configuration's default of `development`. An unset variable therefore hides the message; the parameter is an `Option<string>`.
- **`operational` flag.** The 403 ownership error carries an `operational` flag that the error handler never reads. Its message is echoed because it has a `statusCode`, like every service error (`ErrorHandler.ServiceErrorsEchoed`). It is not echoed because of the flag.

## Model

| member | source | states |
|---|---|---|
| ArticleService.PageNumber | src/services/article.service.js:7-9 | the page used is at least 1 whatever was requested |
| ArticleService.LimitNumber | src/services/article.service.js:7-10 | the limit used never exceeds `maxLimit` (100) |
| ArticleService.ClampsKeepSaneRequests | src/services/article.service.js:7-10 | pages ≥ 1 and limits ≤ 100 pass unchanged; page 0 becomes 1; larger limits become 100; the defaults are 1 and 10; no lower clamp on the limit |
| ArticleService.CeilDiv | src/services/article.service.js:54 | the quotient is the least q with total ≤ q·limit |
| ArticleService.TotalPages | src/services/article.service.js:54 | `totalPages` is absent (JSON null) exactly when the limit is 0; otherwise it is the ceiling of total/limit |
| ArticleService.Window | src/services/article.service.js:29-33 | `skip`/`take` select `min(take, n-skip)` rows, the i-th being row `skip+i` of the ordered result |
| ArticleService.FilterMeaning | src/services/article.service.js:14-25 | an article matches the built `where` iff it has the given status and contains the given term in its title or its content |
| ArticleService.NoFilterMatchesAll | src/services/article.service.js:14-25 | without status and with no (or an empty) search term every article matches |
| ArticleService.SortNewestFirst | src/services/article.service.js:33 | a set of rows with distinct stamps can be arranged strictly newest first, with the same elements and length |
| ArticleService.NewestFirstUnique | src/services/article.service.js:33 | two newest-first sequences of the same rows are equal, so the order is determined |
| ArticleService.InsertByStamp | src/services/article.service.js:33 | inserting a row into a newest-first sequence keeps it newest first and adds exactly that row |
| ArticleService.OrderedMatching | src/services/article.service.js:29-33 | the matching rows ordered newest first: exactly the table's rows that satisfy the filter |
| ArticleService.ListProperties | src/services/article.service.js:7-57 | page ≥ 1, limit ≤ 100, at most `limit` rows, each a matching table row, newest first, equal to the ordered matches from `skip = (page-1)*limit`; `total` counts all matches |
| ArticleService.PagesCoverMatches | src/services/article.service.js:48-56 | with a positive limit, a page is non-empty exactly when its number is at most `totalPages` |
| ArticleService.TwentyFiveRowsInPagesOfTen | src/services/article.service.js:48-56 | 25 rows at limit 10 give 3 pages: pages 1 and 3 hold 10 and 5 rows, page 4 is empty |
| ArticleService.Skip | src/services/article.service.js:11 | the number of rows skipped before the requested page |
| ArticleService.Matches | src/services/article.service.js:16-25 | the `where` filter: exact status when given, term in title or content when given |
| ArticleService.WhereOf | src/services/article.service.js:14-25 | the `where` built from the query, a clause only for a truthy parameter (meaning stated by `FilterMeaning`) |
| ArticleService.ListSpec | src/services/article.service.js:7-57 | the listing of a table for a query: the window of the ordered matches and the pagination block (properties in `ListProperties`) |
| ArticleService.CanEdit | src/services/article.service.js:129 | the ownership-or-admin rule of `updateArticle` |
| ArticleService.Created | src/services/article.service.js:89-97 | the created row has the given fields, the fresh id and stamp, and status DRAFT when none is given |
| ArticleService.ApplyUpdate | src/services/article.service.js:136-139 | for a payload of title, content and status, as the update controller builds it: supplied fields replace the old values, absent ones are kept, and id, author, image and stamp are untouched |
| ArticleService.UpdateAlgebra | src/services/article.service.js:136-139 | the empty update is the identity, an update is idempotent, two updates compose into one where the later fields win |
| ArticleService.FindById | src/services/article.service.js:62-84 | found iff the id is in the table, with that row; otherwise 404 "Article not found" |
| ArticleService.CreateStep | src/services/article.service.js:89-111 | exactly one row is added under the fresh id; every other row is unchanged |
| ArticleService.UpdateStep | src/services/article.service.js:116-153 | absent id gives 404 and unchanged table; a user who is neither author nor admin gives 403 with the ownership message and unchanged table; otherwise only that row changes, to the partial update |
| ArticleService.DeleteStep | src/services/article.service.js:158-183 | a non-admin gets 403 whether or not the id exists; an admin deleting an absent id gets 404 "Article not found"; success iff admin and id present, removing exactly that row with "Article deleted successfully"; errors leave the table unchanged |
| ArticleService.StepsPreserveInvariant | src/services/article.service.js:89-183 | create, update and delete keep every row under its own id, stamps distinct and below the clock |
| ArticleService.ReadBack | src/services/article.service.js:62-183 | a created row is found under its id, other lookups are unaffected, and deleting it restores the previous table |
| ArticleService.ArticleTable.FindMany | src/services/article.service.js:29-44 | the loop over the table yields the `skip`/`take` window of the newest-first matching rows |
| ArticleService.ArticleTable.Count | src/services/article.service.js:45 | the count is the number of matching rows |
| ArticleService.ArticleTable.GetArticles | src/services/article.service.js:7-57 | building `where` clause by clause, fetching and counting yields the listing whose properties `ListProperties` states |
| ArticleService.ArticleTable.GetArticleById | src/services/article.service.js:62-84 | agrees with `FindById`; a found row carries the requested id |
| ArticleService.ArticleTable.CreateArticle | src/services/article.service.js:89-111 | the table becomes `CreateStep` of the old table, the clock advances, the invariant holds |
| ArticleService.ArticleTable.UpdateArticle | src/services/article.service.js:116-153 | result and table are `UpdateStep` of the old table; the invariant holds |
| ArticleService.ArticleTable.DeleteArticle | src/services/article.service.js:158-183 | result and table are `DeleteStep` of the old table; the invariant holds |
| AuthService.Public | src/services/auth.service.js:31-37 | the projection keeps id, email, name, role and createdAt and has no password |
| AuthService.PayloadOf | src/services/auth.service.js:41 | the token payload is `{userId: user.id, role: user.role}`, the same for login (line 74) |
| AuthService.FindByEmail | src/services/auth.service.js:10-12 | under unique emails, a user is found iff one has that email, and it is a row of the table |
| AuthService.NewUser | src/services/auth.service.js:8-30 | the stored password is `hash(password)`, the role defaults to VIEWER, other fields as given |
| AuthService.RegisterStep | src/services/auth.service.js:8-47 | a taken email gives 409 and unchanged table; otherwise exactly one row is added and the result is its projection with a token signed for `{userId, role}`; emails stay unique |
| AuthService.Login | src/services/auth.service.js:52-83 | every failure is 401 "Invalid email or password"; success iff a user with that email exists and the password compares true, returning its projection and a token for `{userId, role}` |
| AuthService.LoginFailuresIdentical | src/services/auth.service.js:58-71 | a failed login gives the same answer as a login with an unknown email |
| AuthService.RegisterPreservesInvariant | src/services/auth.service.js:8-47 | registration keeps every user under its own id with unique emails |
| AuthService.RegisterTwiceConflicts | src/services/auth.service.js:10-18 | registering the same email again fails 409 and changes nothing |
| AuthService.RegisterThenLogin | src/services/auth.service.js:8-83 | logging in with the registered password returns the registered user and a token signed for the same payload, when comparison accepts a password against its own hash |
| AuthService.UserTable.Register | src/services/auth.service.js:8-47 | result and table are `RegisterStep` of the old table; the clock advances only on success; the invariant holds |
| Authenticate.InvalidToken | src/middlewares/authenticate.js:46-52 | a verification failure answers 401 "Invalid or expired token." with `success: false`, echoes the reason in `error` and carries no `errors` or `field` |
| Authenticate.Projection | src/middlewares/authenticate.js:26-34 | `req.user` holds id, email, name and role, never the password |
| Strings.StartsWith | src/middlewares/authenticate.js:13 | `startsWith`: the prefix is no longer than the string and equals its first characters |
| Authenticate.HasBearer | src/middlewares/authenticate.js:13 | a header is present and starts with the exact `"Bearer "` |
| Authenticate.TokenOf | src/middlewares/authenticate.js:20 | the token is what follows the `"Bearer "` prefix: prefix plus token is the header |
| Authenticate.TokenRoundTrip | src/middlewares/authenticate.js:13-20 | a header built from a token passes the prefix test and yields that token |
| Authenticate.PrefixIsCaseSensitive | src/middlewares/authenticate.js:13 | lower-case `bearer`, a bare `Bearer`, an empty or missing header fail the prefix test |
| Authenticate.Decide | src/middlewares/authenticate.js:8-53 | every refusal is a 401 failure; proceeding iff bearer header, token decoded and user present; the user is then the projection of the decoded user |
| Authenticate.RejectionReasons | src/middlewares/authenticate.js:13-52 | no bearer header, rejected token and unknown user give the three distinct responses |
| Authenticate.NoHeaderNoLookup | src/middlewares/authenticate.js:13-18 | without a bearer header the answer does not depend on the verifier or the user table |
| Authenticate.OnlyTheTokenIsVerified | src/middlewares/authenticate.js:20-23 | the decision depends on the verifier only through the header minus its first 7 characters |
| Authenticate.RegisteredTokenAuthenticates | src/middlewares/authenticate.js:20-45 | when the verifier decodes every signed payload back to itself, the token registration signs for `{userId, role}` authenticates the new user |
| Authenticate.Authenticate | src/middlewares/authenticate.js:8-53 | `next` is signalled and `req.user` set exactly when `Decide` proceeds; otherwise the response is sent and `req.user` is untouched |
| Strings.Contains | src/services/article.service.js:22-23 | the ORM's `contains`: substring containment (index reading in `ContainsIffOccurs`) |
| Strings.ContainsIffOccurs | src/services/article.service.js:20-25 | the substring search succeeds iff the term occurs at some index |
| Strings.ContainsEmpty | src/services/article.service.js:20 | every string contains the empty term |
| Strings.Decimal | src/middlewares/errorHandler.js:15 | an index renders as a non-empty digit string without leading zero |
| ErrorHandler.JoinPath | src/middlewares/errorHandler.js:15 | `path.join('.')` (step and examples in `JoinPathSnoc`, `JoinExamples`) |
| ErrorHandler.HasStatus | src/middlewares/errorHandler.js:38 | the truthiness of `err.statusCode`: absent and 0 are falsy |
| Common.Failure | src/middlewares/authenticate.js:14-17 | a failure response with the given status, `success: false`, the message and no other field, the shape the middlewares and the error handler send |
| ErrorHandler.FromAppError | src/services/article.service.js:78-80 | a service error as thrown: a plain `Error` with its message and `statusCode`, no validation issues and no ORM code |
| ErrorHandler.FieldErrors | src/middlewares/errorHandler.js:14-17 | one entry per issue, in order, with the path joined by `.` and the issue's message |
| ErrorHandler.JoinPathSnoc | src/middlewares/errorHandler.js:15 | joining a longer path appends `.` and the last segment |
| ErrorHandler.JoinExamples | src/middlewares/errorHandler.js:15 | `body.title`, `query.page`, `items.0` and the empty path |
| ErrorHandler.DuplicateField | src/middlewares/errorHandler.js:26 | the field is the first target when present and non-empty, and `unknown` exactly otherwise (no target, an empty list, an empty first name) |
| ErrorHandler.Handle | src/middlewares/errorHandler.js:6-51 | every answer has `success: false`; `errors` iff a validation error; `field` only on 409; `error` only on 500 in development |
| ErrorHandler.Precedence | src/middlewares/errorHandler.js:10-43 | validation beats ORM codes, P2002 is 409 with the field, P2025 is 404, and a status echoes its message in that order |
| ErrorHandler.LowerBranchesIgnored | src/middlewares/errorHandler.js:10-35 | a validation error's answer ignores code and status; an ORM code's answer ignores the status |
| ErrorHandler.InternalErrorsHidden | src/middlewares/errorHandler.js:45-50 | the catch-all is 500 "Internal server error", exposing the message only when `NODE_ENV` is `development` |
| ErrorHandler.ServiceErrorsEchoed | src/middlewares/errorHandler.js:38-43 | each service error is answered with its own status and message in any environment |
| Schema.DecimalValue | src/services/article.service.js:9-10 | `parseInt` of a digit string (inverse of `Decimal` by `DecimalRoundTrip`) |
| Schema.HasUuidId | src/validators/article.validator.js:23-25 | `params.id` is a string of the 8-4-4-4-12 hexadecimal UUID shape |
| Schema.DecimalRoundTrip | src/services/article.service.js:9-10 | `parseInt` of a printed number gives the number back |
| ArticleValidator.CreateArticleSchema | src/validators/article.validator.js:6-17 | title 3–200 characters, content at least 10, optional status DRAFT or PUBLISHED, other keys passed through |
| ArticleValidator.UpdateArticleSchema | src/validators/article.validator.js:22-38 | a UUID id, and each create constraint only for the fields present |
| ArticleValidator.GetArticleSchema | src/validators/article.validator.js:43-47 | a UUID id |
| ArticleValidator.DeleteArticleSchema | src/validators/article.validator.js:52-56 | a UUID id |
| ArticleValidator.GetArticlesSchema | src/validators/article.validator.js:61-68 | optional digit-string page and limit, optional status in the enumeration, optional string search |
| ArticleValidator.CreateBounds | src/validators/article.validator.js:6-17 | an accepted create body has a title of 3 to 200 characters, content of at least 10, status DRAFT or PUBLISHED if present |
| ArticleValidator.TitleBoundsExact | src/validators/article.validator.js:8-11 | a title is accepted iff its length is between 3 and 200 |
| ArticleValidator.UpdateIsOptionalCreate | src/validators/article.validator.js:22-38 | every create body passes update; the empty body is a valid update |
| ArticleValidator.IdMustBeUuid | src/validators/article.validator.js:22-56 | get, update and delete reject a request without a UUID-shaped id |
| ArticleValidator.ExtraBodyKeysIgnored | src/validators/article.validator.js:16-37 | an extra body key never changes the create or update verdict |
| ArticleValidator.StatusEnum | src/validators/article.validator.js:15-65 | a status outside DRAFT/PUBLISHED is rejected by create, update and list |
| ArticleValidator.StatusOf | src/validators/article.validator.js:65 | the accepted status names map onto the two statuses |
| ArticleValidator.ListQueryOf | src/validators/article.validator.js:61-68 | each list parameter reaches the service exactly when it was given: page and limit as the `parseInt` of their digits, status as the named status, search as the given text |
| ArticleValidator.ZeroLimitAccepted | src/validators/article.validator.js:64 | `limit=0` passes and reaches the service as limit 0; for any table the page is empty and `totalPages` is absent |
| ArticleValidator.PrintedPageRoundTrip | src/validators/article.validator.js:63 | any printed page number passes and is parsed back to itself |
| AuthValidator.EmailField | src/validators/auth.validator.js:8 | an email string accepted by the email check |
| AuthValidator.RegisterSchema | src/validators/auth.validator.js:6-19 | email, password 6–100, name 2–100, optional role ADMIN, EDITOR or VIEWER |
| AuthValidator.LoginSchema | src/validators/auth.validator.js:24-29 | email and a non-empty password |
| AuthValidator.RegisterBounds | src/validators/auth.validator.js:6-19 | an accepted registration has an email-shaped email, a 6–100 character password, a 2–100 character name and a valid role if any |
| AuthValidator.RoleIsCaseSensitive | src/validators/auth.validator.js:17 | the role `admin` is refused |
| AuthValidator.RegisteredCredentialsPassLogin | src/validators/auth.validator.js:6-29 | every accepted registration body passes login; an empty password fails login |
| AuthValidator.RoleOf | src/validators/auth.validator.js:17 | the accepted role names map onto the three roles |
| AuthValidator.RegistrationOf | src/validators/auth.validator.js:6-19 | the service receives the validated email, password and name, and a role exactly when one was given, namely the role that name denotes |

## Left out

- The author join (`include: { author: ... }`) on article reads is not modelled: rows carry only `authorId`. No foreign key on `authorId` is enforced.
- `updatedAt` and other database-managed columns are not modelled.
- The database's UUID generation and `createdAt` timestamps are not modelled. Ids are parameters required to be fresh. Stamps come from a logical clock, so ties between equal timestamps do not occur.
- The `Promise.all` of `findMany` and `count` is modelled as two sequential reads of the same table. Concurrency in general is not modelled.
- Search case sensitivity is modelled as exact, case-sensitive containment, although it depends on the database engine.
- `parseInt` of non-digit text (NaN) and of fractional input is not modelled: the validator admits only digit strings.
- Precision loss in `parseInt` is not modelled. A page or limit of more than about 16 digits passes validation but is rounded to a double in the source. The model parses it into an unbounded `nat` exactly.
- `ArticleService.TotalPages`: the distinction between `Infinity` and `NaN` at limit 0 is not kept, because both serialize to `null`.
- String lengths count characters, not UTF-16 code units.
- bcrypt salting and token expiry are not modelled: hash, compare and sign are function parameters and so are deterministic. Two tokens issued for the same payload are therefore equal, whereas in the source the issue time makes them differ.
- `AuthService.Login`: the source returns the whole stored row minus `password` through rest-destructuring. The model returns the same projection as `register`, assuming the user table has exactly those columns.
- Errors thrown inside `authenticate` by the user lookup itself, and decoded payloads without a `userId`, are not modelled.
- The error handler's console logging is not modelled.
- The error handler's handling of `statusCode` values other than natural numbers is not modelled, nor of `meta.target` as a string rather than an array.
- Zod's default issue messages and issue ordering are not modelled: the validators are predicates and say only whether a request is accepted.
- The UUID check approximates Zod's by the 8-4-4-4-12 hexadecimal shape. The email check is a parameter because its regular expression is not part of this model.
- src/middlewares/validate.js is not part of this model: it calls the schema and deletes an uploaded file. Nor are file upload, the `authorize` middleware, routes, controllers and the server.
- ArticleService.ApplyUpdate: the service hands `updateData` to the ORM unchanged and would write any column it holds. The payload is limited to title, content and status because the update controller builds it from those three fields. The model keeps that narrowing, so id, `authorId` and `imageUrl` stay fixed by construction, not by anything the service checks.
- The `operational` flag set on the 403 ownership error is not modelled, because no code reads it.
