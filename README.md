# OptiSched: sessions, AI request policy and the REST backend's authorization rules

OptiSched is a school timetable app. This project models its session and authorization logic in Dafny and proves properties of the model:

- **Client session service** (`AuthService`): sign-in and sign-out, with a 30-minute expiry deadline. It also models the permission and role checks, the dashboard route, and session refresh. Profile updates are limited to a whitelist of fields. The schedule and event operations are gated on role first, then permission.
- **AI helper** (`AIService`): a 2-second spacing between requests, and retries of rate-limited OpenAI requests with exponential backoff. It also models provider routing to OpenAI or Gemini and the refusal of requests to do a student's assignment. When no provider is reachable, it gives canned fallback replies.
- **Mock authentication store** (`MockAuthProvider`): two fixed accounts and a login that strips the password. Logout resets the state. A profile update merges the new fields into the stored user.
- **REST backend**: three tables (faculty, students, subjects), each a map from serial id to row, held by one `Database` object. It also models the bearer-token middleware and the register and login handlers, where last names must be unique. The subject handlers model listing, the day filter (SQL `LIKE`), lookup by id, and creation, update and deletion by the owning faculty member. The user handlers model reading and updating a profile, changing a password, and listing faculty and students ordered by last name.

How outside calls are modelled:

- **Database calls** of the client service are parameters of type `Db<T>`. Each call either returns a value or throws.
- **Clocks** are explicit `now` values. The expiry timer firing is the method `ExpireSession`.
- **bcrypt** is a pair of function parameters, `hash` and `compare`. **JWT** is a pair too, `sign` and `verify`.
- **The OpenAI endpoint** is a stream `responses(k)`: the outcome of the k-th request of a call. **The Gemini SDK** is one outcome.
- **Strings** are `seq<char>`.

Files:

- `common.dfy`: shared values: `Option`, JSON values, `Http` replies, `includes`, `split` and `join`.
- `session.dfy`: the client session service.
- `ai_policy.dfy`: the AI helper.
- `mock_auth.dfy`: the mock authentication store.
- `sql.dfy`: the SQL pieces the handlers use: `LIKE`, string ordering, `order by`, `where`, projections and `limit 1`.
- `tables.dfy`: the rows and the `Database` class.
- `middleware.dfy`: the token middleware.
- `auth_routes.dfy`: registration and login.
- `subject_routes.dfy`: the subject handlers.
- `user_routes.dfy`: the user handlers.

## Model

| member | source | states |
|---|---|---|
| Session.TruthyValuesDoNotGrant | OptiSched/services/authService.js:111-117 | a permission is granted only by the JSON value `true`; `1`, `"true"` and a missing permission map grant nothing |
| Session.Grants | OptiSched/services/authService.js:111-117 | a permission is granted only to a user whose permission map lists it, and never when the listed value is anything but `true` |
| Session.ValidUpdates | OptiSched/services/authService.js:188-195 | the loop keeps exactly the allowed profile fields that the updates define, with their values |
| Session.AuthService.constructor | OptiSched/services/authService.js:7-12 | no user, not authenticated, no timer |
| Session.AuthService.StartSessionTimeout | OptiSched/services/authService.js:424-430 | the old timer is replaced by a deadline 30 minutes after `now` |
| Session.AuthService.ClearSession | OptiSched/services/authService.js:441-445 | user, authentication flag and timer are all cleared |
| Session.AuthService.Login | OptiSched/services/authService.js:27-72 | empty credentials or rejected credentials fail and leave the session unchanged; accepted credentials sign the user in with a fresh deadline, and a failure to record the login (a branch the shipped `logActivity`, which catches its own errors, never takes) reports failure over that signed-in session |
| Session.AuthService.Logout | OptiSched/services/authService.js:75-98 | always succeeds and always clears the session, whether or not recording the logout throws (the shipped `logActivity` never does) |
| Session.AuthService.ExpireSession | OptiSched/services/authService.js:424-430 | once the deadline has passed the session is cleared; before it, nothing changes |
| Session.AuthService.IsLoggedIn | OptiSched/services/authService.js:101-103 | under the class invariant, signed in iff a user is held |
| Session.AuthService.HasPermission | OptiSched/services/authService.js:111-117 | a permission needs a user with a permission map |
| Session.AuthService.HasRole | OptiSched/services/authService.js:120-126 | a role needs a user |
| Session.AuthService.DashboardRoute | OptiSched/services/authService.js:129-143 | `/login` iff there is no user; the schedule route for every role, known or not |
| Session.AuthService.RefreshSession | OptiSched/services/authService.js:146-173 | no user, or a lookup that throws, changes nothing; a user that is gone ends the session; otherwise the new user is held with a fresh deadline |
| Session.AuthService.UpdateProfile | OptiSched/services/authService.js:176-233 | fails without a user, without `can_edit_profile`, or with no allowed field; what it writes is exactly the allowed fields; a permitted write of at least one allowed field that goes through always succeeds, and only such a write does; the user is the one reloaded, a user gone from the database ends the session, and a reload that throws still reports success, with no user and the session kept |
| Session.AuthService.Gate | OptiSched/services/authService.js:238-244 | "Access denied" iff the role is wrong; "Permission denied" iff the role is right and the permission is missing; no denial iff both hold |
| Session.AuthService.GetStudentSchedule | OptiSched/services/authService.js:236-269 | the gate's message first, then a missing record; succeeds iff the gate passes and the first student record's schedule loads |
| Session.AuthService.GetTeacherSchedule | OptiSched/services/authService.js:272-305 | the same for role `teacher` and the teacher record |
| Session.AuthService.UpdateClassSchedule | OptiSched/services/authService.js:308-347 | gated on `teacher` and `can_edit_schedule`; passes on the database's reply once the change is recorded; any throw gives "Failed to update schedule" |
| Session.AuthService.AddScheduleChange | OptiSched/services/authService.js:350-396 | the same gates; any throw gives "Failed to add schedule change" |
| Session.AuthService.GetEvents | OptiSched/services/authService.js:399-421 | "Not authenticated", then "Permission denied"; succeeds iff `can_view_schedule` is held and the events load |
| AiPolicy.CooldownWait | OptiSched/services/aiService.js:20-28 | the wait is never negative, always reaches 2000 ms after the last request, and when positive ends exactly there |
| AiPolicy.RetryAfterSeconds | OptiSched/services/aiService.js:53-69 | the server's `retry_after`, with 20 for a missing, zero or unparsable one |
| AiPolicy.Settle | OptiSched/services/aiService.js:49-63 | a response that is not a 429 answers iff it completed; 401 and other statuses are errors |
| AiPolicy.OpenAIRun | OptiSched/services/aiService.js:31-87 | at most `3 - retryCount` retries; retry n just followed a 429 and waited `retryAfter * 1000 * 2^(n-1)` ms; a 429 after the last retry gives `RATE_LIMIT_EXCEEDED`; the counter goes back to 0 only on success |
| AiPolicy.Backoff | OptiSched/services/aiService.js:76 | the first retry waits exactly the server's `retry_after` in milliseconds, and no later retry waits less |
| AiPolicy.BackoffDoubles | OptiSched/services/aiService.js:71-79 | each retry waits twice as long as the one before, so `n` retries wait `2^n - 1` times the first wait in all |
| AiPolicy.DefaultBudgetWaits | OptiSched/services/aiService.js:69-79 | with no `retry_after`, a call that uses all three retries waits 20, 40 and 80 seconds: 140 seconds in all |
| AiPolicy.ExceededIffAllRateLimited | OptiSched/services/aiService.js:68-82 | a call gives up on rate limiting iff every request it may send gets a 429 |
| AiPolicy.ExhaustedRetriesCarryOver | OptiSched/services/aiService.js:62-82 | after one call gives up, the counter stays at 3, and the next call fails at its first 429 although its second request would have completed |
| AiPolicy.FullRetryBudget | OptiSched/services/aiService.js:68-82 | with the counter at 0, a call gives up iff all four of its requests get a 429 |
| AiPolicy.Contents | OptiSched/services/aiService.js:128 | one content per message, in order |
| AiPolicy.Route | OptiSched/services/aiService.js:123-133 | `openai` gets the messages unchanged; `gemini` gets their contents joined by line breaks; any other provider is unsupported |
| AiPolicy.GeminiPromptKeepsContents | OptiSched/services/aiService.js:128 | the Gemini prompt splits back into the message contents when none holds a line break |
| AiPolicy.GeminiAnswer | OptiSched/services/aiService.js:104-119 | text iff the SDK returned text; rate limit iff status 429; invalid key iff status 401 or the message mentions `API_KEY` (and not 429) |
| AiPolicy.ToLower | OptiSched/services/aiService.js:188 | same length, each ASCII capital lowered |
| AiPolicy.SomeKeywordIn | OptiSched/services/aiService.js:180-189 | holds iff some restricted phrase is a substring |
| AiPolicy.IsAssignmentCompletionQuestion | OptiSched/services/aiService.js:179-190 | a question is refused iff its lower-cased text contains one of the sixteen restricted phrases |
| AiPolicy.ToLowerIgnoresCase | OptiSched/services/aiService.js:188 | lowering is idempotent and undoes upper-casing |
| AiPolicy.RestrictionIgnoresCase | OptiSched/services/aiService.js:179-190 | upper- or lower-casing a question does not change whether it is refused |
| AiPolicy.ToLowerConcat | OptiSched/services/aiService.js:188 | lowering distributes over concatenation |
| AiPolicy.RestrictionSurvivesContext | OptiSched/services/aiService.js:179-190 | text around a refused question keeps it refused |
| AiPolicy.ShortQuestionsPass | OptiSched/services/aiService.js:180-189 | a question shorter than 10 characters is never refused |
| AiPolicy.ShoutedRequestRefused | OptiSched/services/aiService.js:179-190 | "Please DO MY ASSIGNMENT" is refused |
| AiPolicy.AcademicRequest | OptiSched/services/aiService.js:192-212 | the refusal text iff the question is refused; otherwise the tutor instruction and a user prompt that quotes the question and any context |
| AiPolicy.AcademicPrompt | OptiSched/services/aiService.js:198-207 | the prompt opens with the labelled question line and closes with the guidance; its length leaves room for nothing but the labelled context, and without context there is none |
| AiPolicy.PromptMentions | OptiSched/services/aiService.js:198-207 | the prompt contains the question, and the context when it is not empty |
| AiPolicy.FallbackResponse | OptiSched/services/aiService.js:238-247 | the mapped reply for the four known kinds; the default reply iff the kind is unknown |
| AiPolicy.FallbacksAreDistinct | OptiSched/services/aiService.js:239-246 | different known kinds get different replies |
| AiPolicy.AIService.constructor | OptiSched/services/aiService.js:5-17 | no retries, no previous request, the given provider |
| AiPolicy.AIService.WaitForCooldown | OptiSched/services/aiService.js:20-28 | waits `CooldownWait` and records the clock after the wait, at least 2000 ms after the previous request |
| AiPolicy.AIService.ChatWithOpenAI | OptiSched/services/aiService.js:31-87 | the answer is the one `OpenAIRun` gives; the counter is back at 0 whenever the call ends |
| AiPolicy.AIService.Chat | OptiSched/services/aiService.js:123-133 | sends the routed request to the configured provider; an unsupported provider changes nothing |
| AiPolicy.AIService.AnswerAcademicQuestion | OptiSched/services/aiService.js:192-215 | a refused question gets the refusal text and no provider is called; any other question is sent, as the tutor instruction and the academic prompt, to the configured provider, which gives the answer |
| MockAuth.FindUser | OptiSched/contexts/MockAuthContext.jsx:66 | the first account whose email and password both match exactly; none iff no account matches |
| MockAuth.StripPassword | OptiSched/contexts/MockAuthContext.jsx:69 | every field but `password`, unchanged |
| MockAuth.Merge | OptiSched/contexts/MockAuthContext.jsx:103-106 | the new fields win; every other field of the previous user is kept; a null previous user adds nothing |
| MockAuth.MockPermissions | OptiSched/contexts/MockAuthContext.jsx:4-54 | the student cannot edit schedules; the admin holds all seven permissions, the same seven the student has |
| MockAuth.MockCredentials | OptiSched/contexts/MockAuthContext.jsx:4-66 | each account logs in with its own email and password only, case-sensitively |
| MockAuth.MockAuthProvider.constructor | OptiSched/contexts/MockAuthContext.jsx:59-61 | no user, both flags false |
| MockAuth.MockAuthProvider.MockLogin | OptiSched/contexts/MockAuthContext.jsx:63-92 | a match stores and returns the account without password and sets both flags; no match changes nothing and says "Invalid mock credentials" |
| MockAuth.MockAuthProvider.MockLogout | OptiSched/contexts/MockAuthContext.jsx:94-99 | always succeeds; no user and both flags false afterwards |
| MockAuth.MockAuthProvider.MockUpdateProfile | OptiSched/contexts/MockAuthContext.jsx:101-112 | the stored user becomes the merge of the old one and the new fields; the flags stay |
| MockAuth.MockAuthProvider.SetUseMockAuth | OptiSched/contexts/MockAuthContext.jsx:61 | the flag takes the given value |
| Common.Split | OptiSched/backend/src/middleware/auth.js:11 | at least one piece, none holding the separator |
| Common.JoinSplit | OptiSched/backend/src/middleware/auth.js:11 | joining the pieces of a split with the separator gives back the text |
| Common.SplitJoin | OptiSched/services/aiService.js:128 | splitting a join gives back the pieces when none holds the separator |
| Sql.PercentMatchesAll | OptiSched/backend/src/routes/subjects.js:53 | `%` matches every text |
| Sql.SurroundedLiteralIsSubstring | OptiSched/backend/src/routes/subjects.js:53 | for a pattern text without wildcards, `LIKE '%p%'` holds iff the text contains `p` |
| Sql.UnderscoreMatchesAnything | OptiSched/backend/src/routes/subjects.js:53 | `LIKE '%_%'` holds iff the text is not empty |
| Sql.SortBy | OptiSched/backend/src/routes/users.js:119 | a sorted permutation of the rows |
| Sql.OrderedRows | OptiSched/backend/src/routes/users.js:111-119 | each row's projection exactly once (a permutation of the projected table), and nothing else, in ascending key order |
| Sql.RowsWhere | OptiSched/backend/src/routes/subjects.js:53 | exactly the rows that satisfy the condition, unchanged |
| Sql.ProjectRows | OptiSched/backend/src/routes/subjects.js:12-25 | one projected row per row of the table, each row's projection included |
| Sql.FirstKey | OptiSched/backend/src/routes/auth.js:15-18 | the least matching id; none iff no row matches |
| Tables.FacultyByLastName | OptiSched/backend/src/routes/auth.js:62-65 | a faculty row with that last name, the only one when last names are unique; none iff no row has it |
| Tables.StudentByLastName | OptiSched/backend/src/routes/auth.js:148-151 | the same over the students table |
| Tables.Database.constructor | OptiSched/backend/src/db/schema.js:5-37 | empty tables with every serial at 1 |
| Tables.Database.InsertFaculty | OptiSched/backend/src/routes/auth.js:28-34 | the new row gets the next serial id, which was unused, and both timestamps `now`; nothing else changes |
| Tables.Database.InsertStudent | OptiSched/backend/src/routes/auth.js:116-121 | the same for students |
| Tables.Database.InsertSubject | OptiSched/backend/src/routes/subjects.js:104-110 | the same for subjects |
| Tables.InsertKeepsFacultyNamesUnique | OptiSched/backend/src/routes/auth.js:15-34 | adding a row whose last name is new keeps last names unique |
| Tables.InsertKeepsStudentNamesUnique | OptiSched/backend/src/routes/auth.js:103-121 | the same for students |
| Middleware.GenerateToken | OptiSched/backend/src/middleware/auth.js:45-47 | the payload is exactly the id and role, with a 24-hour lifetime |
| Middleware.BearerToken | OptiSched/backend/src/middleware/auth.js:10-15 | a token iff the header has a non-empty second space-separated word, which is the token |
| Middleware.BearerTokenRoundTrip | OptiSched/backend/src/middleware/auth.js:11 | `<scheme> <token>[ …]` yields the token, whatever the scheme |
| Middleware.NoSpaceNoToken | OptiSched/backend/src/middleware/auth.js:11-14 | a header without a space carries no token |
| Middleware.AuthenticateTokenAsWritten | OptiSched/backend/src/middleware/auth.js:9-43 | 401 without a token; 403 when verification fails; faculty iff the id is a faculty id; a student only when it is not; 401 when neither table has the id |
| Middleware.StudentTokenResolvesToFaculty | OptiSched/backend/src/middleware/auth.js:20-36 | a student's token whose id is also a faculty id authenticates that faculty member |
| Middleware.Resolve | OptiSched/backend/src/middleware/auth.js:20-36 | looks up the table the role claim names; the user found has the claimed role and id |
| Middleware.AuthenticateToken | OptiSched/backend/src/middleware/auth.js:9-43 | the same 401 and 403 answers; the user passed on has the role and id the token claims |
| Middleware.AgreesWithoutCollision | OptiSched/backend/src/middleware/auth.js:20-36 | both lookups agree whenever the claimed role names the table where the id is found first |
| Middleware.StudentTokenResolvesToStudent | OptiSched/backend/src/middleware/auth.js:29-36 | with the role-directed lookup, the student of colliding ids is the student |
| Middleware.IssuedTokenAuthenticates | OptiSched/backend/src/middleware/auth.js:9-47 | a token issued for a user authenticates that user while its row exists |
| AuthRoutes.RegisterFaculty | OptiSched/backend/src/routes/auth.js:10-54 | 400 and no insert when the last name is taken; 500 for a bad birthday; a 201 iff the last name is new and the birthday valid, with a new row under the next id with the hashed password, and a reply of 201 with the user (role `faculty`, no password) and a token for that id; last names stay unique |
| AuthRoutes.RegisterStudent | OptiSched/backend/src/routes/auth.js:98-140 | the same for students, role `student`: 400, 500, and a 201 iff the last name is new and the birthday valid |
| AuthRoutes.FacultyLogin | OptiSched/backend/src/routes/auth.js:57-95 | every failure is the same 401 "Invalid credentials"; success names a row with that last name whose stored hash matches, and carries its token; under unique last names, success iff such a row exists |
| AuthRoutes.StudentLogin | OptiSched/backend/src/routes/auth.js:143-180 | the same for students |
| AuthRoutes.RegisteredFacultyCanLogIn | OptiSched/backend/src/routes/auth.js:10-95 | the row a registration inserts logs in with the registered password |
| AuthRoutes.RegisteredStudentCanLogIn | OptiSched/backend/src/routes/auth.js:98-180 | the same for students |
| SubjectRoutes.LeadingDigits | OptiSched/backend/src/routes/subjects.js:81 | the length of the leading run of digits |
| SubjectRoutes.ParseInt | OptiSched/backend/src/routes/subjects.js:81 | NaN iff no digit follows the optional sign |
| SubjectRoutes.ShowNatValue | OptiSched/backend/src/routes/subjects.js:81 | a numeral's digits have its value |
| SubjectRoutes.ParseIntShowNat | OptiSched/backend/src/routes/subjects.js:81 | a numeral, with any non-digit text after it, parses back to its number |
| SubjectRoutes.ListSubjects | OptiSched/backend/src/routes/subjects.js:10-32 | each subject once, in id order, joined with its teacher (none when the join finds no faculty row) |
| SubjectRoutes.View | OptiSched/backend/src/routes/subjects.js:12-25 | a subject's own columns unchanged, and a teacher iff its `teacherId` names a faculty row, in which case the teacher's name and department |
| SubjectRoutes.SubjectsByDay | OptiSched/backend/src/routes/subjects.js:35-60 | exactly the subjects whose day matches `%day%`, joined with their teachers |
| SubjectRoutes.DayFilterIsSubstring | OptiSched/backend/src/routes/subjects.js:53 | for a day without wildcards, a subject is listed iff its day contains the parameter |
| SubjectRoutes.ThursdayFindsTuesdayAndThursday | OptiSched/backend/src/routes/subjects.js:53 | "Thursday" finds a subject held on "Tuesday & Thursday" |
| SubjectRoutes.ThursdayInTuesdayAndThursday | OptiSched/backend/src/routes/subjects.js:53 | "Tuesday & Thursday" contains "Thursday", which has no wildcard |
| SubjectRoutes.UnderscoreFindsEveryDay | OptiSched/backend/src/routes/subjects.js:53 | the parameter `_` lists every subject with a non-empty day |
| SubjectRoutes.SubjectById | OptiSched/backend/src/routes/subjects.js:63-93 | 500 iff the id is not a number or lies outside the range of the `integer` id column; 404 iff it is in range and no subject has it; otherwise 200 with that subject |
| SubjectRoutes.SubjectByIdFindsEverySubject | OptiSched/backend/src/routes/subjects.js:63-93 | every subject whose id fits the `integer` column is found under that id |
| SubjectRoutes.OutOfRangeIdIsServerError | OptiSched/backend/src/routes/subjects.js:63-93 | a numeric id above 2147483647 is a 500, never a 404, whatever the table holds |
| SubjectRoutes.OwnerGuard | OptiSched/backend/src/routes/subjects.js:125-144 | the checks in order: 403 for non-faculty, 500 for a non-numeric id or one outside the `integer` range, 404 for a missing subject, 403 for another's subject; allowed iff the caller is faculty and owns that subject |
| SubjectRoutes.StudentsLearnNothing | OptiSched/backend/src/routes/subjects.js:170-172 | a student gets the same answer whatever the id and the table |
| SubjectRoutes.Patch | OptiSched/backend/src/routes/subjects.js:146-155 | given fields replace the old ones and missing ones are kept; `updatedAt` is now; id, teacher and creation time are untouched |
| SubjectRoutes.PatchProperties | OptiSched/backend/src/routes/subjects.js:146-155 | an empty body changes only `updatedAt`; patching twice with one body is patching once |
| SubjectRoutes.CreateSubject | OptiSched/backend/src/routes/subjects.js:96-120 | 403 for non-faculty; 500 for a missing field; a 201 iff a faculty caller gives all four fields, with a new subject whose teacher is the caller, under the next id, and 201 with it; no other table changes |
| SubjectRoutes.UpdateSubject | OptiSched/backend/src/routes/subjects.js:123-165 | a refusal by the guard changes nothing; otherwise only that subject changes, as `Patch` says, and 200 with it |
| SubjectRoutes.DeleteSubject | OptiSched/backend/src/routes/subjects.js:168-197 | a refusal by the guard changes nothing; otherwise exactly that subject is removed and every other is kept |
| UserRoutes.GetProfile | OptiSched/backend/src/routes/users.js:10-24 | 200 with the user's role; putting the password back gives the request's user, so only the password is dropped |
| UserRoutes.ProfileForgetsOnlyPassword | OptiSched/backend/src/routes/users.js:15-19 | users with equal profiles have the same role and id, and are equal when their passwords are |
| UserRoutes.UpdateFacultyRow | OptiSched/backend/src/routes/users.js:35-43 | only the names, birthday and `updatedAt` change; a missing name is kept |
| UserRoutes.UpdateStudentRow | OptiSched/backend/src/routes/users.js:45-53 | the same for a student row |
| UserRoutes.UpdateProfile | OptiSched/backend/src/routes/users.js:27-67 | the caller's row in the table its role names is updated and returned without password; the other table is untouched; a bad birthday or a missing row is a 500 that changes nothing |
| UserRoutes.ProfileUpdateCanDuplicateLastName | OptiSched/backend/src/routes/users.js:35-43 | an update can give a faculty member another's last name, which registration forbids |
| UserRoutes.ChangePassword | OptiSched/backend/src/routes/users.js:70-106 | a missing current password is a 500 and a wrong one a 401; after a right one, a missing new password is a 500; errors change nothing; success iff both are given and the current one is right, and it replaces only the caller's stored hash and `updatedAt` |
| UserRoutes.PasswordChangeKeepsNames | OptiSched/backend/src/routes/users.js:86-91 | a password change keeps last names unique |
| UserRoutes.ListFaculty | OptiSched/backend/src/routes/users.js:109-126 | every faculty member exactly once, each entry being its row's id, names, department and creation time (no password), ordered by last name |
| UserRoutes.StudentsByLastName | OptiSched/backend/src/routes/users.js:135-143 | every student exactly once, each entry being its row's id, names, birthday and creation time (no password), ordered by last name |
| UserRoutes.ListStudents | OptiSched/backend/src/routes/users.js:129-150 | 403 iff the caller is not faculty; otherwise the ordered student list |

## Left out

- `initialize` and `cleanup` of the session service, and `getCurrentUser`: they open and close the local database or only read a field.
- The database layer behind the session service: its calls are inputs (`Db<T>`), and what it does with them is not modelled.
- `generateScheduleOptimization`, `getStudyAdvice` and `generateAssignmentPlan`: prompt builders that serialize arbitrary objects with `JSON.stringify` and then call `chat`, which is modelled.
- The body of an OpenAI reply (`data.choices[0].message.content`) is taken to be the reply text. A malformed body that throws is not modelled.
- `response.json()` failing on a 429 is folded into an absent `retry_after`.
- AiPolicy.RetryAfterSeconds: a fractional `retry_after` is taken whole, as `parseInt` does. Non-numeric text is one case (`Unparsable`), not parsed character by character.
- AiPolicy.AIService.WaitForCooldown: the real sleep is an explicit wait, and the timer firing late is a `lateness` parameter.
- AiPolicy.AIService.ChatWithOpenAI: this is the corrected behaviour with the counter reset on every exit. The as-written counter is `OpenAIRun`'s `retryCount`.
- AiPolicy.ToLower: only ASCII letters are lowered, not the full Unicode case mapping of `toLowerCase`.
- Keys inherited from JavaScript object prototypes, such as `"constructor"` as a fallback kind or a role, are not modelled.
- SubjectRoutes.ParseInt: leading whitespace and the `0x` prefix that `parseInt` accepts are not modelled.
- Timers: the session expiry and the backoff sleeps are deadlines on an explicit clock. Real time and concurrency are not modelled.
- Database errors that the handlers map to 500 are not modelled. These include a lost connection, varchar length limits and a failing foreign key. Only the 500s that follow from the request itself are modelled: a missing field, an invalid birthday, a non-numeric id or one outside the `integer` range, a missing password in a password change, a vanished row.
- Sql.LexLe: `order by lastName` uses code-point order. PostgreSQL's collation is not modelled.
- Sql.FirstKey: `limit 1` without `order by` is taken as the least id. The database may return any matching row.
- SubjectRoutes.ListSubjects: GET `/` lists subjects in id order, one order the database may use.
- bcrypt: salts and the hash function are not modelled. `hash` and `compare` are opaque parameters.
- JWT: signatures and expiry checking are not modelled. Expiry is inside `verify`.
- `req.user` is set by the middleware as a side effect; the model returns the user instead.
- React state updates are asynchronous. The model applies them at once and in order.
- The `catch` branches of `mockLogin` and `mockUpdateProfile` are not modelled: nothing in their bodies can throw.
- `databaseService.js`, `clerk.js`, `debug.js` and the server set-up are not part of this model.
- Registration and login bodies with a missing name or password are treated as strings, and the database rejects a missing name. Only a missing or invalid birthday is modelled as a separate case. The password-change body is different: its two fields are optional there, because bcrypt throws on a missing one and the handler answers 500.
- `databaseService.logActivity` catches its own errors, so the failure branches of `Login` and `Logout` for a throwing activity record are not taken with the shipped database layer. The model keeps the activity record's outcome as a parameter, so those branches are still stated.
- The serial counters of the model are unbounded. Postgres `serial` columns stop at 2147483647, so the model's tables can hold ids the database cannot. SubjectById and OwnerGuard answer 500 for such ids, as the database would.

## Findings

| source | as written | input that shows it | evidently intended | confidence | as-written member | corrected member |
|---|---|---|---|---|---|---|
| OptiSched/backend/src/middleware/auth.js:20-36 | the token's user id is looked up in the faculty table first, and the `role` claim is never read | a student with id 1 signs in while a faculty member also has id 1 (both tables use serial ids from 1, as the seed data does); the student's token authenticates as the faculty member | the user the token was issued for, from the table its `role` claim names | not executed | Middleware.StudentTokenResolvesToFaculty | Middleware.AuthenticateToken |
| OptiSched/services/aiService.js:62-82 | `retryCount` goes back to 0 only after a completed request; when a call gives up with `RATE_LIMIT_EXCEEDED` the counter stays at 3 | four 429 replies in a row make the call give up; the next call then gets one 429 and gives up at once, although its next request would have completed | every call starts with the full budget of three retries | not executed | AiPolicy.ExhaustedRetriesCarryOver | AiPolicy.AIService.ChatWithOpenAI |
