# cogniflow backend core in Dafny

This is a model of the four route handlers in the cogniflow coding-practice backend that hold its logic:

- **Session signals** (`GET /sessions/{id}/signals`). The handler takes a session row, the session's run events and its error events. Six independent rules each add at most one descriptive `Signal(key, value, description)`, and they always run in the same order: `run_count`, `repeated_execution`, `errors_present`, `error_followed_by_run`, `session_duration_minutes`, `time_to_first_run_minutes`. A session id that is not in the table is a 404.
- **Session lifecycle** (`POST /sessions/start`, `POST /sessions/end`). `start` inserts an open session. `end` closes it exactly once.
- **Code execution** (`POST /execute`). Every call records one run event. A call whose stderr is non-empty also records one error event for that run. The response reports either stderr or stdout.
- **Accounts** (`POST /auth/signup`, `/verify-email`, `/login`):
  - signup rejects an e-mail that is already registered, and otherwise creates an unverified user with one OTP token valid for 15 minutes;
  - verification checks the user, then an unused token with the offered code, then the token's expiry, and then marks the user verified and the token used;
  - login checks the user, then verification, then the password.

Files and modules:

| file | module | contents |
|---|---|---|
| `models.dfy` | `Models` | table rows, `Option`/`Result`, `HttpError`, the microsecond time unit, `FirstMatch` (a query's `.first()`) |
| `text.dfy` | `Text` | Python's `str(int)` and a parser that reads it back |
| `rounding.dfy` | `Rounding` | Python's `round()` on an exact quotient: nearest integer, ties to even |
| `signals.dfy` | `Signals` | the six rules, the `Derive` specification, the imperative `DeriveSignals`, the endpoint, and lemmas per key and on output order |
| `sessions.dfy` | `Sessions` | the `StartStep`/`EndStep` specifications and the `SessionStore` class over a map from id to row |
| `execute.dfy` | `Execute` | outcome normalisation, the `ExecuteStep` specification, the `EventStore` class and the event-log invariant `LogValid` |
| `auth.dfy` | `Auth` | the `SignupStep`/`VerifyStep`/`LoginResult` specifications, the `AuthStore` class and the table invariant `AuthValid` |

Each state-changing handler is a method of a class that holds its tables as fields. Each method's `ensures` equates the new state and the answer with a pure step function of the old state. The behavioural properties are lemmas about those step functions, plus an invariant that every method preserves. The signal derivation is a method that performs the handler's six guarded appends. It is proved equal to `Derive`, the concatenation of the six rules' optional outputs, and the per-key lemmas are stated about `Derive`.

Timestamps are integers counting microseconds, the resolution of Python's `datetime`. A minute count is `round(delta / 60 s)` computed on the exact rational value. The code uses Python's `round`, which rounds halves to even: 90 s gives 2 minutes, and so does 150 s (`Signals.RoundingExamples`).

Inputs from the outside world are parameters:

- the clock reading `now`;
- the interpreter's outcome;
- the six OTP digits;
- the password hash function, the password check and the access-token maker, which are bcrypt and JWT library calls.

## Model

| member | source | states |
|---|---|---|
| Signals.RunCountRule | backend/app/routes/signals.py:47-60 | the rule fires iff there is a run, with key `run_count` and the number of runs as value (the two texts are stated by `RunCountSignal`) |
| Signals.RepeatedExecutionRule | backend/app/routes/signals.py:62-67 | the rule fires iff there are at least two runs, with key `repeated_execution` and value true |
| Signals.ErrorsPresentRule | backend/app/routes/signals.py:69-74 | the rule fires iff the error list is non-empty, with key `errors_present` and value true |
| Signals.ErrorFollowedByRunRule | backend/app/routes/signals.py:69-84 | the rule fires only when there is an error, with key `error_followed_by_run` and value true (the condition on later runs is stated by `ErrorFollowedByRunSignal`) |
| Signals.SessionDurationRule | backend/app/routes/signals.py:86-94 | the rule fires iff the session has ended, with key `session_duration_minutes` and value `Minutes(end − start)`, the round-half-even minute count |
| Signals.TimeToFirstRunRule | backend/app/routes/signals.py:96-105 | the rule fires iff there is a run, with key `time_to_first_run_minutes` and value `Minutes(first run − start)`, the round-half-even minute count |
| Signals.Derive | backend/app/routes/signals.py:45-105 | the specification of the list: each rule's signal, if any, in rule order, so at most six signals |
| Signals.DeriveSignals | backend/app/routes/signals.py:45-105 | the handler's six guarded appends produce exactly the concatenation of the six rules' optional signals, in rule order |
| Signals.GetSessionSignals | backend/app/routes/signals.py:26-31 | an id missing from the sessions table gives 404 "Session not found" and no signals; otherwise the response carries the id and the derived signals |
| Signals.RunCountSignal | backend/app/routes/signals.py:47-60 | `run_count` is present iff there is a run; its value is the number of runs; the text is the "once" sentence for one run and the "multiple times" sentence for more |
| Signals.RepeatedExecutionSignal | backend/app/routes/signals.py:62-67 | `repeated_execution` is present iff there are at least two runs, with value true and its fixed text |
| Signals.ErrorsPresentSignal | backend/app/routes/signals.py:69-74 | `errors_present` is present iff the error list is non-empty, with value true |
| Signals.ErrorFollowedByRunSignal | backend/app/routes/signals.py:76-84 | `error_followed_by_run` is present iff there is an error and some run executed strictly later than the first error; never without errors |
| Signals.ErrorFollowedByRunAfterAnyError | backend/app/routes/signals.py:76-84 | with errors in ascending time order, being after the first error is the same as being after some error |
| Signals.NoRunAfterFirstError | backend/app/routes/signals.py:76-84 | when every run executed no later than the first error, including at its very instant, `error_followed_by_run` is absent |
| Signals.RunsAfter | backend/app/routes/signals.py:77 | the comprehension keeps exactly the runs whose time is strictly greater than the instant, and only those |
| Signals.SessionDurationSignal | backend/app/routes/signals.py:86-94 | `session_duration_minutes` is present iff the session has ended; its value is (end − start) in minutes rounded half to even, not clamped; the text is the duration sentence with that value |
| Signals.TimeToFirstRunSignal | backend/app/routes/signals.py:96-105 | `time_to_first_run_minutes` is present iff there is a run; its value is (first run − start) in minutes rounded half to even, possibly negative; the text states that value |
| Signals.Minutes | backend/app/routes/signals.py:87-88 | the minute count is a nearest integer to delta / 60 s, the even one on a tie |
| Signals.NegativeDurationNotClamped | backend/app/routes/signals.py:86-88 | there is no clamping: a duration more than 30 s below zero gives a negative minute count, and one from −30 s up to 0 gives 0 |
| Signals.RoundingExamples | backend/app/routes/signals.py:88 | 125 s → 2, 90 s → 2, 150 s → 2, −90 s → −2, 30 s → 0 |
| Signals.DurationTextCarriesValue | backend/app/routes/signals.py:93 | the number written in the duration sentence reads back as the signal's value |
| Signals.FirstRunTextCarriesValue | backend/app/routes/signals.py:104 | the number written in the first-run sentence reads back as the signal's value |
| Signals.OutputOrder | backend/app/routes/signals.py:45-105 | every output key is one of the six, keys appear in the fixed rule order, and none appears twice |
| Signals.FindRule | backend/app/routes/signals.py:45-105 | looking up a rule's key in the output gives exactly that rule's optional signal |
| Signals.EmptyOutput | backend/app/routes/signals.py:45-105 | the list is empty iff there are no runs, no errors and the session is open |
| Signals.Rules | backend/app/routes/signals.py:45-105 | six rules, and each rule's signal, when present, carries the key of its position in the fixed order |
| Signals.Find | backend/app/routes/signals.py:45-105 | the first signal with a key is in the output and has that key; there is none iff no signal has the key |
| Signals.RunsOfSession | backend/app/routes/signals.py:33-36 | the run query keeps exactly the run events of the session |
| Signals.ErrorsOfSession | backend/app/routes/signals.py:38-43 | the error query keeps exactly the error events whose run belongs to the session |
| Signals.SessionErrorsAtMostRuns | backend/app/routes/signals.py:33-43 | in a log kept by the execute handler, the error query of a session returns no more rows than its run query |
| Signals.ErrorsNeverOutnumberRuns | backend/app/routes/signals.py:33-74 | on the two query results of such a log, in any order, errors are never more than runs, so `errors_present` never comes without `run_count` |
| Text.IntToString | backend/app/routes/signals.py:93 | an integer's text is non-empty and starts with '-' iff the integer is negative |
| Text.IntRoundTrip | backend/app/routes/signals.py:93 | an integer's decimal text parses back to that integer |
| Text.IntToStringInjective | backend/app/routes/signals.py:93 | different integers have different texts, so the description determines the value |
| Rounding.RoundHalfEven | backend/app/routes/signals.py:88 | the result is within half a divisor of the quotient, and even on an exact tie |
| Rounding.RoundHalfEvenUnique | backend/app/routes/signals.py:88 | no other integer meets those two conditions, so `round` is fully pinned down |
| Rounding.RoundHalfEvenNegate | backend/app/routes/signals.py:88 | rounding commutes with negation, so negative durations round symmetrically |
| Rounding.RoundHalfEvenExact | backend/app/routes/signals.py:88 | a whole number of minutes rounds to itself |
| Sessions.StartStep | backend/app/routes/sessions.py:29-44 | start answers the counter's id and now, advances the counter, adds exactly that id to the table as an open row with the user, prompt and now, and leaves every other row as it was |
| Sessions.EndStep | backend/app/routes/sessions.py:58-80 | end fails iff the id is unknown or already ended, and a failure leaves the table as it was; success answers the id and now, keeps the ids and the counter, and sets that row's end time to now |
| Sessions.SessionStore.Start | backend/app/routes/sessions.py:19-44 | inserting keeps the table valid and the new state and answer are those of `StartStep` |
| Sessions.SessionStore.End | backend/app/routes/sessions.py:47-81 | ending keeps the table valid and the new state and answer are those of `EndStep` |
| Sessions.StartAddsOpenSession | backend/app/routes/sessions.py:29-44 | start adds one session under an id not used before, open, started now, with the given user and prompt; it returns that id and time; existing rows are untouched |
| Sessions.StartKeepsOpenSessions | backend/app/routes/sessions.py:24-25 | start closes nothing: the user's open sessions gain exactly the new one and another user's open sessions are unchanged |
| Sessions.TwoOpenSessions | backend/app/routes/sessions.py:29-37 | two starts by one user leave two distinct open sessions |
| Sessions.EndUnknownSession | backend/app/routes/sessions.py:58-63 | ending an unknown id is 404 "Session not found" and leaves the table as it was |
| Sessions.EndEndedSession | backend/app/routes/sessions.py:65-66 | ending an ended session is 400 "Session already ended" and keeps its end time |
| Sessions.EndOpenSession | backend/app/routes/sessions.py:68-80 | ending an open session sets its end time to now and changes no other session, no other field and not the id counter |
| Sessions.EndOnceOnly | backend/app/routes/sessions.py:65-66 | after a successful end, every further end of that id fails with 400 and changes nothing |
| Sessions.EndedSessionIsFinal | backend/app/routes/sessions.py:52 | an ended session's row is never changed by a later start or end |
| Sessions.EndKeepsTableValid | backend/app/routes/sessions.py:68-80 | ending keeps every id within the counter |
| Execute.Normalise | backend/app/routes/execute.py:34-42 | a finished process keeps its own streams; a timeout or an exception leaves stdout empty, with the fixed non-empty timeout text or the exception's text as stderr |
| Execute.Respond | backend/app/routes/execute.py:64-67 | the error flag is set iff stderr is non-empty, and the output is stderr then and stdout otherwise |
| Execute.ExecuteStep | backend/app/routes/execute.py:34-67 | a call appends exactly one run under the next id and keeps the earlier runs; it appends one error exactly when it answers with the error flag and keeps the earlier errors; the answer is the response to the normalised streams |
| Execute.EventStore.Execute | backend/app/routes/execute.py:16-67 | a call keeps the event log valid and produces the log and response of `ExecuteStep` |
| Execute.ExecuteAppendsOneRun | backend/app/routes/execute.py:44-51 | whatever the outcome, exactly one run is appended, for the session and the clock reading, under a fresh id; earlier runs are kept |
| Execute.ExecuteRecordsErrorIff | backend/app/routes/execute.py:53-60 | an error event is appended iff stderr is non-empty; it carries the new run's id, stderr as its message and the second clock reading |
| Execute.AppendRunValid | backend/app/routes/execute.py:44-51 | appending a run under the next id keeps the log valid |
| Execute.AppendErrorValid | backend/app/routes/execute.py:53-60 | appending a non-empty error for a recorded run without an error keeps the log valid |
| Execute.ExecutePreservesValid | backend/app/routes/execute.py:44-62 | every call keeps each error tied to a recorded run, at most one error per run, and no empty message |
| Execute.TimeoutRecordsError | backend/app/routes/execute.py:37-39 | a timeout records an error with the fixed timeout message and answers it with the error flag |
| Execute.RaisedOutcome | backend/app/routes/execute.py:40-42 | an exception's text becomes stderr with an empty stdout; a non-empty text is recorded and reported as an error |
| Execute.ResponseMatchesRecord | backend/app/routes/execute.py:64-67 | the error flag is set iff an error event was recorded, and then the output is its message; otherwise the output is stdout |
| Auth.UserByEmail | backend/app/routes/auth.py:89-91 | the lookup gives the first user with the e-mail, and nothing iff no user has it |
| Auth.UnusedToken | backend/app/routes/auth.py:96-102 | the lookup gives a token of the user with the code that is not used, and nothing iff there is none |
| Auth.SignupStep | backend/app/routes/auth.py:36-75 | signup fails iff the e-mail is registered, then with 400 "Email already registered" and no change; success answers the e-mail and the fixed message and appends exactly one user and one token, keeping the earlier rows |
| Auth.VerifyStep | backend/app/routes/auth.py:89-122 | a failure is "User not found", "Invalid OTP" or "OTP expired" and changes nothing; success answers the fixed message; no row is added or removed and no e-mail changes |
| Auth.LoginResult | backend/app/routes/auth.py:136-151 | a failure is 401 or 403; success needs the looked-up user to be verified and the password to check, and answers `createToken` of that user's id as a bearer token |
| Auth.AuthStore.Signup | backend/app/routes/auth.py:24-75 | signup keeps the tables valid and the new state and answer are those of `SignupStep` |
| Auth.AuthStore.VerifyEmail | backend/app/routes/auth.py:78-122 | verification keeps the tables valid and the new state and answer are those of `VerifyStep` |
| Auth.AuthStore.Login | backend/app/routes/auth.py:125-151 | login changes nothing and answers `LoginResult` on the current state |
| Auth.OtpFromDigits | backend/app/routes/auth.py:55 | the code has one decimal character per draw, each showing its draw |
| Auth.SignupRejectsRegisteredEmail | backend/app/routes/auth.py:36-41 | a registered e-mail is 400 "Email already registered" and nothing is inserted |
| Auth.SignupCreatesAccount | backend/app/routes/auth.py:45-65 | a new e-mail gets one unverified user under a fresh id, with the hashed password, and one unused token for that user whose code is the six digits and which expires 15 minutes after now |
| Auth.SignupKeepsValid | backend/app/routes/auth.py:36-65 | signup keeps e-mails unique, ids increasing and one token per existing user |
| Auth.VerifyUnknownEmail | backend/app/routes/auth.py:89-94 | an unknown e-mail is 404 "User not found" and changes nothing |
| Auth.VerifyInvalidOtp | backend/app/routes/auth.py:96-105 | for a registered e-mail, "Invalid OTP" happens iff the user has no unused token with the code, and then nothing changes |
| Auth.VerifyExpiry | backend/app/routes/auth.py:107-108 | a matching token with expiry before now is "OTP expired" and changes nothing; one expiring at now or later is accepted |
| Auth.VerifySuccessEffect | backend/app/routes/auth.py:110-120 | success marks exactly that user verified and that token used and changes no other row or field |
| Auth.VerifyKeepsValid | backend/app/routes/auth.py:110-120 | verification keeps the tables valid |
| Auth.TokenVerifiesOnce | backend/app/routes/auth.py:96-102 | a token that has verified is used and the token lookup never picks it again, whatever the code |
| Auth.NoReverification | backend/app/routes/auth.py:96-105 | after a user has verified, every further verification for that e-mail is "Invalid OTP" and changes nothing |
| Auth.VerifyFound | backend/app/routes/auth.py:104-122 | once the user and an unused matching token are found, the answer is "OTP expired" iff the token expired before now, and success otherwise |
| Auth.SignupLookups | backend/app/routes/auth.py:45-65 | after signup the e-mail lookup finds the new user and the token lookup with the issued code finds its token |
| Auth.IssuedCodeVerifies | backend/app/routes/auth.py:56 | the code issued at signup verifies up to and including 15 minutes later and is "OTP expired" after that |
| Auth.LoginCheckOrder | backend/app/routes/auth.py:136-147 | an unknown e-mail is 401; an unverified user is 403 whatever the password; a verified user with a wrong password is 401 |
| Auth.LoginIssuesTokenIff | backend/app/routes/auth.py:135-151 | a bearer token for the user's id is issued iff the user exists, is verified and the password checks |
| Auth.LoginRefusedBeforeVerification | backend/app/routes/auth.py:143-144 | straight after signup, login is 403 even with the right password |
| Auth.LoginAfterVerification | backend/app/routes/auth.py:143-149 | after a successful verification, the right password logs in with a token for that user |
| Auth.UniqueEmailFound | backend/app/routes/auth.py:89-91 | with unique e-mails, the e-mail lookup finds the one user with that e-mail |
| Auth.UniqueTokenFound | backend/app/routes/auth.py:96-102 | with one token per user, the token lookup finds the user's unused token with that code |
| Auth.UserByEmailAfterVerify | backend/app/routes/auth.py:110-112 | verification changes no e-mail, so the e-mail lookup still finds the same user |
| Models.FirstMatch | backend/app/routes/auth.py:89-91 | `.first()` returns a row that satisfies the condition with no earlier one that does, and nothing iff no row does |

## Left out

- The SQL queries of the signals handler (`signals.py:26-43`): the session lookup is on a map, and the run and error lists are inputs. `ORDER BY executed_at` / `occurred_at` is left out. `RunsOfSession` and `ErrorsOfSession` model only the `WHERE` and `JOIN` filters, and `ErrorsNeverOutnumberRuns` holds for any order of their results.
- Floating point: `total_seconds() / 60` and `round` are computed on exact integers. An IEEE rounding error on huge durations is not modelled.
- The subprocess itself, the `python -c` invocation and its 2-second timeout (`execute.py:27-32`): these are an `Outcome` input.
- `datetime.utcnow()` becomes a parameter. Signup reads the clock twice (`created_at` and `expires_at`), and the model uses one reading `now` for both. Execute's two readings are the parameters `runAt` and `errorAt`.
- `secrets.randbelow(10)`: the six draws are a `digits` parameter.
- The development-mode `print` of the OTP (`auth.py:69-70`) is output only.
- bcrypt hashing and checking and JWT creation (`backend/app/security/auth.py`) are function parameters with no assumed properties.
- Database transactions, commit semantics, concurrency between requests and foreign-key enforcement are not modelled. Each handler is one atomic step.
- The "one token per user" part of `AuthValid` holds because signup is the only place a token is created. The database does not enforce it.
- Pydantic request validation (e-mail format, field types) and the response schemas are not modelled.
- `backend/app/routes/prompts.py`, the frontend pages, `main.py`, `config.py`, `create_tables.py` and `seed_prompts.py` are not part of this model.
