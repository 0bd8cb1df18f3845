/**
  Row shapes of the tables the backend reads and writes (sessions, run and
  error events, users, e-mail verification tokens), the failure values its
  handlers raise, and the time unit every timestamp is measured in.
 */
module Models {

  datatype Option<+T> = None | Some(value: T)

  /** A handler either returns a response or raises an HTTP error. */
  datatype Result<+R, +E> = Success(value: R) | Failure(error: E)

  /** `HTTPException(status_code, detail)` */
  datatype HttpError = HttpError(status: int, detail: string)

  /** Timestamps are microseconds on the UTC clock (Python's `datetime`
      resolution); a duration is the difference of two timestamps. */
  type Timestamp = int

  const MicrosPerSecond: int := 1_000_000
  const MicrosPerMinute: int := 60 * MicrosPerSecond

  /** A row of the `sessions` table; its primary key is the key of the map
      that holds it. `endedAt` is `None` while the session is open. */
  datatype SessionRow = SessionRow(
    userId: int,
    promptText: string,
    startedAt: Timestamp,
    endedAt: Option<Timestamp>)

  /** A row of the `run_events` table: one code execution attempt. */
  datatype RunEvent = RunEvent(id: int, sessionId: int, executedAt: Timestamp)

  /** A row of the `error_events` table; it belongs to a run, not to a session. */
  datatype ErrorEvent = ErrorEvent(id: int, runId: int, message: string, occurredAt: Timestamp)

  /** A row of the `users` table. */
  datatype User = User(
    id: int,
    email: string,
    passwordHash: string,
    isVerified: bool,
    createdAt: Timestamp)

  /** A row of the `email_verification_tokens` table. */
  datatype VerificationToken = VerificationToken(
    id: int,
    userId: int,
    otpCode: string,
    expiresAt: Timestamp,
    used: bool)

  /** A query's `.first()`: the position of the first row, in table order,
      that satisfies the condition. */
  function FirstMatch<T>(rows: seq<T>, cond: T -> bool): (o: Option<nat>)
    ensures o.Some? ==> o.value < |rows| && cond(rows[o.value])
    ensures o.Some? ==> forall j :: 0 <= j < o.value ==> !cond(rows[j])
    ensures o.None? <==> forall j :: 0 <= j < |rows| ==> !cond(rows[j])
  {
    if rows == [] then None
    else if cond(rows[0]) then Some(0)
    else match FirstMatch(rows[1..], cond)
      case None => None
      case Some(i) => Some(i + 1)
  }
}
