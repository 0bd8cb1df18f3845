/**
  The sessions table and its two operations. Starting inserts an open session
  with a fresh id; ending sets `endedAt` exactly once. `StartStep` and
  `EndStep` say what each operation does to the table and what it answers;
  `SessionStore` performs them in place and is proved to agree with them.
 */
module Sessions {

  import opened Models

  datatype StartResponse = StartResponse(sessionId: int, startedAt: Timestamp)

  datatype EndResponse = EndResponse(sessionId: int, endedAt: Timestamp)

  /** The table's rows by primary key, and the next value of its
      auto-incrementing id. */
  datatype SessionTable = SessionTable(rows: map<int, SessionRow>, nextId: int)

  /** Every id in use was handed out by the counter. */
  ghost predicate TableValid(t: SessionTable) {
    && t.nextId >= 1
    && forall id :: id in t.rows ==> 1 <= id < t.nextId
  }

  const SessionNotFound: HttpError := HttpError(404, "Session not found")
  const SessionAlreadyEnded: HttpError := HttpError(400, "Session already ended")

  /** `POST /sessions/start`: insert an open session started now. Other open
      sessions, of this user or any other, are neither checked nor closed. */
  function StartStep(t: SessionTable, userId: int, promptText: string, now: Timestamp)
    : (r: (SessionTable, StartResponse))
    ensures r.1 == StartResponse(t.nextId, now)
    ensures r.0.nextId == t.nextId + 1
    ensures r.0.rows.Keys == t.rows.Keys + {t.nextId}
    ensures r.0.rows[t.nextId] == SessionRow(userId, promptText, now, None)
    ensures forall id :: id in t.rows && id != t.nextId ==> r.0.rows[id] == t.rows[id]
  {
    var id := t.nextId;
    (SessionTable(t.rows[id := SessionRow(userId, promptText, now, None)], id + 1),
     StartResponse(id, now))
  }

  /** `POST /sessions/end`: a missing session is a 404, an ended one a 400;
      both leave the table as it was. Otherwise the session ends now. */
  function EndStep(t: SessionTable, sessionId: int, now: Timestamp)
    : (r: (SessionTable, Result<EndResponse, HttpError>))
    ensures r.1.Failure? <==> sessionId !in t.rows || t.rows[sessionId].endedAt.Some?
    ensures r.1.Failure? ==> r.0 == t
    ensures r.1.Success? ==>
      && r.1.value == EndResponse(sessionId, now)
      && r.0.nextId == t.nextId && r.0.rows.Keys == t.rows.Keys
      && r.0.rows[sessionId].endedAt == Some(now)
  {
    if sessionId !in t.rows then (t, Failure(SessionNotFound))
    else if t.rows[sessionId].endedAt.Some? then (t, Failure(SessionAlreadyEnded))
    else
      (t.(rows := t.rows[sessionId := t.rows[sessionId].(endedAt := Some(now))]),
       Success(EndResponse(sessionId, now)))
  }

  /** The ids of the sessions of `userId` that have not ended. */
  ghost function OpenSessionsOf(t: SessionTable, userId: int): set<int> {
    set id | id in t.rows && t.rows[id].userId == userId && t.rows[id].endedAt.None?
  }

  class SessionStore {
    var rows: map<int, SessionRow>
    var nextId: int

    function Table(): SessionTable
      reads this
    {
      SessionTable(rows, nextId)
    }

    ghost predicate Valid()
      reads this
    {
      TableValid(Table())
    }

    constructor ()
      ensures Valid() && rows == map[]
    {
      rows := map[];
      nextId := 1;
    }

    method Start(userId: int, promptText: string, now: Timestamp) returns (response: StartResponse)
      requires Valid()
      modifies this
      ensures Valid()
      ensures (Table(), response) == StartStep(old(Table()), userId, promptText, now)
    {
      var id := nextId;
      rows := rows[id := SessionRow(userId, promptText, now, None)];
      nextId := nextId + 1;
      response := StartResponse(id, now);
    }

    method End(sessionId: int, now: Timestamp) returns (result: Result<EndResponse, HttpError>)
      requires Valid()
      modifies this
      ensures Valid()
      ensures (Table(), result) == EndStep(old(Table()), sessionId, now)
    {
      if sessionId !in rows {
        return Failure(SessionNotFound);
      }
      var existing := rows[sessionId];
      if existing.endedAt.Some? {
        return Failure(SessionAlreadyEnded);
      }
      var endedAt := now;
      rows := rows[sessionId := existing.(endedAt := Some(endedAt))];
      return Success(EndResponse(sessionId, endedAt));
    }
  }

  /** Start adds one new open session, under an id no existing session has,
      started at `now`; all existing sessions are untouched. */
  lemma StartAddsOpenSession(t: SessionTable, userId: int, promptText: string, now: Timestamp)
    requires TableValid(t)
    ensures var (t', r) := StartStep(t, userId, promptText, now);
      && TableValid(t')
      && r.sessionId !in t.rows
      && r.startedAt == now
      && t'.rows.Keys == t.rows.Keys + {r.sessionId}
      && t'.rows[r.sessionId] == SessionRow(userId, promptText, now, None)
      && (forall id :: id in t.rows ==> t'.rows[id] == t.rows[id])
  {
  }

  /** Start never closes anything: the user's open sessions gain exactly the
      new one, and every other user's open sessions stay as they were. */
  lemma StartKeepsOpenSessions(t: SessionTable, userId: int, promptText: string, now: Timestamp, other: int)
    requires TableValid(t)
    requires other != userId
    ensures var (t', r) := StartStep(t, userId, promptText, now);
      && r.sessionId !in OpenSessionsOf(t, userId)
      && OpenSessionsOf(t', userId) == OpenSessionsOf(t, userId) + {r.sessionId}
      && |OpenSessionsOf(t', userId)| == |OpenSessionsOf(t, userId)| + 1
      && OpenSessionsOf(t', other) == OpenSessionsOf(t, other)
  {
    var (t', r) := StartStep(t, userId, promptText, now);
    var before, after := OpenSessionsOf(t, userId), OpenSessionsOf(t', userId);
    assert r.sessionId !in t.rows;
    forall id ensures id in after <==> id in before + {r.sessionId} {
      if id != r.sessionId {
        assert id in t'.rows <==> id in t.rows;
      }
    }
    assert after == before + {r.sessionId};
    forall id ensures id in OpenSessionsOf(t', other) <==> id in OpenSessionsOf(t, other) {
      if id != r.sessionId {
        assert id in t'.rows <==> id in t.rows;
      }
    }
  }

  /** Two starts by the same user leave two distinct open sessions. */
  lemma TwoOpenSessions(t: SessionTable, userId: int, p1: string, p2: string, now1: Timestamp, now2: Timestamp)
    requires TableValid(t)
    ensures var (t1, r1) := StartStep(t, userId, p1, now1);
      var (t2, r2) := StartStep(t1, userId, p2, now2);
      && r1.sessionId != r2.sessionId
      && {r1.sessionId, r2.sessionId} <= OpenSessionsOf(t2, userId)
  {
    var (t1, r1) := StartStep(t, userId, p1, now1);
    StartAddsOpenSession(t, userId, p1, now1);
    StartAddsOpenSession(t1, userId, p2, now2);
  }

  /** Ending an unknown id is a 404 and changes nothing. */
  lemma EndUnknownSession(t: SessionTable, sessionId: int, now: Timestamp)
    requires sessionId !in t.rows
    ensures EndStep(t, sessionId, now) == (t, Failure(SessionNotFound))
  {
  }

  /** Ending an ended session is a 400 and keeps its end time. */
  lemma EndEndedSession(t: SessionTable, sessionId: int, now: Timestamp)
    requires sessionId in t.rows && t.rows[sessionId].endedAt.Some?
    ensures EndStep(t, sessionId, now) == (t, Failure(SessionAlreadyEnded))
  {
  }

  /** Ending an open session sets its `endedAt` to `now` and changes nothing
      else: no other session, no other field, not the id counter. */
  lemma EndOpenSession(t: SessionTable, sessionId: int, now: Timestamp)
    requires sessionId in t.rows && t.rows[sessionId].endedAt.None?
    ensures var (t', r) := EndStep(t, sessionId, now);
      && r == Success(EndResponse(sessionId, now))
      && t'.nextId == t.nextId
      && t'.rows.Keys == t.rows.Keys
      && (forall id :: id in t.rows && id != sessionId ==> t'.rows[id] == t.rows[id])
      && t'.rows[sessionId].endedAt == Some(now)
      && t'.rows[sessionId].userId == t.rows[sessionId].userId
      && t'.rows[sessionId].promptText == t.rows[sessionId].promptText
      && t'.rows[sessionId].startedAt == t.rows[sessionId].startedAt
  {
  }

  /** Ending is once-only: after a successful end, every further end of that
      session fails and leaves its end time as it was. */
  lemma EndOnceOnly(t: SessionTable, sessionId: int, now: Timestamp, later: Timestamp)
    requires EndStep(t, sessionId, now).1.Success?
    ensures var t' := EndStep(t, sessionId, now).0;
      && t'.rows[sessionId].endedAt == Some(now)
      && EndStep(t', sessionId, later) == (t', Failure(SessionAlreadyEnded))
  {
  }

  /** Once a session has ended its row never changes again, whatever is
      started or ended afterwards. */
  lemma EndedSessionIsFinal(t: SessionTable, id: int, userId: int, promptText: string,
                            other: int, now: Timestamp)
    requires TableValid(t)
    requires id in t.rows && t.rows[id].endedAt.Some?
    ensures StartStep(t, userId, promptText, now).0.rows[id] == t.rows[id]
    ensures EndStep(t, other, now).0.rows[id] == t.rows[id]
  {
  }

  /** Ending keeps the table well formed. */
  lemma EndKeepsTableValid(t: SessionTable, sessionId: int, now: Timestamp)
    requires TableValid(t)
    ensures TableValid(EndStep(t, sessionId, now).0)
  {
  }
}
