/**
  Code execution and event recording. The interpreter's outcome is an input:
  it finished with some stdout and stderr, it timed out, or starting it
  raised an exception. Every call records one run event; a non-empty stderr
  also records one error event for that run. `ExecuteStep` says what a call
  does to the event tables and what it answers; `EventStore` performs it in
  place. `LogValid` is the invariant the signals engine relies on: each error
  belongs to a recorded run, no run has two errors, no message is empty.
 */
module Execute {

  import opened Models

  /** What running the submitted code produced. */
  datatype Outcome =
    | Completed(stdout: string, stderr: string)
    | TimedOut
    | Raised(message: string)

  const TimeoutMessage: string := "Execution timed out after 2 seconds"

  datatype Streams = Streams(stdout: string, stderr: string)

  datatype ExecuteResponse = ExecuteResponse(output: string, error: bool)

  /** The two event tables in insertion order, with their id counters. */
  datatype EventLog = EventLog(
    runs: seq<RunEvent>,
    errors: seq<ErrorEvent>,
    nextRunId: int,
    nextErrorId: int)

  predicate HasRun(runs: seq<RunEvent>, runId: int) {
    exists k :: 0 <= k < |runs| && runs[k].id == runId
  }

  ghost predicate LogValid(log: EventLog) {
    && log.nextRunId >= 1 && log.nextErrorId >= 1
    && (forall i :: 0 <= i < |log.runs| ==> 1 <= log.runs[i].id < log.nextRunId)
    && (forall i, j :: 0 <= i < j < |log.runs| ==> log.runs[i].id < log.runs[j].id)
    && (forall i :: 0 <= i < |log.errors| ==> 1 <= log.errors[i].id < log.nextErrorId)
    && (forall i, j :: 0 <= i < j < |log.errors| ==> log.errors[i].id < log.errors[j].id)
    && (forall i :: 0 <= i < |log.errors| ==> log.errors[i].message != "")
    && (forall i :: 0 <= i < |log.errors| ==> HasRun(log.runs, log.errors[i].runId))
    && (forall i, j :: 0 <= i < j < |log.errors| ==> log.errors[i].runId != log.errors[j].runId)
  }

  /** The stdout and stderr the handler continues with: the process's own
      streams, or an empty stdout and a message for a timeout or an exception. */
  function Normalise(outcome: Outcome): (s: Streams)
    ensures outcome.Completed? ==> s == Streams(outcome.stdout, outcome.stderr)
    ensures !outcome.Completed? ==> s.stdout == ""
    ensures outcome.TimedOut? ==> s.stderr == TimeoutMessage && s.stderr != ""
    ensures outcome.Raised? ==> s.stderr == outcome.message
  {
    match outcome
    case Completed(out, err) => Streams(out, err)
    case TimedOut => Streams("", TimeoutMessage)
    case Raised(message) => Streams("", message)
  }

  /** A non-empty stderr is reported as an error; otherwise stdout is the output. */
  function Respond(streams: Streams): (r: ExecuteResponse)
    ensures r.error <==> streams.stderr != ""
    ensures r.output == if r.error then streams.stderr else streams.stdout
  {
    if streams.stderr != "" then ExecuteResponse(streams.stderr, true)
    else ExecuteResponse(streams.stdout, false)
  }

  /** `POST /execute`: record the run, then its error if stderr is non-empty. */
  function ExecuteStep(log: EventLog, sessionId: int, outcome: Outcome,
                       runAt: Timestamp, errorAt: Timestamp): (r: (EventLog, ExecuteResponse))
    ensures r.0.runs == log.runs + [RunEvent(log.nextRunId, sessionId, runAt)]
    ensures r.0.nextRunId == log.nextRunId + 1
    ensures r.1 == Respond(Normalise(outcome))
    ensures |r.0.errors| == |log.errors| + (if r.1.error then 1 else 0)
    ensures r.0.errors[..|log.errors|] == log.errors
  {
    var streams := Normalise(outcome);
    var runId := log.nextRunId;
    var runs := log.runs + [RunEvent(runId, sessionId, runAt)];
    var log' :=
      if streams.stderr != "" then
        EventLog(runs, log.errors + [ErrorEvent(log.nextErrorId, runId, streams.stderr, errorAt)],
                 runId + 1, log.nextErrorId + 1)
      else EventLog(runs, log.errors, runId + 1, log.nextErrorId);
    (log', Respond(streams))
  }

  class EventStore {
    var runs: seq<RunEvent>
    var errors: seq<ErrorEvent>
    var nextRunId: int
    var nextErrorId: int

    function Log(): EventLog
      reads this
    {
      EventLog(runs, errors, nextRunId, nextErrorId)
    }

    ghost predicate Valid()
      reads this
    {
      LogValid(Log())
    }

    constructor ()
      ensures Valid() && runs == [] && errors == []
    {
      runs, errors := [], [];
      nextRunId, nextErrorId := 1, 1;
    }

    /** `runAt` and `errorAt` are the two clock readings the handler takes. */
    method Execute(sessionId: int, outcome: Outcome, runAt: Timestamp, errorAt: Timestamp)
      returns (response: ExecuteResponse)
      requires Valid()
      modifies this
      ensures Valid()
      ensures (Log(), response) == ExecuteStep(old(Log()), sessionId, outcome, runAt, errorAt)
    {
      ExecutePreservesValid(Log(), sessionId, outcome, runAt, errorAt);
      var stdout: string, stderr: string;
      match outcome {
        case Completed(out, err) =>
          stdout := out;
          stderr := err;
        case TimedOut =>
          stderr := TimeoutMessage;
          stdout := "";
        case Raised(message) =>
          stderr := message;
          stdout := "";
      }

      var runId := nextRunId;
      runs := runs + [RunEvent(runId, sessionId, runAt)];
      nextRunId := nextRunId + 1;

      if stderr != "" {
        errors := errors + [ErrorEvent(nextErrorId, runId, stderr, errorAt)];
        nextErrorId := nextErrorId + 1;
      }

      if stderr != "" {
        response := ExecuteResponse(stderr, true);
      } else {
        response := ExecuteResponse(stdout, false);
      }
    }
  }

  /** Whatever the outcome, exactly one run is appended, for this session,
      under an id no recorded run has. */
  lemma ExecuteAppendsOneRun(log: EventLog, sessionId: int, outcome: Outcome,
                             runAt: Timestamp, errorAt: Timestamp)
    requires LogValid(log)
    ensures var log' := ExecuteStep(log, sessionId, outcome, runAt, errorAt).0;
      && |log'.runs| == |log.runs| + 1
      && log'.runs[..|log.runs|] == log.runs
      && log'.runs[|log.runs|].sessionId == sessionId
      && log'.runs[|log.runs|].executedAt == runAt
      && !HasRun(log.runs, log'.runs[|log.runs|].id)
  {
  }

  /** An error event is appended iff stderr is non-empty; it carries the id of
      the run appended by the same call and the (non-empty) stderr text. */
  lemma ExecuteRecordsErrorIff(log: EventLog, sessionId: int, outcome: Outcome,
                               runAt: Timestamp, errorAt: Timestamp)
    ensures var log' := ExecuteStep(log, sessionId, outcome, runAt, errorAt).0;
      var stderr := Normalise(outcome).stderr;
      && (stderr == "" ==> log'.errors == log.errors)
      && (stderr != "" ==>
            && |log'.errors| == |log.errors| + 1
            && log'.errors[..|log.errors|] == log.errors
            && log'.errors[|log.errors|].runId == log'.runs[|log'.runs| - 1].id
            && log'.errors[|log.errors|].message == stderr
            && log'.errors[|log.errors|].occurredAt == errorAt)
  {
  }

  /** Appending a run under the next id keeps the log well formed. */
  lemma AppendRunValid(log: EventLog, run: RunEvent)
    requires LogValid(log) && run.id == log.nextRunId
    ensures LogValid(EventLog(log.runs + [run], log.errors, log.nextRunId + 1, log.nextErrorId))
  {
    var runs := log.runs + [run];
    forall i | 0 <= i < |log.errors| ensures HasRun(runs, log.errors[i].runId) {
      assert HasRun(log.runs, log.errors[i].runId);
      var k :| 0 <= k < |log.runs| && log.runs[k].id == log.errors[i].runId;
      assert runs[k] == log.runs[k];
    }
  }

  /** Appending a non-empty error for a recorded run that has no error yet
      keeps the log well formed. */
  lemma AppendErrorValid(log: EventLog, error: ErrorEvent)
    requires LogValid(log) && error.id == log.nextErrorId
    requires error.message != "" && HasRun(log.runs, error.runId)
    requires forall i :: 0 <= i < |log.errors| ==> log.errors[i].runId != error.runId
    ensures LogValid(EventLog(log.runs, log.errors + [error], log.nextRunId, log.nextErrorId + 1))
  {
  }

  /** Recording keeps the log well formed: in particular the new error, if
      any, is the only error of the new run, and its message is non-empty. */
  lemma ExecutePreservesValid(log: EventLog, sessionId: int, outcome: Outcome,
                              runAt: Timestamp, errorAt: Timestamp)
    requires LogValid(log)
    ensures LogValid(ExecuteStep(log, sessionId, outcome, runAt, errorAt).0)
  {
    var streams := Normalise(outcome);
    var run := RunEvent(log.nextRunId, sessionId, runAt);
    var mid := EventLog(log.runs + [run], log.errors, log.nextRunId + 1, log.nextErrorId);
    AppendRunValid(log, run);
    if streams.stderr != "" {
      var error := ErrorEvent(log.nextErrorId, run.id, streams.stderr, errorAt);
      assert mid.runs[|log.runs|] == run;
      forall i | 0 <= i < |log.errors| ensures log.errors[i].runId != run.id {
        assert HasRun(log.runs, log.errors[i].runId);
        var k :| 0 <= k < |log.runs| && log.runs[k].id == log.errors[i].runId;
      }
      AppendErrorValid(mid, error);
      assert ExecuteStep(log, sessionId, outcome, runAt, errorAt).0 ==
        EventLog(mid.runs, mid.errors + [error], mid.nextRunId, mid.nextErrorId + 1);
    } else {
      assert ExecuteStep(log, sessionId, outcome, runAt, errorAt).0 == mid;
    }
  }

  /** A timeout always records an error with the fixed message, and the
      response reports it with an error flag. */
  lemma TimeoutRecordsError(log: EventLog, sessionId: int, runAt: Timestamp, errorAt: Timestamp)
    ensures var (log', response) := ExecuteStep(log, sessionId, TimedOut, runAt, errorAt);
      && log'.errors == log.errors + [ErrorEvent(log.nextErrorId, log.nextRunId, TimeoutMessage, errorAt)]
      && response == ExecuteResponse(TimeoutMessage, true)
  {
  }

  /** An exception's text becomes stderr and stdout is empty: a non-empty text
      is recorded and reported as an error, an empty one as empty output. */
  lemma RaisedOutcome(log: EventLog, sessionId: int, message: string, runAt: Timestamp, errorAt: Timestamp)
    ensures var (log', response) := ExecuteStep(log, sessionId, Raised(message), runAt, errorAt);
      && Normalise(Raised(message)) == Streams("", message)
      && (message != "" ==> response == ExecuteResponse(message, true) && |log'.errors| == |log.errors| + 1)
      && (message == "" ==> response == ExecuteResponse("", false) && log'.errors == log.errors)
  {
  }

  /** The response flags an error exactly when an error event was recorded,
      and then its output is that event's message; otherwise it is stdout. */
  lemma ResponseMatchesRecord(log: EventLog, sessionId: int, outcome: Outcome,
                              runAt: Timestamp, errorAt: Timestamp)
    ensures var (log', response) := ExecuteStep(log, sessionId, outcome, runAt, errorAt);
      && (response.error <==> |log'.errors| == |log.errors| + 1)
      && (response.error ==> response.output == log'.errors[|log.errors|].message)
      && (!response.error ==> response.output == Normalise(outcome).stdout)
  {
  }
}
