/**
  Session signals: descriptive facts derived from one session's row, its run
  events (ascending by `executedAt`) and its error events (ascending by
  `occurredAt`). Six independent rules each contribute at most one signal,
  always in the same order.

  `Derive` is the specification: the concatenation of the six rules' optional
  signals. `DeriveSignals` builds the list the way the handler does, by
  guarded appends, and is proved equal to it. The lemmas below state each
  rule's emission condition, value and description in terms of the inputs,
  and the fixed order of the output.
 */
module Signals {

  import opened Models
  import opened Text
  import opened Rounding
  import Execute

  /** A signal's value is an integer or a boolean, never anything else. */
  datatype SignalValue = IntVal(i: int) | BoolVal(b: bool)

  datatype Signal = Signal(key: string, value: SignalValue, description: string)

  datatype SignalsResponse = SignalsResponse(sessionId: int, signals: seq<Signal>)

  const RunCountKey: string := "run_count"
  const RepeatedExecutionKey: string := "repeated_execution"
  const ErrorsPresentKey: string := "errors_present"
  const ErrorFollowedByRunKey: string := "error_followed_by_run"
  const SessionDurationKey: string := "session_duration_minutes"
  const TimeToFirstRunKey: string := "time_to_first_run_minutes"

  /** The order in which the rules run, and so the order of the output. */
  const KeyOrder: seq<string> := [RunCountKey, RepeatedExecutionKey, ErrorsPresentKey,
                                  ErrorFollowedByRunKey, SessionDurationKey, TimeToFirstRunKey]

  const RanOnceText: string := "You ran your code once during this session."
  const RanManyText: string := "You ran your code multiple times during this session."
  const RepeatedExecutionText: string := "The code was executed more than once during this session."
  const ErrorsPresentText: string := "Errors occurred during this session."
  const ErrorFollowedByRunText: string := "After an error occurred, the code was run again."

  const DurationPrefix: string := "This session lasted "
  const FirstRunPrefix: string := "The first code execution occurred after "
  const MinutesSuffix: string := " minutes."

  function DurationText(minutes: int): string {
    DurationPrefix + IntToString(minutes) + MinutesSuffix
  }

  function FirstRunText(minutes: int): string {
    FirstRunPrefix + IntToString(minutes) + MinutesSuffix
  }

  /** `round(delta.total_seconds() / 60)` on the exact value of the duration. */
  function Minutes(delta: int): (m: int)
    ensures IsRoundHalfEven(delta, MicrosPerMinute, m)
  {
    RoundHalfEven(delta, MicrosPerMinute)
  }

  /** The runs executed strictly after instant `t`. */
  function RunsAfter(runs: seq<RunEvent>, t: Timestamp): (after: seq<RunEvent>)
    ensures |after| <= |runs|
    ensures forall r :: r in after <==> r in runs && r.executedAt > t
  {
    if runs == [] then []
    else if runs[0].executedAt > t then [runs[0]] + RunsAfter(runs[1..], t)
    else RunsAfter(runs[1..], t)
  }

  // The six rules, each reading only the inputs.

  function RunCountRule(runs: seq<RunEvent>): (o: Option<Signal>)
    ensures o.Some? <==> |runs| > 0
    ensures o.Some? ==> o.value.key == RunCountKey && o.value.value == IntVal(|runs|)
  {
    if |runs| == 1 then Some(Signal(RunCountKey, IntVal(|runs|), RanOnceText))
    else if |runs| > 1 then Some(Signal(RunCountKey, IntVal(|runs|), RanManyText))
    else None
  }

  function RepeatedExecutionRule(runs: seq<RunEvent>): (o: Option<Signal>)
    ensures o.Some? <==> |runs| >= 2
    ensures o.Some? ==> o.value.key == RepeatedExecutionKey && o.value.value == BoolVal(true)
  {
    if |runs| > 1 then Some(Signal(RepeatedExecutionKey, BoolVal(true), RepeatedExecutionText))
    else None
  }

  function ErrorsPresentRule(errors: seq<ErrorEvent>): (o: Option<Signal>)
    ensures o.Some? <==> errors != []
    ensures o.Some? ==> o.value.key == ErrorsPresentKey && o.value.value == BoolVal(true)
  {
    if |errors| > 0 then Some(Signal(ErrorsPresentKey, BoolVal(true), ErrorsPresentText))
    else None
  }

  function ErrorFollowedByRunRule(runs: seq<RunEvent>, errors: seq<ErrorEvent>): (o: Option<Signal>)
    ensures o.Some? ==> |errors| > 0
    ensures o.Some? ==> o.value.key == ErrorFollowedByRunKey && o.value.value == BoolVal(true)
  {
    if |errors| > 0 && |RunsAfter(runs, errors[0].occurredAt)| > 0 then
      Some(Signal(ErrorFollowedByRunKey, BoolVal(true), ErrorFollowedByRunText))
    else None
  }

  function SessionDurationRule(session: SessionRow): (o: Option<Signal>)
    ensures o.Some? <==> session.endedAt.Some?
    ensures o.Some? ==>
      && o.value.key == SessionDurationKey
      && o.value.value == IntVal(Minutes(session.endedAt.value - session.startedAt))
  {
    if session.endedAt.Some? then
      var minutes := Minutes(session.endedAt.value - session.startedAt);
      Some(Signal(SessionDurationKey, IntVal(minutes), DurationText(minutes)))
    else None
  }

  function TimeToFirstRunRule(session: SessionRow, runs: seq<RunEvent>): (o: Option<Signal>)
    ensures o.Some? <==> |runs| > 0
    ensures o.Some? ==>
      && o.value.key == TimeToFirstRunKey
      && o.value.value == IntVal(Minutes(runs[0].executedAt - session.startedAt))
  {
    if |runs| > 0 then
      var minutes := Minutes(runs[0].executedAt - session.startedAt);
      Some(Signal(TimeToFirstRunKey, IntVal(minutes), FirstRunText(minutes)))
    else None
  }

  function Rules(session: SessionRow, runs: seq<RunEvent>, errors: seq<ErrorEvent>): (rs: seq<Option<Signal>>)
    ensures |rs| == |KeyOrder|
    ensures forall k :: 0 <= k < |rs| && rs[k].Some? ==> rs[k].value.key == KeyOrder[k]
  {
    [RunCountRule(runs), RepeatedExecutionRule(runs), ErrorsPresentRule(errors),
     ErrorFollowedByRunRule(runs, errors), SessionDurationRule(session),
     TimeToFirstRunRule(session, runs)]
  }

  function Emit(o: Option<Signal>): (e: seq<Signal>)
    ensures |e| <= 1
  {
    if o.Some? then [o.value] else []
  }

  /** The output list: each rule's signal, if it has one, in rule order. */
  function Assemble(rs: seq<Option<Signal>>): seq<Signal>
    requires |rs| == |KeyOrder|
  {
    Emit(rs[0]) + Emit(rs[1]) + Emit(rs[2]) + Emit(rs[3]) + Emit(rs[4]) + Emit(rs[5])
  }

  /** The signals of a session, specified as the outputs of the rules in order. */
  function Derive(session: SessionRow, runs: seq<RunEvent>, errors: seq<ErrorEvent>): (out: seq<Signal>)
    ensures |out| <= |KeyOrder|
  {
    Assemble(Rules(session, runs, errors))
  }

  /** The derivation as the handler performs it: six guarded appends. */
  method DeriveSignals(session: SessionRow, runs: seq<RunEvent>, errors: seq<ErrorEvent>)
    returns (signals: seq<Signal>)
    ensures signals == Derive(session, runs, errors)
  {
    signals := [];
    var runCount := |runs|;

    if runCount == 1 {
      signals := signals + [Signal(RunCountKey, IntVal(runCount), RanOnceText)];
    } else if runCount > 1 {
      signals := signals + [Signal(RunCountKey, IntVal(runCount), RanManyText)];
    }
    // `done` is the part of `Derive` produced so far.
    ghost var done := Emit(RunCountRule(runs));
    assert signals == done;

    if runCount > 1 {
      signals := signals + [Signal(RepeatedExecutionKey, BoolVal(true), RepeatedExecutionText)];
    }
    done := done + Emit(RepeatedExecutionRule(runs));
    assert signals == done;

    if |errors| > 0 {
      signals := signals + [Signal(ErrorsPresentKey, BoolVal(true), ErrorsPresentText)];
    }
    done := done + Emit(ErrorsPresentRule(errors));
    assert signals == done;

    if |errors| > 0 {
      var firstErrorTime := errors[0].occurredAt;
      var runsAfterError := RunsAfter(runs, firstErrorTime);

      if |runsAfterError| > 0 {
        signals := signals + [Signal(ErrorFollowedByRunKey, BoolVal(true), ErrorFollowedByRunText)];
      }
    }
    done := done + Emit(ErrorFollowedByRunRule(runs, errors));
    assert signals == done;

    if session.endedAt.Some? {
      var durationMinutes := Minutes(session.endedAt.value - session.startedAt);
      var signal := Signal(SessionDurationKey, IntVal(durationMinutes), DurationText(durationMinutes));
      assert Emit(SessionDurationRule(session)) == [signal];
      signals := signals + [signal];
    }
    done := done + Emit(SessionDurationRule(session));
    assert signals == done;

    if runCount > 0 {
      var firstRunTime := runs[0].executedAt;
      var timeToFirstMinutes := Minutes(firstRunTime - session.startedAt);
      var signal := Signal(TimeToFirstRunKey, IntVal(timeToFirstMinutes), FirstRunText(timeToFirstMinutes));
      assert Emit(TimeToFirstRunRule(session, runs)) == [signal];
      signals := signals + [signal];
    }
    done := done + Emit(TimeToFirstRunRule(session, runs));
    assert signals == done;
    DeriveUnfold(session, runs, errors);
  }

  /** `Derive` written out rule by rule. */
  lemma DeriveUnfold(session: SessionRow, runs: seq<RunEvent>, errors: seq<ErrorEvent>)
    ensures Derive(session, runs, errors) ==
      Emit(RunCountRule(runs)) + Emit(RepeatedExecutionRule(runs))
      + Emit(ErrorsPresentRule(errors)) + Emit(ErrorFollowedByRunRule(runs, errors))
      + Emit(SessionDurationRule(session)) + Emit(TimeToFirstRunRule(session, runs))
  {
    var rs := Rules(session, runs, errors);
    assert rs[0] == RunCountRule(runs) && rs[1] == RepeatedExecutionRule(runs);
    assert rs[2] == ErrorsPresentRule(errors) && rs[3] == ErrorFollowedByRunRule(runs, errors);
    assert rs[4] == SessionDurationRule(session) && rs[5] == TimeToFirstRunRule(session, runs);
  }

  /** The signals endpoint: a session id that is not in the table is a 404 and
      no signal is computed; otherwise the derivation runs on the fetched events. */
  method GetSessionSignals(sessions: map<int, SessionRow>, sessionId: int,
                           runs: seq<RunEvent>, errors: seq<ErrorEvent>)
    returns (r: Result<SignalsResponse, HttpError>)
    ensures sessionId !in sessions ==> r == Failure(HttpError(404, "Session not found"))
    ensures sessionId in sessions ==>
      r == Success(SignalsResponse(sessionId, Derive(sessions[sessionId], runs, errors)))
  {
    if sessionId !in sessions {
      return Failure(HttpError(404, "Session not found"));
    }
    var session := sessions[sessionId];
    var signals := DeriveSignals(session, runs, errors);
    return Success(SignalsResponse(sessionId, signals));
  }

  // Reading the output.

  /** The first signal with the given key, if any. */
  function Find(signals: seq<Signal>, key: string): (o: Option<Signal>)
    ensures o.Some? ==> o.value in signals && o.value.key == key
    ensures o.None? <==> forall i :: 0 <= i < |signals| ==> signals[i].key != key
  {
    if signals == [] then None
    else if signals[0].key == key then Some(signals[0])
    else Find(signals[1..], key)
  }

  lemma {:induction false} FindAppend(a: seq<Signal>, b: seq<Signal>, key: string)
    ensures Find(a + b, key) == if Find(a, key).Some? then Find(a, key) else Find(b, key)
  {
    if a != [] {
      assert (a + b)[1..] == a[1..] + b;
      FindAppend(a[1..], b, key);
    } else {
      assert a + b == b;
    }
  }

  /** The position of a key in `KeyOrder`; 6 for any other key. */
  function Rank(key: string): (k: nat)
    ensures k <= |KeyOrder|
    ensures k < |KeyOrder| ==> KeyOrder[k] == key
    ensures k == |KeyOrder| ==> key !in KeyOrder
  {
    if key == RunCountKey then 0
    else if key == RepeatedExecutionKey then 1
    else if key == ErrorsPresentKey then 2
    else if key == ErrorFollowedByRunKey then 3
    else if key == SessionDurationKey then 4
    else if key == TimeToFirstRunKey then 5
    else 6
  }

  /** Every key of `s` has rank in [lo, hi), and ranks strictly increase along `s`. */
  ghost predicate Ranked(s: seq<Signal>, lo: int, hi: int) {
    && (forall i :: 0 <= i < |s| ==> lo <= Rank(s[i].key) < hi)
    && (forall i, j :: 0 <= i < j < |s| ==> Rank(s[i].key) < Rank(s[j].key))
  }

  lemma RankedAppend(a: seq<Signal>, b: seq<Signal>, lo: int, mid: int, hi: int)
    requires lo <= mid <= hi
    requires Ranked(a, lo, mid) && Ranked(b, mid, hi)
    ensures Ranked(a + b, lo, hi)
  {
    forall i | 0 <= i < |a + b| ensures lo <= Rank((a + b)[i].key) < hi {
      if i < |a| { assert (a + b)[i] == a[i]; } else { assert (a + b)[i] == b[i - |a|]; }
    }
    forall i, j | 0 <= i < j < |a + b| ensures Rank((a + b)[i].key) < Rank((a + b)[j].key) {
      if j < |a| {
        assert (a + b)[i] == a[i] && (a + b)[j] == a[j];
      } else if i >= |a| {
        assert (a + b)[i] == b[i - |a|] && (a + b)[j] == b[j - |a|];
      } else {
        assert (a + b)[i] == a[i] && (a + b)[j] == b[j - |a|];
      }
    }
  }

  /** Rule outputs whose keys are the keys of `KeyOrder`, position by position. */
  ghost predicate KeyedByPosition(rs: seq<Option<Signal>>) {
    && |rs| == |KeyOrder|
    && forall k :: 0 <= k < |rs| && rs[k].Some? ==> rs[k].value.key == KeyOrder[k]
  }

  /** Appending the signal of rule `k` to a list ranked below `k`. */
  lemma RankedExtend(a: seq<Signal>, o: Option<Signal>, k: nat)
    requires k < |KeyOrder| && Ranked(a, 0, k)
    requires o.Some? ==> o.value.key == KeyOrder[k]
    ensures Ranked(a + Emit(o), 0, k + 1)
  {
    assert Ranked(Emit(o), k, k + 1);
    RankedAppend(a, Emit(o), 0, k, k + 1);
  }

  /** The signals of the first `n` rules, in rule order. */
  function Prefix(rs: seq<Option<Signal>>, n: nat): seq<Signal>
    requires n <= |rs|
  {
    if n == 0 then [] else Prefix(rs, n - 1) + Emit(rs[n - 1])
  }

  lemma {:induction false} PrefixRanked(rs: seq<Option<Signal>>, n: nat)
    requires KeyedByPosition(rs) && n <= |rs|
    ensures Ranked(Prefix(rs, n), 0, n)
  {
    if n > 0 {
      PrefixRanked(rs, n - 1);
      RankedExtend(Prefix(rs, n - 1), rs[n - 1], n - 1);
    }
  }

  lemma PrefixAssemble(rs: seq<Option<Signal>>)
    requires |rs| == |KeyOrder|
    ensures Prefix(rs, |rs|) == Assemble(rs)
  {
    var e0, e1, e2, e3, e4, e5 := Emit(rs[0]), Emit(rs[1]), Emit(rs[2]), Emit(rs[3]), Emit(rs[4]), Emit(rs[5]);
    assert Prefix(rs, 1) == e0 by { assert Prefix(rs, 0) == []; }
    assert Prefix(rs, 2) == e0 + e1;
    assert Prefix(rs, 3) == e0 + e1 + e2;
    assert Prefix(rs, 4) == e0 + e1 + e2 + e3;
    assert Prefix(rs, 5) == e0 + e1 + e2 + e3 + e4;
    assert Prefix(rs, 6) == e0 + e1 + e2 + e3 + e4 + e5;
  }

  lemma AssembleRanked(rs: seq<Option<Signal>>)
    requires KeyedByPosition(rs)
    ensures Ranked(Assemble(rs), 0, |KeyOrder|)
  {
    PrefixRanked(rs, |rs|);
    PrefixAssemble(rs);
  }

  /** Output order: every key is one of the six, and keys appear in the
      order of `KeyOrder`, so none appears twice. */
  lemma OutputOrder(session: SessionRow, runs: seq<RunEvent>, errors: seq<ErrorEvent>)
    ensures var s := Derive(session, runs, errors);
      && (forall i :: 0 <= i < |s| ==> s[i].key in KeyOrder)
      && (forall i, j :: 0 <= i < j < |s| ==> Rank(s[i].key) < Rank(s[j].key))
      && (forall i, j :: 0 <= i < j < |s| ==> s[i].key != s[j].key)
  {
    AssembleRanked(Rules(session, runs, errors));
    var s := Derive(session, runs, errors);
    forall i | 0 <= i < |s| ensures s[i].key in KeyOrder {
      assert Rank(s[i].key) < |KeyOrder|;
    }
  }

  lemma EmitFind(o: Option<Signal>, key: string)
    ensures Find(Emit(o), key) == if o.Some? && o.value.key == key then o else None
  {
  }

  lemma AssembleFind(rs: seq<Option<Signal>>, k: nat)
    requires KeyedByPosition(rs) && k < |rs|
    ensures Find(Assemble(rs), KeyOrder[k]) == rs[k]
  {
    var e0, e1, e2, e3, e4, e5 := Emit(rs[0]), Emit(rs[1]), Emit(rs[2]), Emit(rs[3]), Emit(rs[4]), Emit(rs[5]);
    var key := KeyOrder[k];
    FindAppend(e0 + e1 + e2 + e3 + e4, e5, key);
    FindAppend(e0 + e1 + e2 + e3, e4, key);
    FindAppend(e0 + e1 + e2, e3, key);
    FindAppend(e0 + e1, e2, key);
    FindAppend(e0, e1, key);
    EmitFind(rs[0], key); EmitFind(rs[1], key); EmitFind(rs[2], key);
    EmitFind(rs[3], key); EmitFind(rs[4], key); EmitFind(rs[5], key);
  }

  /** Looking a key up in the output gives exactly what its rule produced. */
  lemma FindRule(session: SessionRow, runs: seq<RunEvent>, errors: seq<ErrorEvent>, k: nat)
    requires k < |KeyOrder|
    ensures Find(Derive(session, runs, errors), KeyOrder[k]) == Rules(session, runs, errors)[k]
  {
    AssembleFind(Rules(session, runs, errors), k);
  }

  // One lemma per rule: when it is emitted, with which value and description.

  /** `run_count` is present iff there is a run; its value is the number of runs,
      described as "once" for one run and "multiple times" for more. */
  lemma RunCountSignal(session: SessionRow, runs: seq<RunEvent>, errors: seq<ErrorEvent>)
    ensures Find(Derive(session, runs, errors), RunCountKey) ==
      if |runs| == 0 then None
      else Some(Signal(RunCountKey, IntVal(|runs|), if |runs| == 1 then RanOnceText else RanManyText))
  {
    FindRule(session, runs, errors, 0);
  }

  /** `repeated_execution` is present iff there are at least two runs, and is `true`. */
  lemma RepeatedExecutionSignal(session: SessionRow, runs: seq<RunEvent>, errors: seq<ErrorEvent>)
    ensures Find(Derive(session, runs, errors), RepeatedExecutionKey) ==
      if |runs| > 1 then Some(Signal(RepeatedExecutionKey, BoolVal(true), RepeatedExecutionText)) else None
  {
    FindRule(session, runs, errors, 1);
  }

  /** `errors_present` is present iff there is an error, and is `true`. */
  lemma ErrorsPresentSignal(session: SessionRow, runs: seq<RunEvent>, errors: seq<ErrorEvent>)
    ensures Find(Derive(session, runs, errors), ErrorsPresentKey) ==
      if |errors| > 0 then Some(Signal(ErrorsPresentKey, BoolVal(true), ErrorsPresentText)) else None
  {
    FindRule(session, runs, errors, 2);
  }

  /** `error_followed_by_run` is present iff there is an error and some run
      executed strictly after the first error; it is `true`. */
  lemma ErrorFollowedByRunSignal(session: SessionRow, runs: seq<RunEvent>, errors: seq<ErrorEvent>)
    ensures Find(Derive(session, runs, errors), ErrorFollowedByRunKey) ==
      if |errors| > 0 && exists i :: 0 <= i < |runs| && runs[i].executedAt > errors[0].occurredAt
      then Some(Signal(ErrorFollowedByRunKey, BoolVal(true), ErrorFollowedByRunText))
      else None
  {
    FindRule(session, runs, errors, 3);
    if |errors| > 0 {
      var after := RunsAfter(runs, errors[0].occurredAt);
      if |after| > 0 {
        assert after[0] in after;
      }
      if i :| 0 <= i < |runs| && runs[i].executedAt > errors[0].occurredAt {
        assert runs[i] in after;
      }
    }
  }

  /** With the errors in ascending time order, "after the first error" is
      "after some error". */
  lemma ErrorFollowedByRunAfterAnyError(session: SessionRow, runs: seq<RunEvent>, errors: seq<ErrorEvent>)
    requires forall i, j :: 0 <= i <= j < |errors| ==> errors[i].occurredAt <= errors[j].occurredAt
    ensures Find(Derive(session, runs, errors), ErrorFollowedByRunKey).Some? <==>
      exists i, j :: 0 <= i < |runs| && 0 <= j < |errors| && runs[i].executedAt > errors[j].occurredAt
  {
    ErrorFollowedByRunSignal(session, runs, errors);
    if i, j :| 0 <= i < |runs| && 0 <= j < |errors| && runs[i].executedAt > errors[j].occurredAt {
      assert runs[i].executedAt > errors[0].occurredAt;
    }
  }

  /** Runs no later than the first error, including runs at the very instant
      of that error, do not count as runs after it. */
  lemma NoRunAfterFirstError(session: SessionRow, runs: seq<RunEvent>, errors: seq<ErrorEvent>)
    requires |errors| > 0
    requires forall i :: 0 <= i < |runs| ==> runs[i].executedAt <= errors[0].occurredAt
    ensures Find(Derive(session, runs, errors), ErrorFollowedByRunKey) == None
  {
    ErrorFollowedByRunSignal(session, runs, errors);
  }

  /** `session_duration_minutes` is present iff the session has ended; its value
      is the end-to-start time in minutes rounded half to even (negative when
      the end precedes the start), and the description states that value. */
  lemma SessionDurationSignal(session: SessionRow, runs: seq<RunEvent>, errors: seq<ErrorEvent>)
    ensures var o := Find(Derive(session, runs, errors), SessionDurationKey);
      && (o.Some? <==> session.endedAt.Some?)
      && (o.Some? ==>
            && o.value.value.IntVal?
            && IsRoundHalfEven(session.endedAt.value - session.startedAt, MicrosPerMinute, o.value.value.i)
            && o.value.description == DurationText(o.value.value.i))
  {
    FindSessionDuration(session, runs, errors);
    SessionDurationRuleMeaning(session);
  }

  lemma FindSessionDuration(session: SessionRow, runs: seq<RunEvent>, errors: seq<ErrorEvent>)
    ensures Find(Derive(session, runs, errors), SessionDurationKey) == SessionDurationRule(session)
  {
    FindRule(session, runs, errors, 4);
  }

  /** The duration rule's value is the rounded duration, and its text states it. */
  lemma SessionDurationRuleMeaning(session: SessionRow)
    ensures var o := SessionDurationRule(session);
      o.Some? ==>
        && o.value.value.IntVal?
        && IsRoundHalfEven(session.endedAt.value - session.startedAt, MicrosPerMinute, o.value.value.i)
        && o.value.description == DurationText(o.value.value.i)
  {
  }

  /** `time_to_first_run_minutes` is present iff there is a run; its value is
      the time from session start to the first run in minutes, rounded half to
      even and possibly negative, and the description states that value. */
  lemma TimeToFirstRunSignal(session: SessionRow, runs: seq<RunEvent>, errors: seq<ErrorEvent>)
    ensures var o := Find(Derive(session, runs, errors), TimeToFirstRunKey);
      && (o.Some? <==> |runs| > 0)
      && (o.Some? ==>
            && o.value.value.IntVal?
            && IsRoundHalfEven(runs[0].executedAt - session.startedAt, MicrosPerMinute, o.value.value.i)
            && o.value.description == FirstRunText(o.value.value.i))
  {
    FindTimeToFirstRun(session, runs, errors);
    TimeToFirstRunRuleMeaning(session, runs);
  }

  lemma FindTimeToFirstRun(session: SessionRow, runs: seq<RunEvent>, errors: seq<ErrorEvent>)
    ensures Find(Derive(session, runs, errors), TimeToFirstRunKey) == TimeToFirstRunRule(session, runs)
  {
    FindRule(session, runs, errors, 5);
  }

  /** The first-run rule's value is the rounded delay, and its text states it. */
  lemma TimeToFirstRunRuleMeaning(session: SessionRow, runs: seq<RunEvent>)
    ensures var o := TimeToFirstRunRule(session, runs);
      o.Some? ==>
        && o.value.value.IntVal?
        && IsRoundHalfEven(runs[0].executedAt - session.startedAt, MicrosPerMinute, o.value.value.i)
        && o.value.description == FirstRunText(o.value.value.i)
  {
  }

  /** The output is empty exactly when there are no runs, no errors and the
      session is still open. */
  lemma EmptyOutput(session: SessionRow, runs: seq<RunEvent>, errors: seq<ErrorEvent>)
    ensures Derive(session, runs, errors) == [] <==>
      (runs == [] && errors == [] && session.endedAt.None?)
  {
  }

  /** The minute count in a duration description reads back from its text. */
  lemma DurationTextCarriesValue(minutes: int)
    ensures var t := DurationText(minutes);
      ParseInt(t[|DurationPrefix|..|t| - |MinutesSuffix|]) == Some(minutes)
  {
    var t := DurationText(minutes);
    assert t[|DurationPrefix|..|t| - |MinutesSuffix|] == IntToString(minutes);
    IntRoundTrip(minutes);
  }

  /** The minute count in a first-run description reads back from its text. */
  lemma FirstRunTextCarriesValue(minutes: int)
    ensures var t := FirstRunText(minutes);
      ParseInt(t[|FirstRunPrefix|..|t| - |MinutesSuffix|]) == Some(minutes)
  {
    var t := FirstRunText(minutes);
    assert t[|FirstRunPrefix|..|t| - |MinutesSuffix|] == IntToString(minutes);
    IntRoundTrip(minutes);
  }

  /** There is no clamping at zero: a duration more than half a minute below
      zero gives a negative minute count, and one from half a minute below zero
      up to zero gives 0 (the tie at exactly -30 s goes to the even 0). */
  lemma NegativeDurationNotClamped(delta: int)
    ensures delta < -(MicrosPerMinute / 2) ==> Minutes(delta) < 0
    ensures -(MicrosPerMinute / 2) <= delta <= 0 ==> Minutes(delta) == 0
  {
    if -(MicrosPerMinute / 2) <= delta <= 0 {
      assert IsRoundHalfEven(delta, MicrosPerMinute, 0);
      RoundHalfEvenUnique(delta, MicrosPerMinute, 0);
    }
  }

  /** A session of 125 seconds lasted 2 minutes; a first run after 90 seconds
      (1.5 minutes) and one after 150 seconds (2.5 minutes) both give 2. */
  lemma RoundingExamples()
    ensures Minutes(125 * MicrosPerSecond) == 2
    ensures Minutes(90 * MicrosPerSecond) == 2
    ensures Minutes(150 * MicrosPerSecond) == 2
    ensures Minutes(-90 * MicrosPerSecond) == -2
    ensures Minutes(30 * MicrosPerSecond) == 0
  {
    var d := MicrosPerMinute;
    assert IsRoundHalfEven(125 * MicrosPerSecond, d, 2);
    RoundHalfEvenUnique(125 * MicrosPerSecond, d, 2);
    assert IsRoundHalfEven(90 * MicrosPerSecond, d, 2);
    RoundHalfEvenUnique(90 * MicrosPerSecond, d, 2);
    assert IsRoundHalfEven(150 * MicrosPerSecond, d, 2);
    RoundHalfEvenUnique(150 * MicrosPerSecond, d, 2);
    assert IsRoundHalfEven(-90 * MicrosPerSecond, d, -2);
    RoundHalfEvenUnique(-90 * MicrosPerSecond, d, -2);
    assert IsRoundHalfEven(30 * MicrosPerSecond, d, 0);
    RoundHalfEvenUnique(30 * MicrosPerSecond, d, 0);
  }

  // The handler's two event queries, without their ORDER BY.

  /** `run_events` rows of the session. */
  function RunsOfSession(runs: seq<RunEvent>, sessionId: int): (out: seq<RunEvent>)
    ensures forall r :: r in out <==> r in runs && r.sessionId == sessionId
  {
    if runs == [] then []
    else (if runs[0].sessionId == sessionId then [runs[0]] else []) + RunsOfSession(runs[1..], sessionId)
  }

  predicate RunInSession(runs: seq<RunEvent>, runId: int, sessionId: int) {
    exists k :: 0 <= k < |runs| && runs[k].id == runId && runs[k].sessionId == sessionId
  }

  /** `error_events` rows joined to a run of the session. */
  function ErrorsOfSession(runs: seq<RunEvent>, errors: seq<ErrorEvent>, sessionId: int): (out: seq<ErrorEvent>)
    ensures forall e :: e in out <==> e in errors && RunInSession(runs, e.runId, sessionId)
  {
    if errors == [] then []
    else (if RunInSession(runs, errors[0].runId, sessionId) then [errors[0]] else [])
         + ErrorsOfSession(runs, errors[1..], sessionId)
  }

  /** The ids of a list of runs. */
  function RunIds(runs: seq<RunEvent>): (ids: set<int>)
    ensures |ids| <= |runs|
    ensures forall r :: r in runs ==> r.id in ids
  {
    if runs == [] then {} else {runs[0].id} + RunIds(runs[1..])
  }

  /** The run ids a list of errors points to. */
  function ErrorRunIds(errors: seq<ErrorEvent>): (ids: set<int>)
    ensures forall i :: 0 <= i < |errors| ==> errors[i].runId in ids
    ensures forall id :: id in ids ==> exists i :: 0 <= i < |errors| && errors[i].runId == id
  {
    if errors == [] then {}
    else
      var rest := errors[1..];
      assert forall i :: 0 <= i < |rest| ==> rest[i] == errors[i + 1];
      {errors[0].runId} + ErrorRunIds(rest)
  }

  ghost predicate DistinctRunIds(errors: seq<ErrorEvent>) {
    forall i, j :: 0 <= i < j < |errors| ==> errors[i].runId != errors[j].runId
  }

  /** The first error's run id is not among the rest's, and the rest are distinct. */
  lemma DistinctTail(errors: seq<ErrorEvent>)
    requires DistinctRunIds(errors) && errors != []
    ensures DistinctRunIds(errors[1..])
    ensures errors[0].runId !in ErrorRunIds(errors[1..])
  {
    var rest := errors[1..];
    forall i, j | 0 <= i < j < |rest| ensures rest[i].runId != rest[j].runId {
      assert rest[i] == errors[i + 1] && rest[j] == errors[j + 1];
    }
    forall j | 0 <= j < |rest| ensures rest[j].runId != errors[0].runId {
      assert rest[j] == errors[j + 1];
    }
  }

  lemma DistinctCons(e: ErrorEvent, errors: seq<ErrorEvent>)
    requires DistinctRunIds(errors) && e.runId !in ErrorRunIds(errors)
    ensures DistinctRunIds([e] + errors)
  {
    var all := [e] + errors;
    forall i, j | 0 <= i < j < |all| ensures all[i].runId != all[j].runId {
      assert all[j] == errors[j - 1];
      if i > 0 {
        assert all[i] == errors[i - 1];
      }
    }
  }

  lemma {:induction false} DistinctRunIdsCount(errors: seq<ErrorEvent>)
    requires DistinctRunIds(errors)
    ensures |ErrorRunIds(errors)| == |errors|
  {
    if errors != [] {
      DistinctTail(errors);
      DistinctRunIdsCount(errors[1..]);
    }
  }

  /** Filtering can only drop run ids. */
  lemma ErrorsOfSessionRunIds(runs: seq<RunEvent>, errors: seq<ErrorEvent>, sessionId: int)
    ensures ErrorRunIds(ErrorsOfSession(runs, errors, sessionId)) <= ErrorRunIds(errors)
  {
    var out := ErrorsOfSession(runs, errors, sessionId);
    forall id | id in ErrorRunIds(out) ensures id in ErrorRunIds(errors) {
      var i :| 0 <= i < |out| && out[i].runId == id;
      assert out[i] in errors;
      var k :| 0 <= k < |errors| && errors[k] == out[i];
    }
  }

  lemma {:induction false} ErrorsOfSessionDistinct(runs: seq<RunEvent>, errors: seq<ErrorEvent>, sessionId: int)
    requires DistinctRunIds(errors)
    ensures DistinctRunIds(ErrorsOfSession(runs, errors, sessionId))
  {
    if errors != [] {
      var rest := errors[1..];
      DistinctTail(errors);
      ErrorsOfSessionDistinct(runs, rest, sessionId);
      var tail := ErrorsOfSession(runs, rest, sessionId);
      if RunInSession(runs, errors[0].runId, sessionId) {
        ErrorsOfSessionRunIds(runs, rest, sessionId);
        DistinctCons(errors[0], tail);
      }
    }
  }

  /** In a log kept by the execute handler, each error of a session belongs
      to a run of the session and no run has two, so a session never has
      more errors than runs. */
  lemma SessionErrorsAtMostRuns(log: Execute.EventLog, sessionId: int)
    requires Execute.LogValid(log)
    ensures |ErrorsOfSession(log.runs, log.errors, sessionId)| <= |RunsOfSession(log.runs, sessionId)|
  {
    var sRuns := RunsOfSession(log.runs, sessionId);
    var sErrors := ErrorsOfSession(log.runs, log.errors, sessionId);
    assert DistinctRunIds(log.errors);
    ErrorsOfSessionDistinct(log.runs, log.errors, sessionId);
    DistinctRunIdsCount(sErrors);
    forall id | id in ErrorRunIds(sErrors) ensures id in RunIds(sRuns) {
      var i :| 0 <= i < |sErrors| && sErrors[i].runId == id;
      assert sErrors[i] in sErrors;
      assert RunInSession(log.runs, id, sessionId);
      var k :| 0 <= k < |log.runs| && log.runs[k].id == id && log.runs[k].sessionId == sessionId;
      assert log.runs[k] in sRuns;
    }
    SubsetCard(ErrorRunIds(sErrors), RunIds(sRuns));
  }

  /** On the handler's query results, in whatever order the database returns
      them, there are no more errors than runs, so `errors_present` never
      appears without `run_count`. */
  lemma ErrorsNeverOutnumberRuns(log: Execute.EventLog, session: SessionRow, sessionId: int,
                                 runs: seq<RunEvent>, errors: seq<ErrorEvent>)
    requires Execute.LogValid(log)
    requires multiset(runs) == multiset(RunsOfSession(log.runs, sessionId))
    requires multiset(errors) == multiset(ErrorsOfSession(log.runs, log.errors, sessionId))
    ensures |errors| <= |runs|
    ensures Find(Derive(session, runs, errors), ErrorsPresentKey).Some? ==>
            Find(Derive(session, runs, errors), RunCountKey).Some?
  {
    SessionErrorsAtMostRuns(log, sessionId);
    assert |errors| == |multiset(errors)|;
    assert |runs| == |multiset(runs)|;
    ErrorsPresentSignal(session, runs, errors);
    RunCountSignal(session, runs, errors);
  }

  lemma SubsetCard(a: set<int>, b: set<int>)
    requires a <= b
    ensures |a| <= |b|
  {
    assert b == a + (b - a);
  }
}
