/** A handler that runs alone does exactly what the sequential engine
    specifies for its batch: the small steps refine `Posted`. */
module Solo {
  import opened Common
  import opened Delivery
  import opened Metric
  import opened Handlers

  // --- Runs of one thread -------------------------------------------------

  function Iterate<T>(f: T -> T, x: T, n: nat): T
  {
    if n == 0 then x else f(Iterate(f, x, n - 1))
  }

  lemma {:induction false} IterateAppend<T>(f: T -> T, x: T, m: nat, n: nat)
    ensures Iterate(f, Iterate(f, x, m), n) == Iterate(f, x, m + n)
  {
    if n > 0 {
      IterateAppend(f, x, m, n - 1);
    }
  }

  /** Iterating further from a fixed point stays there. */
  lemma IterateStays<T>(f: T -> T, x: T, m: nat, n: nat)
    requires m <= n && f(Iterate(f, x, m)) == Iterate(f, x, m)
    ensures Iterate(f, x, n) == Iterate(f, x, m)
  {
    IterateAppend(f, x, m, n - m);
    IterateFixed(f, Iterate(f, x, m), n - m);
  }

  lemma {:induction false} IterateFixed<T>(f: T -> T, x: T, n: nat)
    requires f(x) == x
    ensures Iterate(f, x, n) == x
  {
    if n > 0 {
      IterateFixed(f, x, n - 1);
    }
  }

  /** The steps of thread t as a function on states. */
  function StepOf(cfg: Config, t: nat): System -> System
  {
    (s: System) => if WellFormed(cfg, s) then Step(cfg, s, t) else s
  }

  /** The state after n steps of thread t alone. */
  function Alone(cfg: Config, s: System, t: nat, n: nat): System
  {
    Iterate(StepOf(cfg, t), s, n)
  }

  /** From `s`, thread t reaches `end` by steps of its own. */
  ghost predicate Reaches(cfg: Config, s: System, t: nat, end: System)
  {
    exists n: nat :: Alone(cfg, s, t, n) == end
  }

  lemma ReachesTransitive(cfg: Config, s: System, t: nat, mid: System, end: System)
    requires Reaches(cfg, s, t, mid) && Reaches(cfg, mid, t, end)
    ensures Reaches(cfg, s, t, end)
  {
    var m: nat :| Alone(cfg, s, t, m) == mid;
    var n: nat :| Alone(cfg, mid, t, n) == end;
    IterateAppend(StepOf(cfg, t), s, m, n);
    assert Alone(cfg, s, t, m + n) == end;
  }

  lemma ReachesNext(cfg: Config, s: System, t: nat, next: System)
    requires WellFormed(cfg, s) && Step(cfg, s, t) == next
    ensures Reaches(cfg, s, t, next)
  {
    assert Iterate(StepOf(cfg, t), s, 0) == s;
    assert Alone(cfg, s, t, 1) == next;
  }

  /** Steps of a stopped thread change nothing. */
  lemma StoppedStays(cfg: Config, s: System, t: nat)
    requires WellFormed(cfg, s) && t < |s.threads| && s.threads[t].pc.Stopped?
    ensures StepOf(cfg, t)(s) == s
  {
    assert s.threads[t := s.threads[t]] == s.threads;
  }

  // --- The attempts in a log ----------------------------------------------

  /** The attempts of a log, in the order their recording ended. */
  function Attempts(log: seq<Entry>): seq<Attempt>
  {
    if log == [] then []
    else
      var event := log[|log| - 1].event;
      Attempts(log[..|log| - 1]) + (if event.Write? then [event.attempt] else [])
  }

  lemma AttemptsLogged(log: seq<Entry>, t: nat, event: Event)
    ensures Attempts(log + [Entry(t, event)]) == Attempts(log) + (if event.Write? then [event.attempt] else [])
  {
    assert (log + [Entry(t, event)])[..|log|] == log;
  }

  // --- Runs that end like a sequential result -----------------------------

  /** Thread t alone reaches a state with the sequential result's rows, its
      attempts added to the log, these counters, and itself in this place;
      the other threads have not moved. */
  ghost predicate Finishes(cfg: Config, s: System, t: nat, result: Dispatch, counters: Counters, th: Thread)
    requires t < |s.threads|
  {
    exists end ::
      && Reaches(cfg, s, t, end)
      && end.rows == result.rows && Attempts(end.log) == Attempts(s.log) + result.log
      && end.counters == counters && end.threads == s.threads[t := th]
  }

  /** Doing something first, then finishing. */
  lemma FinishesVia(cfg: Config, s: System, t: nat, next: System, made: seq<Attempt>,
                    result: Dispatch, counters: Counters, th: Thread)
    requires t < |s.threads| == |next.threads| && Reaches(cfg, s, t, next)
    requires next.threads == s.threads[t := next.threads[t]] && Attempts(next.log) == Attempts(s.log) + made
    requires Finishes(cfg, next, t, result, counters, th)
    ensures Finishes(cfg, s, t, result.After(made), counters, th)
  {
    var end :|
      && Reaches(cfg, next, t, end)
      && end.rows == result.rows && Attempts(end.log) == Attempts(next.log) + result.log
      && end.counters == counters && end.threads == next.threads[t := th];
    ReachesTransitive(cfg, s, t, next, end);
    assert Attempts(s.log) + made + result.log == Attempts(s.log) + (made + result.log);
    assert end.threads == s.threads[t := th];
  }

  lemma FinishesNow(cfg: Config, s: System, t: nat, end: System)
    requires t < |s.threads| == |end.threads| && Reaches(cfg, s, t, end)
    requires end.threads == s.threads[t := end.threads[t]] && Attempts(end.log) == Attempts(s.log)
    ensures Finishes(cfg, s, t, Dispatch(end.rows, [], false), end.counters, end.threads[t])
    ensures Finishes(cfg, s, t, Dispatch(end.rows, [], true), end.counters, end.threads[t])
  {
    assert Attempts(s.log) + [] == Attempts(s.log);
  }

  // --- One decision -------------------------------------------------------

  /** The thread is in the loop, at a decision whose receiver exists. */
  predicate AtDecision(cfg: Config, s: System, t: nat, i: nat)
  {
    && WellFormed(cfg, s) && t < |s.threads| && s.threads[t].k < |s.threads[t].batch|
    && i < |Decided(cfg, s.threads[t].batch[s.threads[t].k])|
    && Decided(cfg, s.threads[t].batch[s.threads[t].k])[i].receiver in cfg.receivers
  }

  function Moved(s: System, t: nat, pc: Pc): seq<Thread>
    requires t < |s.threads|
  {
    s.threads[t := s.threads[t].(pc := pc)]
  }

  lemma StepNotify(cfg: Config, s: System, t: nat, i: nat)
    requires AtDecision(cfg, s, t, i) && s.threads[t].pc == Notifying(i)
    ensures var next := s.(log := s.log + [Entry(t, HookOf(CurrentAttempt(cfg, s.threads[t], i)))],
                           threads := Moved(s, t, Notified(i)));
            WellFormed(cfg, next) && Reaches(cfg, s, t, next) && Attempts(next.log) == Attempts(s.log)
  {
    ReachesNext(cfg, s, t, Step(cfg, s, t));
    AttemptsLogged(s.log, t, HookOf(CurrentAttempt(cfg, s.threads[t], i)));
  }

  lemma StepCount(cfg: Config, s: System, t: nat, i: nat)
    requires AtDecision(cfg, s, t, i) && s.threads[t].pc == Notified(i)
    ensures var next := s.(counters := Ticked(s.counters, CountSent(CurrentAttempt(cfg, s.threads[t], i).ok)),
                           threads := Moved(s, t, Recording(i)));
            WellFormed(cfg, next) && Reaches(cfg, s, t, next)
  {
    ReachesNext(cfg, s, t, Step(cfg, s, t));
  }

  lemma ActOfRecord(cfg: Config, th: Thread, rows: Rows, i: nat)
    requires WellFormedThread(cfg, th) && th.pc == Recording(i)
    ensures var attempt := CurrentAttempt(cfg, th, i); var act := ActOf(cfg, th, rows);
            && act.event == Some(Write(attempt, th.batch[th.k].now)) && act.tick == Quiet
            && act.thread == th.(pc := if attempt.recorded then Reading(i + 1) else WriteFailed(i))
  {
  }

  /** A step, given what the thread does. */
  lemma StepIsAfter(cfg: Config, s: System, t: nat, event: Option<Event>, tick: Tick, th: Thread)
    requires WellFormed(cfg, s) && t < |s.threads|
    requires var act := ActOf(cfg, s.threads[t], s.rows); act.event == event && act.tick == tick && act.thread == th
    ensures var next := System(Applied(s.rows, event), Logged(s.log, t, event), Ticked(s.counters, tick),
                               s.threads[t := th]);
            WellFormed(cfg, next) && Reaches(cfg, s, t, next)
  {
    ReachesNext(cfg, s, t, Step(cfg, s, t));
  }

  lemma StepRecord(cfg: Config, s: System, t: nat, i: nat)
    requires AtDecision(cfg, s, t, i) && s.threads[t].pc == Recording(i)
    ensures var attempt, at := CurrentAttempt(cfg, s.threads[t], i), s.threads[t].batch[s.threads[t].k].now;
            var next := s.(rows := Recorded(s.rows, attempt, at), log := s.log + [Entry(t, Write(attempt, at))],
                           threads := Moved(s, t, if attempt.recorded then Reading(i + 1) else WriteFailed(i)));
            && WellFormed(cfg, next) && Reaches(cfg, s, t, next)
            && Attempts(next.log) == Attempts(s.log) + [attempt]
  {
    var attempt, at := CurrentAttempt(cfg, s.threads[t], i), s.threads[t].batch[s.threads[t].k].now;
    ActOfRecord(cfg, s.threads[t], s.rows, i);
    StepIsAfter(cfg, s, t, Some(Write(attempt, at)), Quiet,
                s.threads[t].(pc := if attempt.recorded then Reading(i + 1) else WriteFailed(i)));
    AttemptsLogged(s.log, t, Write(attempt, at));
  }

  lemma StepCountLost(cfg: Config, s: System, t: nat, i: nat)
    requires AtDecision(cfg, s, t, i) && s.threads[t].pc == WriteFailed(i)
    ensures var next := s.(counters := Ticked(s.counters, CountWriteFailure), threads := Moved(s, t, Reading(i + 1)));
            WellFormed(cfg, next) && Reaches(cfg, s, t, next)
  {
    StepIsAfter(cfg, s, t, None, CountWriteFailure, s.threads[t].(pc := Reading(i + 1)));
  }

  lemma ActOfRead(cfg: Config, th: Thread, rows: Rows, i: nat)
    requires WellFormedThread(cfg, th) && th.pc == Reading(i) && i < |Decided(cfg, th.batch[th.k])|
    requires Decided(cfg, th.batch[th.k])[i].receiver in cfg.receivers && th.batch[th.k].At(i).readOk
    ensures var attempt := CurrentAttempt(cfg, th, i); var act := ActOf(cfg, th, rows);
            && act.event == Some(Read(attempt.pair, StatusIn(rows, attempt.pair))) && act.tick == Quiet
            && act.thread == th.(pc := if Settled(rows, attempt.pair, attempt.desired)
                                       then Reading(i + 1) else Notifying(i))
  {
  }

  lemma StepRead(cfg: Config, s: System, t: nat, i: nat)
    requires AtDecision(cfg, s, t, i) && s.threads[t].pc == Reading(i)
             && s.threads[t].batch[s.threads[t].k].At(i).readOk
    ensures var attempt := CurrentAttempt(cfg, s.threads[t], i);
            var next := s.(log := s.log + [Entry(t, Read(attempt.pair, StatusIn(s.rows, attempt.pair)))],
                           threads := Moved(s, t, if Settled(s.rows, attempt.pair, attempt.desired)
                                                  then Reading(i + 1) else Notifying(i)));
            WellFormed(cfg, next) && Reaches(cfg, s, t, next) && Attempts(next.log) == Attempts(s.log)
  {
    var attempt := CurrentAttempt(cfg, s.threads[t], i);
    ActOfRead(cfg, s.threads[t], s.rows, i);
    StepIsAfter(cfg, s, t, Some(Read(attempt.pair, StatusIn(s.rows, attempt.pair))), Quiet,
                s.threads[t].(pc := if Settled(s.rows, attempt.pair, attempt.desired)
                                    then Reading(i + 1) else Notifying(i)));
    AttemptsLogged(s.log, t, Read(attempt.pair, StatusIn(s.rows, attempt.pair)));
  }

  /** The state after decision i's attempt has been recorded; its log has
      gained the attempt. */
  ghost predicate IsAfterAttempt(cfg: Config, s: System, t: nat, i: nat, next: System)
    requires AtDecision(cfg, s, t, i)
  {
    var attempt := CurrentAttempt(cfg, s.threads[t], i);
    && WellFormed(cfg, next)
    && next.rows == Recorded(s.rows, attempt, s.threads[t].batch[s.threads[t].k].now)
    && Attempts(next.log) == Attempts(s.log) + [attempt]
    && next.counters == TallyAttempt(s.counters, attempt)
    && next.threads == Moved(s, t, Reading(i + 1))
  }

  lemma RecordingRuns(cfg: Config, s: System, t: nat, i: nat) returns (next: System)
    requires AtDecision(cfg, s, t, i) && s.threads[t].pc == Recording(i)
    ensures var attempt := CurrentAttempt(cfg, s.threads[t], i);
            && WellFormed(cfg, next) && Reaches(cfg, s, t, next)
            && next.rows == Recorded(s.rows, attempt, s.threads[t].batch[s.threads[t].k].now)
            && Attempts(next.log) == Attempts(s.log) + [attempt]
            && next.counters == (if attempt.recorded then s.counters else Ticked(s.counters, CountWriteFailure))
            && next.threads == Moved(s, t, Reading(i + 1))
  {
    var attempt, at := CurrentAttempt(cfg, s.threads[t], i), s.threads[t].batch[s.threads[t].k].now;
    StepRecord(cfg, s, t, i);
    next := s.(rows := Recorded(s.rows, attempt, at), log := s.log + [Entry(t, Write(attempt, at))],
               threads := Moved(s, t, if attempt.recorded then Reading(i + 1) else WriteFailed(i)));
    if !attempt.recorded {
      var written := next;
      StepCountLost(cfg, written, t, i);
      next := written.(counters := Ticked(s.counters, CountWriteFailure), threads := Moved(written, t, Reading(i + 1)));
      ReachesTransitive(cfg, s, t, written, next);
      assert next.threads == Moved(s, t, Reading(i + 1));
    }
  }

  lemma TicksAreTally(c: Counters, attempt: Attempt)
    ensures var d := Ticked(c, CountSent(attempt.ok));
            (if attempt.recorded then d else Ticked(d, CountWriteFailure)) == TallyAttempt(c, attempt)
  {
  }

  lemma NotifiedRuns(cfg: Config, s: System, t: nat, i: nat) returns (next: System)
    requires AtDecision(cfg, s, t, i) && s.threads[t].pc == Notified(i)
    ensures IsAfterAttempt(cfg, s, t, i, next) && Reaches(cfg, s, t, next)
  {
    var attempt := CurrentAttempt(cfg, s.threads[t], i);
    StepCount(cfg, s, t, i);
    var counted := s.(counters := Ticked(s.counters, CountSent(attempt.ok)), threads := Moved(s, t, Recording(i)));
    next := RecordingRuns(cfg, counted, t, i);
    ReachesTransitive(cfg, s, t, counted, next);
    TicksAreTally(s.counters, attempt);
    assert counted.threads[t] == s.threads[t].(pc := Recording(i));
    assert CurrentAttempt(cfg, counted.threads[t], i) == attempt;
    assert next.threads == Moved(s, t, Reading(i + 1));
  }

  lemma NotifyingRuns(cfg: Config, s: System, t: nat, i: nat) returns (next: System)
    requires AtDecision(cfg, s, t, i) && s.threads[t].pc == Notifying(i)
    ensures IsAfterAttempt(cfg, s, t, i, next) && Reaches(cfg, s, t, next)
  {
    StepNotify(cfg, s, t, i);
    var hooked := s.(log := s.log + [Entry(t, HookOf(CurrentAttempt(cfg, s.threads[t], i)))],
                     threads := Moved(s, t, Notified(i)));
    next := NotifiedRuns(cfg, hooked, t, i);
    ReachesTransitive(cfg, s, t, hooked, next);
    assert next.threads == Moved(s, t, Reading(i + 1));
  }

  lemma AttemptRuns(cfg: Config, s: System, t: nat, i: nat) returns (next: System)
    requires AtDecision(cfg, s, t, i) && s.threads[t].pc == Reading(i)
             && s.threads[t].batch[s.threads[t].k].At(i).readOk
    requires !Settled(s.rows, CurrentAttempt(cfg, s.threads[t], i).pair, CurrentAttempt(cfg, s.threads[t], i).desired)
    ensures IsAfterAttempt(cfg, s, t, i, next) && Reaches(cfg, s, t, next)
  {
    var attempt := CurrentAttempt(cfg, s.threads[t], i);
    StepRead(cfg, s, t, i);
    var read := s.(log := s.log + [Entry(t, Read(attempt.pair, StatusIn(s.rows, attempt.pair)))],
                   threads := Moved(s, t, Notifying(i)));
    next := NotifyingRuns(cfg, read, t, i);
    ReachesTransitive(cfg, s, t, read, next);
    assert next.threads == Moved(s, t, Reading(i + 1));
  }

  // --- The decision loop --------------------------------------------------

  /** Where the loop leaves the thread. */
  function LoopEnd(th: Thread, failed: bool): Thread
  {
    if failed then th.(pc := Stopped(500)) else th.(k := th.k + 1, pc := Next)
  }

  predicate InLoop(cfg: Config, s: System, t: nat, i: nat)
  {
    && WellFormed(cfg, s) && t < |s.threads| && s.threads[t].pc == Reading(i)
    && s.threads[t].k < |s.threads[t].batch| && i <= |Decided(cfg, s.threads[t].batch[s.threads[t].k])|
  }

  /** The loop from decision i on ends like `FannedOut` from i on. */
  ghost predicate LoopFinishes(cfg: Config, s: System, t: nat, i: nat)
    requires InLoop(cfg, s, t, i)
  {
    var th := s.threads[t];
    var push := th.batch[th.k];
    var result := FannedOut(cfg, s.rows, Decided(cfg, push), push, i);
    Finishes(cfg, s, t, result, TallyFanOut(s.counters, result), LoopEnd(th, result.failed))
  }

  lemma StepReturnsNil(cfg: Config, s: System, t: nat, i: nat)
    requires InLoop(cfg, s, t, i) && i == |Decided(cfg, s.threads[t].batch[s.threads[t].k])|
    ensures Reaches(cfg, s, t, s.(threads := s.threads[t := LoopEnd(s.threads[t], false)]))
  {
    ReachesNext(cfg, s, t, Step(cfg, s, t));
  }

  lemma LoopEnds(cfg: Config, s: System, t: nat, i: nat)
    requires InLoop(cfg, s, t, i) && i == |Decided(cfg, s.threads[t].batch[s.threads[t].k])|
    ensures LoopFinishes(cfg, s, t, i)
  {
    StepReturnsNil(cfg, s, t, i);
    FinishesNow(cfg, s, t, s.(threads := s.threads[t := LoopEnd(s.threads[t], false)]));
  }

  lemma StepFailsRead(cfg: Config, s: System, t: nat, i: nat)
    requires InLoop(cfg, s, t, i) && AtDecision(cfg, s, t, i) && !s.threads[t].batch[s.threads[t].k].At(i).readOk
    ensures var failed := s.(threads := Moved(s, t, ReadFailed));
            WellFormed(cfg, failed) && Reaches(cfg, s, t, failed)
  {
    ReachesNext(cfg, s, t, Step(cfg, s, t));
  }

  lemma FailedReadRuns(cfg: Config, s: System, t: nat, i: nat)
    requires InLoop(cfg, s, t, i) && AtDecision(cfg, s, t, i) && !s.threads[t].batch[s.threads[t].k].At(i).readOk
    ensures Reaches(cfg, s, t, s.(counters := Ticked(s.counters, CountReadFailure),
                                  threads := Moved(s, t, Stopped(500))))
  {
    var failed := s.(threads := Moved(s, t, ReadFailed));
    StepFailsRead(cfg, s, t, i);
    LookupFailureRuns(cfg, failed, t);
    assert Moved(failed, t, Stopped(500)) == Moved(s, t, Stopped(500));
    ReachesTransitive(cfg, s, t, failed,
                      s.(counters := Ticked(s.counters, CountReadFailure), threads := Moved(s, t, Stopped(500))));
  }

  lemma AbortIsCounted(c: Counters, rows: Rows)
    ensures TallyFanOut(c, Dispatch(rows, [], true)) == Ticked(c, CountReadFailure)
  {
  }

  lemma LoopAborts(cfg: Config, s: System, t: nat, i: nat)
    requires InLoop(cfg, s, t, i) && AtDecision(cfg, s, t, i) && !s.threads[t].batch[s.threads[t].k].At(i).readOk
    ensures LoopFinishes(cfg, s, t, i)
  {
    var push := s.threads[t].batch[s.threads[t].k];
    assert FannedOut(cfg, s.rows, Decided(cfg, push), push, i) == Dispatch(s.rows, [], true);
    AbortIsCounted(s.counters, s.rows);
    FailedReadRuns(cfg, s, t, i);
    FinishesNow(cfg, s, t, s.(counters := Ticked(s.counters, CountReadFailure), threads := Moved(s, t, Stopped(500))));
  }

  lemma LookupFailureRuns(cfg: Config, s: System, t: nat)
    requires WellFormed(cfg, s) && t < |s.threads| && s.threads[t].pc == ReadFailed
    ensures Reaches(cfg, s, t, s.(counters := Ticked(s.counters, CountReadFailure),
                                  threads := Moved(s, t, Stopped(500))))
  {
    ReachesNext(cfg, s, t, Step(cfg, s, t));
  }

  /** The state after decision i has been passed over, read or not. */
  ghost predicate IsAfterSkip(cfg: Config, s: System, t: nat, i: nat, next: System)
    requires t < |s.threads|
  {
    && WellFormed(cfg, next) && Attempts(next.log) == Attempts(s.log)
    && next == s.(log := next.log, threads := Moved(s, t, Reading(i + 1)))
  }

  lemma SettledRuns(cfg: Config, s: System, t: nat, i: nat) returns (next: System)
    requires AtDecision(cfg, s, t, i) && s.threads[t].pc == Reading(i)
             && s.threads[t].batch[s.threads[t].k].At(i).readOk
    requires Settled(s.rows, CurrentAttempt(cfg, s.threads[t], i).pair, CurrentAttempt(cfg, s.threads[t], i).desired)
    ensures IsAfterSkip(cfg, s, t, i, next) && Reaches(cfg, s, t, next)
  {
    var attempt := CurrentAttempt(cfg, s.threads[t], i);
    StepRead(cfg, s, t, i);
    next := s.(log := s.log + [Entry(t, Read(attempt.pair, StatusIn(s.rows, attempt.pair)))],
               threads := Moved(s, t, Reading(i + 1)));
  }

  lemma UnknownReceiverRuns(cfg: Config, s: System, t: nat, i: nat) returns (next: System)
    requires InLoop(cfg, s, t, i) && i < |Decided(cfg, s.threads[t].batch[s.threads[t].k])|
    requires !AtDecision(cfg, s, t, i)
    ensures IsAfterSkip(cfg, s, t, i, next) && Reaches(cfg, s, t, next)
  {
    var th := s.threads[t];
    assert ActOf(cfg, th, s.rows) == Act(th.(pc := Reading(i + 1)), None, Quiet);
    StepIsAfter(cfg, s, t, None, Quiet, th.(pc := Reading(i + 1)));
    next := s.(threads := Moved(s, t, Reading(i + 1)));
  }

  /** If the loop finishes from decision i + 1 on, wherever the thread then
      is, it finishes from i on. */
  lemma LoopAfterAttempt(cfg: Config, s: System, t: nat, i: nat, next: System)
    requires InLoop(cfg, s, t, i) && AtDecision(cfg, s, t, i) && IsAfterAttempt(cfg, s, t, i, next)
             && Reaches(cfg, s, t, next)
    requires s.threads[t].batch[s.threads[t].k].At(i).readOk
    requires !Settled(s.rows, CurrentAttempt(cfg, s.threads[t], i).pair, CurrentAttempt(cfg, s.threads[t], i).desired)
    requires LoopFinishes(cfg, next, t, i + 1)
    ensures LoopFinishes(cfg, s, t, i)
  {
    LoopContinues(cfg, s, t, i, next, [CurrentAttempt(cfg, s.threads[t], i)]);
  }

  lemma LoopAfterSkip(cfg: Config, s: System, t: nat, i: nat, next: System)
    requires InLoop(cfg, s, t, i) && i < |Decided(cfg, s.threads[t].batch[s.threads[t].k])|
    requires AtDecision(cfg, s, t, i) ==>
               var attempt := CurrentAttempt(cfg, s.threads[t], i);
               s.threads[t].batch[s.threads[t].k].At(i).readOk && Settled(s.rows, attempt.pair, attempt.desired)
    requires IsAfterSkip(cfg, s, t, i, next) && Reaches(cfg, s, t, next) && LoopFinishes(cfg, next, t, i + 1)
    ensures LoopFinishes(cfg, s, t, i)
  {
    var push := s.threads[t].batch[s.threads[t].k];
    var rest := FannedOut(cfg, s.rows, Decided(cfg, push), push, i + 1);
    assert Attempts(s.log) + [] == Attempts(s.log) && [] + rest.log == rest.log;
    assert rest.After([]) == rest;
    LoopContinues(cfg, s, t, i, next, []);
  }

  /** Decision i done, whichever way, the rest of the loop is left. */
  ghost predicate OneDecisionDone(cfg: Config, s: System, t: nat, i: nat, next: System)
    requires InLoop(cfg, s, t, i)
  {
    && InLoop(cfg, next, t, i + 1) && next.threads[t].batch == s.threads[t].batch && next.threads[t].k == s.threads[t].k
    && (LoopFinishes(cfg, next, t, i + 1) ==> LoopFinishes(cfg, s, t, i))
  }

  lemma AttemptIsOneDecision(cfg: Config, s: System, t: nat, i: nat) returns (next: System)
    requires InLoop(cfg, s, t, i) && AtDecision(cfg, s, t, i) && s.threads[t].batch[s.threads[t].k].At(i).readOk
    requires !Settled(s.rows, CurrentAttempt(cfg, s.threads[t], i).pair, CurrentAttempt(cfg, s.threads[t], i).desired)
    ensures OneDecisionDone(cfg, s, t, i, next)
  {
    next := AttemptRuns(cfg, s, t, i);
    if LoopFinishes(cfg, next, t, i + 1) {
      LoopAfterAttempt(cfg, s, t, i, next);
    }
  }

  lemma SkipIsOneDecision(cfg: Config, s: System, t: nat, i: nat) returns (next: System)
    requires InLoop(cfg, s, t, i) && i < |Decided(cfg, s.threads[t].batch[s.threads[t].k])|
    requires AtDecision(cfg, s, t, i) ==>
               var attempt := CurrentAttempt(cfg, s.threads[t], i);
               s.threads[t].batch[s.threads[t].k].At(i).readOk && Settled(s.rows, attempt.pair, attempt.desired)
    ensures OneDecisionDone(cfg, s, t, i, next)
  {
    if AtDecision(cfg, s, t, i) {
      next := SettledRuns(cfg, s, t, i);
    } else {
      next := UnknownReceiverRuns(cfg, s, t, i);
    }
    if LoopFinishes(cfg, next, t, i + 1) {
      LoopAfterSkip(cfg, s, t, i, next);
    }
  }

  lemma OneDecisionRuns(cfg: Config, s: System, t: nat, i: nat) returns (next: System)
    requires InLoop(cfg, s, t, i) && i < |Decided(cfg, s.threads[t].batch[s.threads[t].k])|
    requires AtDecision(cfg, s, t, i) ==> s.threads[t].batch[s.threads[t].k].At(i).readOk
    ensures OneDecisionDone(cfg, s, t, i, next)
  {
    var push := s.threads[t].batch[s.threads[t].k];
    if AtDecision(cfg, s, t, i) && !Settled(s.rows, PairOf(cfg, Decided(cfg, push)[i], push), push.Desired()) {
      next := AttemptIsOneDecision(cfg, s, t, i);
    } else {
      next := SkipIsOneDecision(cfg, s, t, i);
    }
  }

  lemma {:induction false} FanOutRuns(cfg: Config, s: System, t: nat, i: nat)
    requires InLoop(cfg, s, t, i)
    ensures LoopFinishes(cfg, s, t, i)
    decreases |Decided(cfg, s.threads[t].batch[s.threads[t].k])| - i
  {
    var push := s.threads[t].batch[s.threads[t].k];
    if i == |Decided(cfg, push)| {
      LoopEnds(cfg, s, t, i);
    } else if AtDecision(cfg, s, t, i) && !push.At(i).readOk {
      LoopAborts(cfg, s, t, i);
    } else {
      var next := OneDecisionRuns(cfg, s, t, i);
      FanOutRuns(cfg, next, t, i + 1);
    }
  }

  /** One decision done, the loop's end from there is its end from here. */
  lemma LoopContinues(cfg: Config, s: System, t: nat, i: nat, next: System, made: seq<Attempt>)
    requires InLoop(cfg, s, t, i) && InLoop(cfg, next, t, i + 1) && LoopFinishes(cfg, next, t, i + 1)
    requires Reaches(cfg, s, t, next) && next.threads == Moved(s, t, Reading(i + 1))
    requires Attempts(next.log) == Attempts(s.log) + made && next.counters == TallyLog(s.counters, made)
    requires var push := s.threads[t].batch[s.threads[t].k]; var decisions := Decided(cfg, push);
             FannedOut(cfg, s.rows, decisions, push, i) == FannedOut(cfg, next.rows, decisions, push, i + 1).After(made)
    ensures LoopFinishes(cfg, s, t, i)
  {
    var th, push := s.threads[t], s.threads[t].batch[s.threads[t].k];
    var rest := FannedOut(cfg, next.rows, Decided(cfg, push), push, i + 1);
    FinishesVia(cfg, s, t, next, made, rest, TallyFanOut(next.counters, rest), LoopEnd(next.threads[t], rest.failed));
    TallyContinues(s.counters, made, rest);
    assert LoopEnd(next.threads[t], rest.failed) == LoopEnd(th, rest.failed);
  }

  lemma TallyContinues(c: Counters, made: seq<Attempt>, rest: Dispatch)
    ensures TallyFanOut(TallyLog(c, made), rest) == TallyFanOut(c, rest.After(made))
  {
    TallyLogConcat(c, made, rest.log);
  }

  // --- One alert, and the whole batch -------------------------------------

  predicate TakesAlert(cfg: Config, s: System, t: nat)
  {
    WellFormed(cfg, s) && t < |s.threads| && s.threads[t].pc == Next && s.threads[t].k < |s.threads[t].batch|
  }

  lemma StepReceive(cfg: Config, s: System, t: nat)
    requires TakesAlert(cfg, s, t)
    ensures var next := s.(counters := Ticked(s.counters, CountReceived), threads := Moved(s, t, MuteRead));
            WellFormed(cfg, next) && Reaches(cfg, s, t, next)
  {
    ReachesNext(cfg, s, t, Step(cfg, s, t));
  }

  lemma StepMuteRead(cfg: Config, s: System, t: nat)
    requires WellFormed(cfg, s) && t < |s.threads| && s.threads[t].pc == MuteRead
    ensures var th := s.threads[t];
            var next := s.(threads := s.threads[t := match th.batch[th.k].mute
                                                     case Unreadable => th.(pc := MuteFailed)
                                                     case Muted => LoopEnd(th, false)
                                                     case Clear => th.(pc := Reading(0))]);
            WellFormed(cfg, next) && Reaches(cfg, s, t, next)
  {
    ReachesNext(cfg, s, t, Step(cfg, s, t));
  }

  lemma StepCountMuteFailure(cfg: Config, s: System, t: nat)
    requires WellFormed(cfg, s) && t < |s.threads| && s.threads[t].pc == MuteFailed
    ensures Reaches(cfg, s, t, s.(counters := Ticked(s.counters, CountMuteFailure),
                                  threads := Moved(s, t, Stopped(500))))
  {
    ReachesNext(cfg, s, t, Step(cfg, s, t));
  }

  /** A first step that makes no attempt and moves only the thread's place. */
  lemma FinishesAfterMove(cfg: Config, s: System, t: nat, next: System, result: Dispatch, counters: Counters,
                          th: Thread)
    requires t < |s.threads| == |next.threads| && Reaches(cfg, s, t, next)
    requires next.threads == s.threads[t := next.threads[t]] && next.log == s.log
    requires Finishes(cfg, next, t, result, counters, th)
    ensures Finishes(cfg, s, t, result, counters, th)
  {
    assert Attempts(s.log) + [] == Attempts(s.log) && [] + result.log == result.log;
    FinishesVia(cfg, s, t, next, [], result, counters, th);
  }

  /** The result of Process as the thread's run must end. */
  ghost predicate ProcessFinishes(cfg: Config, s: System, t: nat)
    requires t < |s.threads| && s.threads[t].k < |s.threads[t].batch|
  {
    var th := s.threads[t];
    var push := th.batch[th.k];
    var result := Processed(cfg, s.rows, push);
    Finishes(cfg, s, t, result, TallyProcess(s.counters, push, result), LoopEnd(th, result.failed))
  }

  lemma UnreadableRuns(cfg: Config, s: System, t: nat)
    requires WellFormed(cfg, s) && t < |s.threads| && s.threads[t].pc == MuteRead
    requires s.threads[t].batch[s.threads[t].k].mute == Unreadable
    ensures ProcessFinishes(cfg, s, t)
  {
    var failed := s.(threads := Moved(s, t, MuteFailed));
    StepMuteRead(cfg, s, t);
    StepCountMuteFailure(cfg, failed, t);
    var end := s.(counters := Ticked(s.counters, CountMuteFailure), threads := Moved(s, t, Stopped(500)));
    assert Moved(failed, t, Stopped(500)) == Moved(s, t, Stopped(500));
    ReachesTransitive(cfg, s, t, failed, end);
    FinishesNow(cfg, s, t, end);
  }

  lemma ClearRuns(cfg: Config, s: System, t: nat)
    requires WellFormed(cfg, s) && t < |s.threads| && s.threads[t].pc == MuteRead
    requires s.threads[t].batch[s.threads[t].k].mute == Clear
    ensures ProcessFinishes(cfg, s, t)
  {
    var th := s.threads[t];
    var push := th.batch[th.k];
    var loop := s.(threads := Moved(s, t, Reading(0)));
    var result := FannedOut(cfg, s.rows, Decided(cfg, push), push, 0);
    StepMuteRead(cfg, s, t);
    FanOutRuns(cfg, loop, t, 0);
    FinishesAfterMove(cfg, s, t, loop, result, TallyFanOut(s.counters, result),
                      LoopEnd(loop.threads[t], result.failed));
    assert LoopEnd(loop.threads[t], result.failed) == LoopEnd(th, result.failed);
  }

  /** Process, from the mute read on. */
  lemma MuteReadRuns(cfg: Config, s: System, t: nat)
    requires WellFormed(cfg, s) && t < |s.threads| && s.threads[t].pc == MuteRead
    ensures ProcessFinishes(cfg, s, t)
  {
    match s.threads[t].batch[s.threads[t].k].mute {
      case Unreadable => UnreadableRuns(cfg, s, t);
      case Muted =>
        StepMuteRead(cfg, s, t);
        FinishesNow(cfg, s, t, s.(threads := s.threads[t := LoopEnd(s.threads[t], false)]));
      case Clear => ClearRuns(cfg, s, t);
    }
  }

  lemma ReceivedRuns(cfg: Config, s: System, t: nat)
    requires TakesAlert(cfg, s, t)
    ensures var th := s.threads[t]; var push := th.batch[th.k];
            var result := Processed(cfg, s.rows, push);
            Finishes(cfg, s, t, result, TallyReceived(cfg, s.counters, s.rows, push), LoopEnd(th, result.failed))
  {
    var th := s.threads[t];
    var push := th.batch[th.k];
    var result := Processed(cfg, s.rows, push);
    var next := s.(counters := Ticked(s.counters, CountReceived), threads := Moved(s, t, MuteRead));
    StepReceive(cfg, s, t);
    MuteReadRuns(cfg, next, t);
    FinishesAfterMove(cfg, s, t, next, result, TallyProcess(next.counters, push, result),
                      LoopEnd(next.threads[t], result.failed));
    assert LoopEnd(next.threads[t], result.failed) == LoopEnd(th, result.failed);
  }

  /** Where the batch leaves the thread: stopped with its code, behind the
      alerts that returned nil. */
  function BatchEnd(cfg: Config, rows: Rows, th: Thread): Thread
    requires th.k <= |th.batch|
  {
    var rest := th.batch[th.k..];
    th.(k := th.k + Returned(cfg, rows, rest), pc := Stopped(if Posted(cfg, rows, rest).failed then 500 else 200))
  }

  lemma StepAnswers(cfg: Config, s: System, t: nat)
    requires WellFormed(cfg, s) && t < |s.threads| && s.threads[t].pc == Next && s.threads[t].k == |s.threads[t].batch|
    ensures Reaches(cfg, s, t, s.(threads := Moved(s, t, Stopped(200))))
  {
    ReachesNext(cfg, s, t, Step(cfg, s, t));
  }

  ghost predicate BatchFinishes(cfg: Config, s: System, t: nat)
    requires t < |s.threads| && s.threads[t].k <= |s.threads[t].batch|
  {
    var th := s.threads[t];
    var rest := th.batch[th.k..];
    Finishes(cfg, s, t, Posted(cfg, s.rows, rest), TallyPost(cfg, s.counters, s.rows, rest), BatchEnd(cfg, s.rows, th))
  }

  /** The next alert processed without error, the batch ends from there. */
  lemma BatchContinues(cfg: Config, s: System, t: nat, mid: System)
    requires TakesAlert(cfg, s, t) && t < |mid.threads|
    requires var th := s.threads[t]; var push := th.batch[th.k]; var result := Processed(cfg, s.rows, push);
             && !result.failed && Reaches(cfg, s, t, mid)
             && mid.rows == result.rows && Attempts(mid.log) == Attempts(s.log) + result.log
             && mid.counters == TallyReceived(cfg, s.counters, s.rows, push)
             && mid.threads == s.threads[t := LoopEnd(th, false)]
    requires BatchFinishes(cfg, mid, t)
    ensures BatchFinishes(cfg, s, t)
  {
    var th, after := s.threads[t], mid.threads[t];
    var rest := th.batch[th.k..];
    var result := Processed(cfg, s.rows, rest[0]);
    assert after.batch[after.k..] == rest[1..];
    FinishesVia(cfg, s, t, mid, result.log, Posted(cfg, mid.rows, rest[1..]),
                TallyPost(cfg, mid.counters, mid.rows, rest[1..]), BatchEnd(cfg, mid.rows, after));
    assert BatchEnd(cfg, mid.rows, after) == BatchEnd(cfg, s.rows, th);
  }

  /** A handler that runs alone ends exactly like the sequential POST of the
      rest of its batch: rows, attempts, counters and answer. */
  lemma {:induction false} BatchRuns(cfg: Config, s: System, t: nat)
    requires WellFormed(cfg, s) && t < |s.threads| && s.threads[t].pc == Next
    ensures BatchFinishes(cfg, s, t)
    decreases |s.threads[t].batch| - s.threads[t].k
  {
    var th := s.threads[t];
    if th.k == |th.batch| {
      BatchAnswers(cfg, s, t);
    } else {
      var push := th.batch[th.k];
      var result := Processed(cfg, s.rows, push);
      ReceivedRuns(cfg, s, t);
      if result.failed {
        BatchAborts(cfg, s, t);
      } else {
        var mid :|
          && Reaches(cfg, s, t, mid)
          && mid.rows == result.rows && Attempts(mid.log) == Attempts(s.log) + result.log
          && mid.counters == TallyReceived(cfg, s.counters, s.rows, push)
          && mid.threads == s.threads[t := LoopEnd(th, false)];
        BatchRuns(cfg, mid, t);
        BatchContinues(cfg, s, t, mid);
      }
    }
  }

  lemma BatchAnswers(cfg: Config, s: System, t: nat)
    requires WellFormed(cfg, s) && t < |s.threads| && s.threads[t].pc == Next && s.threads[t].k == |s.threads[t].batch|
    ensures BatchFinishes(cfg, s, t)
  {
    var th := s.threads[t];
    assert th.batch[th.k..] == [];
    StepAnswers(cfg, s, t);
    FinishesNow(cfg, s, t, s.(threads := Moved(s, t, Stopped(200))));
    assert BatchEnd(cfg, s.rows, th) == th.(pc := Stopped(200));
  }

  lemma BatchAborts(cfg: Config, s: System, t: nat)
    requires TakesAlert(cfg, s, t)
    requires var th := s.threads[t]; var push := th.batch[th.k]; var result := Processed(cfg, s.rows, push);
             && result.failed
             && Finishes(cfg, s, t, result, TallyReceived(cfg, s.counters, s.rows, push), LoopEnd(th, true))
    ensures BatchFinishes(cfg, s, t)
  {
    var th := s.threads[t];
    var rest := th.batch[th.k..];
    assert rest[0] == th.batch[th.k];
    assert Posted(cfg, s.rows, rest) == Processed(cfg, s.rows, rest[0]);
    assert TallyPost(cfg, s.counters, s.rows, rest) == TallyReceived(cfg, s.counters, s.rows, rest[0]);
    assert BatchEnd(cfg, s.rows, th) == LoopEnd(th, true);
  }
}
