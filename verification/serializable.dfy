/** Serializability of handlers whose batches carry distinct fingerprints:
    every complete interleaving ends like every serial order of the
    sequential POSTs. */
module Serializable {
  import opened Common
  import opened Routing
  import opened Delivery
  import opened Metric
  import opened Handlers
  import opened Conservation
  import opened Solo
  import opened Retry

  // --- A thread's own part of the state -----------------------------------

  function Fingerprints(cfg: Config, batch: seq<Push>): set<string>
  {
    set i | 0 <= i < |batch| :: Fingerprint(cfg, batch[i])
  }

  function PairIn(event: Event): Pair
  {
    match event
    case Read(pair, _) => pair
    case Hook(pair, _, _, _) => pair
    case Write(attempt, _) => attempt.pair
  }

  /** The entries about these fingerprints. */
  function Own(log: seq<Entry>, fps: set<string>): seq<Entry>
  {
    if log == [] then []
    else
      var last := log[|log| - 1];
      Own(log[..|log| - 1], fps) + (if PairIn(last.event).fingerprint in fps then [last] else [])
  }

  lemma OwnLogged(log: seq<Entry>, t: nat, event: Event, fps: set<string>)
    ensures Own(log + [Entry(t, event)], fps)
         == Own(log, fps) + (if PairIn(event).fingerprint in fps then [Entry(t, event)] else [])
  {
    assert (log + [Entry(t, event)])[..|log|] == log;
  }

  ghost predicate SameRows(rows: Rows, rows': Rows, fps: set<string>)
  {
    forall pair: Pair :: pair.fingerprint in fps ==> SameRow(rows, rows', pair)
  }

  /** Thread t cannot tell the two states apart. */
  ghost predicate Agree(cfg: Config, s: System, s': System, t: nat)
    requires t < |s.threads| && t < |s'.threads|
  {
    var fps := Fingerprints(cfg, s.threads[t].batch);
    s.threads[t] == s'.threads[t] && SameRows(s.rows, s'.rows, fps) && Own(s.log, fps) == Own(s'.log, fps)
  }

  /** A step reads and writes only rows of the current alert's fingerprint. */
  lemma ActIsLocal(cfg: Config, th: Thread, rows: Rows, rows': Rows)
    requires WellFormedThread(cfg, th) && SameRows(rows, rows', Fingerprints(cfg, th.batch))
    ensures ActOf(cfg, th, rows) == ActOf(cfg, th, rows')
    ensures ActOf(cfg, th, rows).thread.batch == th.batch
    ensures var event := ActOf(cfg, th, rows).event;
            event.Some? ==> PairIn(event.value).fingerprint in Fingerprints(cfg, th.batch)
  {
    if th.k < |th.batch| {
      assert Fingerprint(cfg, th.batch[th.k]) in Fingerprints(cfg, th.batch);
      if th.pc.Reading? && th.pc.i < |Decided(cfg, th.batch[th.k])| {
        assert SameRow(rows, rows', PairOf(cfg, Decided(cfg, th.batch[th.k])[th.pc.i], th.batch[th.k]));
      }
    }
  }

  lemma AppliedKeepsSame(rows: Rows, rows': Rows, event: Option<Event>, fps: set<string>)
    requires SameRows(rows, rows', fps)
    ensures SameRows(Applied(rows, event), Applied(rows', event), fps)
  {
  }

  lemma AppliedElsewhere(rows: Rows, event: Option<Event>, fps: set<string>)
    requires event.Some? ==> PairIn(event.value).fingerprint !in fps
    ensures SameRows(Applied(rows, event), rows, fps)
  {
  }

  /** The same act keeps two agreeing states in agreement. */
  lemma ActKeepsAgreement(cfg: Config, s: System, s': System, t: nat, act: Act)
    requires t < |s.threads| && t < |s'.threads| && Agree(cfg, s, s', t) && act.thread.batch == s.threads[t].batch
    ensures Agree(cfg, After(s, t, act), After(s', t, act), t)
  {
    var fps := Fingerprints(cfg, s.threads[t].batch);
    AppliedKeepsSame(s.rows, s'.rows, act.event, fps);
    if act.event.Some? {
      OwnLogged(s.log, t, act.event.value, fps);
      OwnLogged(s'.log, t, act.event.value, fps);
    }
  }

  /** An act about other fingerprints, by another thread, is invisible. */
  lemma ActElsewhereIsInvisible(cfg: Config, s: System, t: nat, u: nat, act: Act)
    requires t < |s.threads| && u < |s.threads| && t != u
    requires act.event.Some? ==> PairIn(act.event.value).fingerprint !in Fingerprints(cfg, s.threads[t].batch)
    ensures Agree(cfg, After(s, u, act), s, t)
  {
    var fps := Fingerprints(cfg, s.threads[t].batch);
    AppliedElsewhere(s.rows, act.event, fps);
    if act.event.Some? {
      OwnLogged(s.log, u, act.event.value, fps);
    }
  }

  // --- Disjoint handlers --------------------------------------------------

  /** The threads work through these batches. */
  predicate Carries(s: System, batches: seq<seq<Push>>)
  {
    |s.threads| == |batches| && forall t | 0 <= t < |batches| :: s.threads[t].batch == batches[t]
  }

  /** The fingerprints in flight in different handlers are distinct. */
  predicate Disjoint(cfg: Config, batches: seq<seq<Push>>)
  {
    forall t, u | 0 <= t < |batches| && 0 <= u < |batches| && t != u ::
      Fingerprints(cfg, batches[t]) !! Fingerprints(cfg, batches[u])
  }

  lemma StepCarries(cfg: Config, s: System, t: nat, batches: seq<seq<Push>>)
    requires WellFormed(cfg, s) && Carries(s, batches)
    ensures Carries(Step(cfg, s, t), batches)
  {
    if t < |s.threads| {
      ActIsLocal(cfg, s.threads[t], s.rows, s.rows);
    }
  }

  lemma {:induction false} RunCarries(cfg: Config, s: System, schedule: seq<nat>, batches: seq<seq<Push>>)
    requires WellFormed(cfg, s) && Carries(s, batches)
    ensures Carries(Run(cfg, s, schedule), batches)
    decreases |schedule|
  {
    if schedule != [] {
      var n := |schedule| - 1;
      RunCarries(cfg, s, schedule[..n], batches);
      StepCarries(cfg, Run(cfg, s, schedule[..n]), schedule[n], batches);
    }
  }

  lemma OwnStepAgrees(cfg: Config, s: System, s': System, t: nat)
    requires WellFormed(cfg, s) && WellFormed(cfg, s') && t < |s.threads| && t < |s'.threads| && Agree(cfg, s, s', t)
    ensures Agree(cfg, Step(cfg, s, t), Step(cfg, s', t), t)
  {
    ActIsLocal(cfg, s.threads[t], s.rows, s'.rows);
    ActKeepsAgreement(cfg, s, s', t, ActOf(cfg, s.threads[t], s.rows));
  }

  lemma OtherStepAgrees(cfg: Config, s: System, t: nat, u: nat, batches: seq<seq<Push>>)
    requires WellFormed(cfg, s) && Carries(s, batches) && Disjoint(cfg, batches)
    requires t < |s.threads| && t != u
    ensures t < |Step(cfg, s, u).threads| && Agree(cfg, Step(cfg, s, u), s, t)
  {
    if u < |s.threads| {
      ActIsLocal(cfg, s.threads[u], s.rows, s.rows);
      assert Fingerprints(cfg, batches[t]) !! Fingerprints(cfg, batches[u]);
      ActElsewhereIsInvisible(cfg, s, t, u, ActOf(cfg, s.threads[u], s.rows));
    }
  }

  lemma AgreeTransitive(cfg: Config, a: System, b: System, c: System, t: nat)
    requires t < |a.threads| && t < |b.threads| && t < |c.threads| && Agree(cfg, a, b, t) && Agree(cfg, b, c, t)
    ensures Agree(cfg, a, c, t)
  {
    var fps := Fingerprints(cfg, a.threads[t].batch);
    forall pair: Pair | pair.fingerprint in fps ensures SameRow(a.rows, c.rows, pair) {
      assert SameRow(a.rows, b.rows, pair) && SameRow(b.rows, c.rows, pair);
    }
  }

  lemma {:induction false} AloneIsWellFormed(cfg: Config, s: System, t: nat, n: nat)
    requires WellFormed(cfg, s)
    ensures WellFormed(cfg, Alone(cfg, s, t, n)) && |Alone(cfg, s, t, n).threads| == |s.threads|
    ensures n > 0 ==> Alone(cfg, s, t, n) == Step(cfg, Alone(cfg, s, t, n - 1), t)
    decreases n
  {
    if n > 0 {
      AloneIsWellFormed(cfg, s, t, n - 1);
    }
  }

  function Count(schedule: seq<nat>, t: nat): nat
  {
    if schedule == [] then 0
    else Count(schedule[..|schedule| - 1], t) + (if schedule[|schedule| - 1] == t then 1 else 0)
  }

  /** One more step, thread t's own or another's. */
  lemma StepLooksAlone(cfg: Config, s: System, alone: System, t: nat, u: nat, batches: seq<seq<Push>>)
    requires WellFormed(cfg, s) && WellFormed(cfg, alone) && Carries(s, batches) && Disjoint(cfg, batches)
    requires t < |s.threads| == |alone.threads| && Agree(cfg, s, alone, t)
    ensures Agree(cfg, Step(cfg, s, u), if u == t then Step(cfg, alone, t) else alone, t)
  {
    if u == t {
      OwnStepAgrees(cfg, s, alone, t);
    } else {
      OtherStepAgrees(cfg, s, t, u, batches);
      AgreeTransitive(cfg, Step(cfg, s, u), s, alone, t);
    }
  }

  /** Any interleaving looks to thread t like its own steps alone. */
  lemma {:induction false} LooksAlone(cfg: Config, s: System, schedule: seq<nat>, t: nat, batches: seq<seq<Push>>)
    requires WellFormed(cfg, s) && Carries(s, batches) && Disjoint(cfg, batches) && t < |s.threads|
    ensures |Alone(cfg, s, t, Count(schedule, t)).threads| == |s.threads|
    ensures Agree(cfg, Run(cfg, s, schedule), Alone(cfg, s, t, Count(schedule, t)), t)
    decreases |schedule|
  {
    if schedule == [] {
      AloneIsWellFormed(cfg, s, t, 0);
    } else {
      var before, u := schedule[..|schedule| - 1], schedule[|schedule| - 1];
      var m := Count(before, t);
      LooksAlone(cfg, s, before, t, batches);
      RunCarries(cfg, s, before, batches);
      AloneIsWellFormed(cfg, s, t, m);
      AloneIsWellFormed(cfg, s, t, m + 1);
      StepLooksAlone(cfg, Run(cfg, s, before), Alone(cfg, s, t, m), t, u, batches);
      assert Count(schedule, t) == if u == t then m + 1 else m;
    }
  }

  // --- Attempts through the thread's own log ------------------------------

  /** One more entry: what it adds to the attempts on the pair. */
  lemma OnAttemptsLogged(log: seq<Entry>, t: nat, event: Event, pair: Pair)
    ensures On(Attempts(log + [Entry(t, event)]), pair)
         == On(Attempts(log), pair) + (if event.Write? && event.attempt.pair == pair then [event.attempt] else [])
  {
    AttemptsLogged(log, t, event);
    if event.Write? {
      OnConcat(Attempts(log), [event.attempt], pair);
      assert On([event.attempt], pair) == if event.attempt.pair == pair then [event.attempt] else [];
    } else {
      assert Attempts(log) + [] == Attempts(log);
    }
    assert On(Attempts(log), pair) + [] == On(Attempts(log), pair);
  }

  lemma {:induction false} OwnAttempts(log: seq<Entry>, fps: set<string>, pair: Pair)
    requires pair.fingerprint in fps
    ensures On(Attempts(log), pair) == On(Attempts(Own(log, fps)), pair)
    decreases |log|
  {
    if log != [] {
      var before, last := log[..|log| - 1], log[|log| - 1];
      OwnAttempts(before, fps, pair);
      assert before + [last] == log && last == Entry(last.thread, last.event);
      OnAttemptsLogged(before, last.thread, last.event, pair);
      OwnLogged(before, last.thread, last.event, fps);
      if PairIn(last.event).fingerprint in fps {
        OnAttemptsLogged(Own(before, fps), last.thread, last.event, pair);
      } else {
        assert Own(before, fps) + [] == Own(before, fps);
        assert On(Attempts(before), pair) + [] == On(Attempts(before), pair);
      }
    }
  }

  // --- The sequential side is local too -----------------------------------

  lemma {:induction false} FanOutLocal(cfg: Config, rows: Rows, rows': Rows, decisions: seq<Rule>, push: Push, i: nat,
                                       fps: set<string>)
    requires i <= |decisions| && SameRows(rows, rows', fps) && Fingerprint(cfg, push) in fps
    ensures var a, b := FannedOut(cfg, rows, decisions, push, i), FannedOut(cfg, rows', decisions, push, i);
            a.log == b.log && a.failed == b.failed && SameRows(a.rows, b.rows, fps)
    decreases |decisions| - i
  {
    if i < |decisions| {
      FanOutLocal(cfg, rows, rows', decisions, push, i + 1, fps);
      assert SameRow(rows, rows', PairOf(cfg, decisions[i], push));
      if decisions[i].receiver in cfg.receivers {
        var attempt := AttemptFor(cfg, decisions[i], push, i);
        FanOutLocal(cfg, Recorded(rows, attempt, push.now), Recorded(rows', attempt, push.now), decisions, push, i + 1,
                    fps);
      }
    }
  }

  lemma {:induction false} PostLocal(cfg: Config, rows: Rows, rows': Rows, batch: seq<Push>, fps: set<string>)
    requires SameRows(rows, rows', fps) && Fingerprints(cfg, batch) <= fps
    ensures var a, b := Posted(cfg, rows, batch), Posted(cfg, rows', batch);
            a.log == b.log && SameRows(a.rows, b.rows, fps)
    decreases |batch|
  {
    if batch != [] {
      assert Fingerprint(cfg, batch[0]) in Fingerprints(cfg, batch);
      FanOutLocal(cfg, rows, rows', Decided(cfg, batch[0]), batch[0], 0, fps);
      TailFingerprints(cfg, batch);
      PostLocal(cfg, Processed(cfg, rows, batch[0]).rows, Processed(cfg, rows', batch[0]).rows, batch[1..], fps);
    }
  }

  lemma TailFingerprints(cfg: Config, batch: seq<Push>)
    requires batch != []
    ensures Fingerprints(cfg, batch[1..]) <= Fingerprints(cfg, batch)
  {
    forall f | f in Fingerprints(cfg, batch[1..]) ensures f in Fingerprints(cfg, batch) {
      var i :| 0 <= i < |batch[1..]| && f == Fingerprint(cfg, batch[1..][i]);
      assert batch[i + 1] == batch[1..][i];
    }
  }

  lemma {:induction false} PostFrame(cfg: Config, rows: Rows, batch: seq<Push>, pair: Pair)
    requires pair.fingerprint !in Fingerprints(cfg, batch)
    ensures Untouched(rows, pair, Posted(cfg, rows, batch))
    decreases |batch|
  {
    if batch != [] {
      var first := Processed(cfg, rows, batch[0]);
      assert Fingerprint(cfg, batch[0]) in Fingerprints(cfg, batch);
      if batch[0].mute == Clear {
        FanOutFrame(cfg, rows, Decided(cfg, batch[0]), batch[0], 0, pair);
      }
      if !first.failed {
        TailFingerprints(cfg, batch);
        PostFrame(cfg, first.rows, batch[1..], pair);
        OnConcat(first.log, Posted(cfg, first.rows, batch[1..]).log, pair);
      }
    }
  }

  // --- Serial orders ------------------------------------------------------

  /** The batches posted one after another, in this order. */
  function Serial(cfg: Config, rows: Rows, batches: seq<seq<Push>>, order: seq<nat>): Dispatch
    requires forall i :: 0 <= i < |order| ==> order[i] < |batches|
    decreases |order|
  {
    if order == [] then Dispatch(rows, [], false)
    else
      var first := Posted(cfg, rows, batches[order[0]]);
      Serial(cfg, first.rows, batches, order[1..]).After(first.log)
  }

  /** Each handler once. */
  predicate IsOrder(order: seq<nat>, n: nat)
  {
    && (forall i | 0 <= i < |order| :: order[i] < n)
    && (forall i, j | 0 <= i < j < |order| :: order[i] != order[j])
    && (forall t: nat | t < n :: t in order)
  }

  /** A pair no handler in the order works on is untouched. */
  lemma {:induction false} SerialFrame(cfg: Config, rows: Rows, batches: seq<seq<Push>>, order: seq<nat>, pair: Pair)
    requires forall i :: 0 <= i < |order| ==> order[i] < |batches|
    requires forall i :: 0 <= i < |order| ==> pair.fingerprint !in Fingerprints(cfg, batches[order[i]])
    ensures Untouched(rows, pair, Serial(cfg, rows, batches, order))
    decreases |order|
  {
    if order != [] {
      var first := Posted(cfg, rows, batches[order[0]]);
      PostFrame(cfg, rows, batches[order[0]], pair);
      SerialFrame(cfg, first.rows, batches, order[1..], pair);
      OnConcat(first.log, Serial(cfg, first.rows, batches, order[1..]).log, pair);
    }
  }

  /** A serial order treats thread t's pairs as its POST alone does. */
  lemma {:induction false} SerialLooksAlone(cfg: Config, rows: Rows, batches: seq<seq<Push>>, order: seq<nat>, t: nat,
                                            pair: Pair)
    requires forall i :: 0 <= i < |order| ==> order[i] < |batches|
    requires forall i, j :: 0 <= i < j < |order| ==> order[i] != order[j]
    requires t in order && t < |batches| && Disjoint(cfg, batches) && pair.fingerprint in Fingerprints(cfg, batches[t])
    ensures var serial, alone := Serial(cfg, rows, batches, order), Posted(cfg, rows, batches[t]);
            SameRow(serial.rows, alone.rows, pair) && On(serial.log, pair) == On(alone.log, pair)
    decreases |order|
  {
    var u := order[0];
    var first := Posted(cfg, rows, batches[u]);
    var rest := Serial(cfg, first.rows, batches, order[1..]);
    OnConcat(first.log, rest.log, pair);
    if u == t {
      forall i | 0 <= i < |order[1..]| ensures pair.fingerprint !in Fingerprints(cfg, batches[order[1..][i]]) {
        assert order[1..][i] != t;
      }
      SerialFrame(cfg, first.rows, batches, order[1..], pair);
    } else {
      var fps := Fingerprints(cfg, batches[t]);
      forall p: Pair | p.fingerprint in fps ensures SameRow(first.rows, rows, p) {
        PostFrame(cfg, rows, batches[u], p);
      }
      PostFrame(cfg, rows, batches[u], pair);
      SerialLooksAlone(cfg, first.rows, batches, order[1..], t, pair);
      PostLocal(cfg, first.rows, rows, batches[t], fps);
    }
  }

  // --- Complete interleavings ---------------------------------------------

  /** Every handler has answered. */
  predicate Complete(s: System)
  {
    forall t | 0 <= t < |s.threads| :: s.threads[t].pc.Stopped?
  }

  lemma MoreStepsAlone(cfg: Config, s: System, t: nat, m: nat, n: nat)
    requires m <= n && WellFormed(cfg, s) && t < |s.threads|
    requires t < |Alone(cfg, s, t, m).threads| && Alone(cfg, s, t, m).threads[t].pc.Stopped?
    ensures Alone(cfg, s, t, m) == Alone(cfg, s, t, n)
  {
    AloneIsWellFormed(cfg, s, t, m);
    StoppedStays(cfg, Alone(cfg, s, t, m), t);
    IterateStays(StepOf(cfg, t), s, m, n);
  }

  lemma StoppedRunsAreEqual(cfg: Config, s: System, t: nat, m: nat, n: nat)
    requires WellFormed(cfg, s) && t < |s.threads|
    requires t < |Alone(cfg, s, t, m).threads| && Alone(cfg, s, t, m).threads[t].pc.Stopped?
    requires t < |Alone(cfg, s, t, n).threads| && Alone(cfg, s, t, n).threads[t].pc.Stopped?
    ensures Alone(cfg, s, t, m) == Alone(cfg, s, t, n)
  {
    if m <= n {
      MoreStepsAlone(cfg, s, t, m, n);
    } else {
      MoreStepsAlone(cfg, s, t, n, m);
    }
  }

  /** Thread t, about to start, has only its POST to run: its end alone. */
  ghost predicate EndsAlone(cfg: Config, rows: Rows, batch: seq<Push>, t: nat, end: System)
  {
    var alone := Posted(cfg, rows, batch);
    && end.rows == alone.rows && Attempts(end.log) == alone.log
    && t < |end.threads| && end.threads[t].pc == Stopped(AnswerCode(alone))
  }

  lemma AloneEnds(cfg: Config, start: System, t: nat) returns (m: nat)
    requires WellFormed(cfg, start) && t < |start.threads| && start.log == []
    requires start.threads[t].k == 0 && start.threads[t].pc == Next
    ensures EndsAlone(cfg, start.rows, start.threads[t].batch, t, Alone(cfg, start, t, m))
  {
    var th := start.threads[t];
    BatchRuns(cfg, start, t);
    assert th.batch[0..] == th.batch;
    var end :|
      && Reaches(cfg, start, t, end)
      && end.rows == Posted(cfg, start.rows, th.batch[0..]).rows
      && Attempts(end.log) == Attempts(start.log) + Posted(cfg, start.rows, th.batch[0..]).log
      && end.counters == TallyPost(cfg, start.counters, start.rows, th.batch[0..])
      && end.threads == start.threads[t := BatchEnd(cfg, start.rows, th)];
    assert [] + Posted(cfg, start.rows, th.batch).log == Posted(cfg, start.rows, th.batch).log;
    m :| Alone(cfg, start, t, m) == end;
  }

  /** At the end of a complete interleaving, thread t cannot tell it from
      running alone. */
  lemma CompleteAgreesWithAlone(cfg: Config, start: System, batches: seq<seq<Push>>, schedule: seq<nat>, t: nat)
    returns (end: System)
    requires WellFormed(cfg, start) && Carries(start, batches) && Disjoint(cfg, batches) && t < |batches|
    requires start.log == [] && start.threads[t].k == 0 && start.threads[t].pc == Next
    requires Complete(Run(cfg, start, schedule))
    ensures EndsAlone(cfg, start.rows, batches[t], t, end) && Agree(cfg, Run(cfg, start, schedule), end, t)
  {
    LooksAlone(cfg, start, schedule, t, batches);
    var m := AloneEnds(cfg, start, t);
    end := Alone(cfg, start, t, m);
    StoppedRunsAreEqual(cfg, start, t, m, Count(schedule, t));
  }

  /** At the end of a complete interleaving, thread t's pairs stand as its
      POST alone leaves them. */
  lemma CompleteLooksAlone(cfg: Config, rows: Rows, batches: seq<seq<Push>>, schedule: seq<nat>, t: nat, pair: Pair)
    requires Disjoint(cfg, batches) && t < |batches| && pair.fingerprint in Fingerprints(cfg, batches[t])
    requires Complete(Run(cfg, Start(cfg, rows, batches), schedule))
    ensures var s, alone := Run(cfg, Start(cfg, rows, batches), schedule), Posted(cfg, rows, batches[t]);
            && SameRow(s.rows, alone.rows, pair) && On(Attempts(s.log), pair) == On(alone.log, pair)
            && s.threads[t].pc == Stopped(AnswerCode(alone))
  {
    var start := Start(cfg, rows, batches);
    var s := Run(cfg, start, schedule);
    var fps := Fingerprints(cfg, batches[t]);
    var end := CompleteAgreesWithAlone(cfg, start, batches, schedule, t);
    RunCarries(cfg, start, schedule, batches);
    assert s.threads[t].batch == batches[t];
    OwnAttempts(s.log, fps, pair);
    OwnAttempts(end.log, fps, pair);
  }

  /** Pairs whose fingerprint is in no batch are untouched by any run. */
  lemma {:induction false} RunFrame(cfg: Config, s: System, schedule: seq<nat>, batches: seq<seq<Push>>, pair: Pair)
    requires WellFormed(cfg, s) && Carries(s, batches)
    requires forall t :: 0 <= t < |batches| ==> pair.fingerprint !in Fingerprints(cfg, batches[t])
    ensures SameRow(s.rows, Run(cfg, s, schedule).rows, pair)
    ensures On(Attempts(Run(cfg, s, schedule).log), pair) == On(Attempts(s.log), pair)
    decreases |schedule|
  {
    if schedule != [] {
      var n := |schedule| - 1;
      var before, u := Run(cfg, s, schedule[..n]), schedule[n];
      RunFrame(cfg, s, schedule[..n], batches, pair);
      RunCarries(cfg, s, schedule[..n], batches);
      if u < |before.threads| {
        ActIsLocal(cfg, before.threads[u], before.rows, before.rows);
        ActFrame(before, u, ActOf(cfg, before.threads[u], before.rows), pair);
      }
    }
  }

  lemma ActFrame(s: System, u: nat, act: Act, pair: Pair)
    requires u < |s.threads| && (act.event.Some? ==> PairIn(act.event.value) != pair)
    ensures SameRow(s.rows, After(s, u, act).rows, pair)
    ensures On(Attempts(After(s, u, act).log), pair) == On(Attempts(s.log), pair)
  {
    if act.event.Some? {
      OnAttemptsLogged(s.log, u, act.event.value, pair);
      assert On(Attempts(s.log), pair) + [] == On(Attempts(s.log), pair);
    }
  }

  // --- Counters -----------------------------------------------------------

  /** The counter that this tick increments. */
  function CounterFor(c: Counters, kind: Tick): nat
  {
    match kind
    case Quiet => 0
    case CountReceived => c.alertsReceived
    case CountMuteFailure => c.muteLookupFailure
    case CountReadFailure => c.historyLookupFailure
    case CountSent(ok) => if ok then c.notifySuccess else c.notifyFailure
    case CountWriteFailure => c.historyWriteFailure
  }

  lemma FieldTicked(c: Counters, tick: Tick, kind: Tick)
    requires kind != Quiet
    ensures CounterFor(Ticked(c, tick), kind) == CounterFor(c, kind) + One(tick == kind)
  {
  }

  lemma SameFields(c: Counters, d: Counters)
    requires forall kind :: kind != Quiet ==> CounterFor(c, kind) == CounterFor(d, kind)
    ensures c == d
  {
    assert CounterFor(c, CountReceived) == CounterFor(d, CountReceived);
    assert CounterFor(c, CountMuteFailure) == CounterFor(d, CountMuteFailure);
    assert CounterFor(c, CountReadFailure) == CounterFor(d, CountReadFailure);
    assert CounterFor(c, CountSent(true)) == CounterFor(d, CountSent(true));
    assert CounterFor(c, CountSent(false)) == CounterFor(d, CountSent(false));
    assert CounterFor(c, CountWriteFailure) == CounterFor(d, CountWriteFailure);
  }

  /** One when thread t's next step ticks like this. */
  function NextTick(cfg: Config, t: nat, kind: Tick): System -> nat
  {
    (s: System) => One(WellFormed(cfg, s) && t < |s.threads| && ActOf(cfg, s.threads[t], s.rows).tick == kind)
  }

  /** A measure of the states before thread t's steps, summed along the run. */
  function Along(cfg: Config, s: System, schedule: seq<nat>, t: nat, f: System -> nat): nat
    requires WellFormed(cfg, s)
    decreases |schedule|
  {
    if schedule == [] then 0
    else
      var before := schedule[..|schedule| - 1];
      Along(cfg, s, before, t, f) + (if schedule[|schedule| - 1] == t then f(Run(cfg, s, before)) else 0)
  }

  /** The measure after n steps of thread t alone. */
  function Measured(cfg: Config, s: System, t: nat, f: System -> nat): nat -> nat
  {
    (n: nat) => f(Alone(cfg, s, t, n))
  }

  function SumUpTo(g: nat -> nat, n: nat): nat
  {
    if n == 0 then 0 else SumUpTo(g, n - 1) + g(n - 1)
  }

  /** The sum over the first n threads, each with its own measure. */
  function AllAlong(cfg: Config, s: System, schedule: seq<nat>, n: nat, fs: nat -> System -> nat): nat
    requires WellFormed(cfg, s)
  {
    if n == 0 then 0 else AllAlong(cfg, s, schedule, n - 1, fs) + Along(cfg, s, schedule, n - 1, fs(n - 1))
  }

  function NextTicks(cfg: Config, kind: Tick): nat -> System -> nat
  {
    (t: nat) => NextTick(cfg, t, kind)
  }

  lemma {:induction false} NoneAlong(cfg: Config, s: System, n: nat, fs: nat -> System -> nat)
    requires WellFormed(cfg, s)
    ensures AllAlong(cfg, s, [], n, fs) == 0
  {
    if n > 0 {
      NoneAlong(cfg, s, n - 1, fs);
    }
  }

  lemma AlongStep(cfg: Config, s: System, before: seq<nat>, after: seq<nat>, u: nat, t: nat, f: System -> nat)
    requires WellFormed(cfg, s) && after == before + [u]
    ensures Along(cfg, s, after, t, f)
            == Along(cfg, s, before, t, f) + (if u == t then f(Run(cfg, s, before)) else 0)
    ensures Count(after, t) == Count(before, t) + (if u == t then 1 else 0)
  {
    assert after[..|after| - 1] == before;
  }

  lemma {:induction false} AllAlongStep(cfg: Config, s: System, before: seq<nat>, after: seq<nat>, u: nat, n: nat,
                                        fs: nat -> System -> nat)
    requires WellFormed(cfg, s) && after == before + [u]
    ensures AllAlong(cfg, s, after, n, fs)
         == AllAlong(cfg, s, before, n, fs) + (if u < n then fs(u)(Run(cfg, s, before)) else 0)
  {
    if n > 0 {
      AllAlongStep(cfg, s, before, after, u, n - 1, fs);
      AlongStep(cfg, s, before, after, u, n - 1, fs(n - 1));
    }
  }

  lemma StepTicks(cfg: Config, s: System, u: nat, kind: Tick)
    requires WellFormed(cfg, s) && kind != Quiet
    ensures CounterFor(Step(cfg, s, u).counters, kind)
         == CounterFor(s.counters, kind) + (if u < |s.threads| then NextTick(cfg, u, kind)(s) else 0)
  {
    if u < |s.threads| {
      FieldTicked(s.counters, ActOf(cfg, s.threads[u], s.rows).tick, kind);
    }
  }

  /** Each counter is the sum of what the threads have counted. */
  lemma {:induction false} CountersAreTicks(cfg: Config, s: System, schedule: seq<nat>, kind: Tick)
    requires WellFormed(cfg, s) && s.counters == NO_COUNTS && kind != Quiet
    ensures CounterFor(Run(cfg, s, schedule).counters, kind)
            == AllAlong(cfg, s, schedule, |s.threads|, NextTicks(cfg, kind))
    decreases |schedule|
  {
    if schedule == [] {
      NoneAlong(cfg, s, |s.threads|, NextTicks(cfg, kind));
    } else {
      var before, u := schedule[..|schedule| - 1], schedule[|schedule| - 1];
      assert before + [u] == schedule;
      CountersAreTicks(cfg, s, before, kind);
      AllAlongStep(cfg, s, before, schedule, u, |s.threads|, NextTicks(cfg, kind));
      StepTicks(cfg, Run(cfg, s, before), u, kind);
    }
  }

  /** The measure depends only on what thread t can tell. */
  ghost predicate IsLocal(cfg: Config, t: nat, f: System -> nat)
  {
    forall s, s' ::
      WellFormed(cfg, s) && WellFormed(cfg, s') && t < |s.threads| && t < |s'.threads| && Agree(cfg, s, s', t)
      ==> f(s) == f(s')
  }

  /** And it is nothing once the thread has stopped. */
  ghost predicate EndsWith(cfg: Config, t: nat, f: System -> nat)
  {
    forall s :: WellFormed(cfg, s) && t < |s.threads| && s.threads[t].pc.Stopped? ==> f(s) == 0
  }

  lemma NextTickIsLocal(cfg: Config, t: nat, kind: Tick)
    requires kind != Quiet
    ensures IsLocal(cfg, t, NextTick(cfg, t, kind)) && EndsWith(cfg, t, NextTick(cfg, t, kind))
  {
    var f := NextTick(cfg, t, kind);
    forall s, s' |
      WellFormed(cfg, s) && WellFormed(cfg, s') && t < |s.threads| && t < |s'.threads| && Agree(cfg, s, s', t)
      ensures f(s) == f(s')
    {
      ActIsLocal(cfg, s.threads[t], s.rows, s'.rows);
    }
  }

  lemma NextLooksAlone(cfg: Config, s: System, schedule: seq<nat>, t: nat, batches: seq<seq<Push>>, f: System -> nat)
    requires WellFormed(cfg, s) && Carries(s, batches) && Disjoint(cfg, batches) && t < |s.threads|
             && IsLocal(cfg, t, f)
    ensures f(Run(cfg, s, schedule)) == f(Alone(cfg, s, t, Count(schedule, t)))
  {
    LooksAlone(cfg, s, schedule, t, batches);
    AloneIsWellFormed(cfg, s, t, Count(schedule, t));
  }

  /** After any schedule the measure is what `g` says for thread t's steps. */
  ghost predicate Tracks(cfg: Config, s: System, t: nat, f: System -> nat, g: nat -> nat)
    requires WellFormed(cfg, s)
  {
    forall schedule :: f(Run(cfg, s, schedule)) == g(Count(schedule, t))
  }

  lemma {:induction false} SumsAgree(cfg: Config, s: System, schedule: seq<nat>, t: nat, f: System -> nat,
                                     g: nat -> nat)
    requires WellFormed(cfg, s) && Tracks(cfg, s, t, f, g)
    ensures Along(cfg, s, schedule, t, f) == SumUpTo(g, Count(schedule, t))
    decreases |schedule|
  {
    if schedule != [] {
      var before, u := schedule[..|schedule| - 1], schedule[|schedule| - 1];
      SumsAgree(cfg, s, before, t, f, g);
      AlongStep(cfg, s, before, schedule, u, t, f);
    }
  }

  lemma AlongLooksAlone(cfg: Config, s: System, schedule: seq<nat>, t: nat, batches: seq<seq<Push>>,
                        f: System -> nat)
    requires WellFormed(cfg, s) && Carries(s, batches) && Disjoint(cfg, batches) && t < |s.threads|
             && IsLocal(cfg, t, f)
    ensures Along(cfg, s, schedule, t, f) == SumUpTo(Measured(cfg, s, t, f), Count(schedule, t))
  {
    var g := Measured(cfg, s, t, f);
    forall schedule ensures f(Run(cfg, s, schedule)) == g(Count(schedule, t)) {
      NextLooksAlone(cfg, s, schedule, t, batches, f);
    }
    SumsAgree(cfg, s, schedule, t, f, g);
  }

  lemma {:induction false} SumStays(g: nat -> nat, m: nat, n: nat)
    requires m <= n && forall i :: m <= i < n ==> g(i) == 0
    ensures SumUpTo(g, n) == SumUpTo(g, m)
    decreases n
  {
    if m < n {
      SumStays(g, m, n - 1);
    }
  }

  lemma AlongAloneStays(cfg: Config, s: System, t: nat, m: nat, n: nat, f: System -> nat)
    requires m <= n && WellFormed(cfg, s) && t < |s.threads| && EndsWith(cfg, t, f)
    requires t < |Alone(cfg, s, t, m).threads| && Alone(cfg, s, t, m).threads[t].pc.Stopped?
    ensures SumUpTo(Measured(cfg, s, t, f), n) == SumUpTo(Measured(cfg, s, t, f), m)
  {
    var g := Measured(cfg, s, t, f);
    forall i | m <= i < n ensures g(i) == 0 {
      MoreStepsAlone(cfg, s, t, m, i);
      AloneIsWellFormed(cfg, s, t, i);
    }
    SumStays(g, m, n);
  }

  /** The sum is the same in every complete interleaving. */
  lemma SameAlong(cfg: Config, s: System, schedule: seq<nat>, schedule': seq<nat>, t: nat, batches: seq<seq<Push>>,
                  f: System -> nat)
    requires WellFormed(cfg, s) && Carries(s, batches) && Disjoint(cfg, batches) && t < |s.threads|
    requires IsLocal(cfg, t, f) && EndsWith(cfg, t, f)
    requires Complete(Run(cfg, s, schedule)) && Complete(Run(cfg, s, schedule'))
    ensures Along(cfg, s, schedule, t, f) == Along(cfg, s, schedule', t, f)
  {
    var m, n := Count(schedule, t), Count(schedule', t);
    LooksAlone(cfg, s, schedule, t, batches);
    LooksAlone(cfg, s, schedule', t, batches);
    AlongLooksAlone(cfg, s, schedule, t, batches, f);
    AlongLooksAlone(cfg, s, schedule', t, batches, f);
    if m <= n {
      AlongAloneStays(cfg, s, t, m, n, f);
    } else {
      AlongAloneStays(cfg, s, t, n, m, f);
    }
  }

  lemma SameTicks(cfg: Config, s: System, schedule: seq<nat>, schedule': seq<nat>, t: nat, batches: seq<seq<Push>>,
                  kind: Tick)
    requires WellFormed(cfg, s) && Carries(s, batches) && Disjoint(cfg, batches) && t < |s.threads| && kind != Quiet
    requires Complete(Run(cfg, s, schedule)) && Complete(Run(cfg, s, schedule'))
    ensures Along(cfg, s, schedule, t, NextTick(cfg, t, kind)) == Along(cfg, s, schedule', t, NextTick(cfg, t, kind))
  {
    NextTickIsLocal(cfg, t, kind);
    SameAlong(cfg, s, schedule, schedule', t, batches, NextTick(cfg, t, kind));
  }

  lemma {:induction false} SameAllAlong(cfg: Config, s: System, schedule: seq<nat>, schedule': seq<nat>, n: nat,
                                        fs: nat -> System -> nat)
    requires WellFormed(cfg, s)
    requires forall t: nat :: t < n ==> Along(cfg, s, schedule, t, fs(t)) == Along(cfg, s, schedule', t, fs(t))
    ensures AllAlong(cfg, s, schedule, n, fs) == AllAlong(cfg, s, schedule', n, fs)
  {
    if n > 0 {
      SameAllAlong(cfg, s, schedule, schedule', n - 1, fs);
    }
  }

  lemma SameCounters(cfg: Config, s: System, schedule: seq<nat>, schedule': seq<nat>, batches: seq<seq<Push>>)
    requires WellFormed(cfg, s) && Carries(s, batches) && Disjoint(cfg, batches) && s.counters == NO_COUNTS
    requires Complete(Run(cfg, s, schedule)) && Complete(Run(cfg, s, schedule'))
    ensures Run(cfg, s, schedule).counters == Run(cfg, s, schedule').counters
  {
    var c, d := Run(cfg, s, schedule).counters, Run(cfg, s, schedule').counters;
    forall kind | kind != Quiet ensures CounterFor(c, kind) == CounterFor(d, kind) {
      var fs := NextTicks(cfg, kind);
      forall t: nat | t < |s.threads|
        ensures Along(cfg, s, schedule, t, fs(t)) == Along(cfg, s, schedule', t, fs(t))
      {
        SameTicks(cfg, s, schedule, schedule', t, batches, kind);
      }
      SameAllAlong(cfg, s, schedule, schedule', |s.threads|, fs);
      CountersAreTicks(cfg, s, schedule, kind);
      CountersAreTicks(cfg, s, schedule', kind);
    }
    SameFields(c, d);
  }

  // --- A serial order is an interleaving ----------------------------------

  lemma {:induction false} RunConcat(cfg: Config, s: System, a: seq<nat>, b: seq<nat>)
    requires WellFormed(cfg, s)
    ensures Run(cfg, s, a + b) == Run(cfg, Run(cfg, s, a), b)
    decreases |b|
  {
    if b == [] {
      assert a + b == a;
    } else {
      var n := |b| - 1;
      assert (a + b)[..|a + b| - 1] == a + b[..n];
      RunConcat(cfg, s, a, b[..n]);
    }
  }

  function AnswerCode(result: Dispatch): nat
  {
    if result.failed then 500 else 200
  }

  /** The counters after the batches have been posted in this order. */
  function SerialCounters(cfg: Config, c: Counters, rows: Rows, batches: seq<seq<Push>>, order: seq<nat>): Counters
    requires forall i :: 0 <= i < |order| ==> order[i] < |batches|
    decreases |order|
  {
    if order == [] then c
    else
      var batch := batches[order[0]];
      SerialCounters(cfg, TallyPost(cfg, c, rows, batch), Posted(cfg, rows, batch).rows, batches, order[1..])
  }

  /** What the POST of batch t answers when its turn comes in this order. */
  function SerialAnswer(cfg: Config, rows: Rows, batches: seq<seq<Push>>, order: seq<nat>, t: nat): nat
    requires forall i :: 0 <= i < |order| ==> order[i] < |batches|
    requires t in order
    decreases |order|
  {
    var first := Posted(cfg, rows, batches[order[0]]);
    if order[0] == t then AnswerCode(first) else SerialAnswer(cfg, first.rows, batches, order[1..], t)
  }

  function Turn(t: nat, steps: nat): (r: seq<nat>)
    ensures Count(r, t) == steps && |r| == steps
  {
    if steps == 0 then []
    else
      var before := Turn(t, steps - 1);
      assert (before + [t])[..|before|] == before;
      before + [t]
  }

  lemma {:induction false} TurnRunsAlone(cfg: Config, s: System, t: nat, n: nat)
    requires WellFormed(cfg, s)
    ensures Run(cfg, s, Turn(t, n)) == Alone(cfg, s, t, n)
  {
    AloneIsWellFormed(cfg, s, t, n);
    if n > 0 {
      TurnRunsAlone(cfg, s, t, n - 1);
      assert Turn(t, n)[..n - 1] == Turn(t, n - 1);
    }
  }

  predicate Starting(s: System, batches: seq<seq<Push>>, t: nat)
    requires t < |batches|
  {
    t < |s.threads| && s.threads[t] == Thread(batches[t], 0, Next)
  }

  /** A handler takes its turn from start to answer, the others stand still. */
  lemma TurnPosts(cfg: Config, s: System, batches: seq<seq<Push>>, t: nat) returns (turn: seq<nat>)
    requires WellFormed(cfg, s) && t < |batches| && Starting(s, batches, t)
    ensures var end, result := Run(cfg, s, turn), Posted(cfg, s.rows, batches[t]);
            && end.rows == result.rows && end.counters == TallyPost(cfg, s.counters, s.rows, batches[t])
            && end.threads == s.threads[t := end.threads[t]] && end.threads[t].pc == Stopped(AnswerCode(result))
  {
    var th := s.threads[t];
    BatchRuns(cfg, s, t);
    assert th.batch[0..] == th.batch;
    var end :|
      && Reaches(cfg, s, t, end)
      && end.rows == Posted(cfg, s.rows, th.batch[0..]).rows
      && Attempts(end.log) == Attempts(s.log) + Posted(cfg, s.rows, th.batch[0..]).log
      && end.counters == TallyPost(cfg, s.counters, s.rows, th.batch[0..])
      && end.threads == s.threads[t := BatchEnd(cfg, s.rows, th)];
    var n: nat :| Alone(cfg, s, t, n) == end;
    turn := Turn(t, n);
    TurnRunsAlone(cfg, s, t, n);
  }

  /** The schedule runs the handlers of the order one after another. */
  ghost predicate RunsSerially(cfg: Config, s: System, batches: seq<seq<Push>>, order: seq<nat>, schedule: seq<nat>)
    requires WellFormed(cfg, s) && forall i :: 0 <= i < |order| ==> order[i] < |batches|
  {
    var end := Run(cfg, s, schedule);
    && end.counters == SerialCounters(cfg, s.counters, s.rows, batches, order)
    && (forall t: nat :: t < |s.threads| && t in order ==>
          end.threads[t].pc == Stopped(SerialAnswer(cfg, s.rows, batches, order, t)))
    && (forall t: nat :: t < |s.threads| && t !in order ==> end.threads[t] == s.threads[t])
  }

  lemma SerialStep(cfg: Config, s: System, batches: seq<seq<Push>>, order: seq<nat>, turn: seq<nat>, rest: seq<nat>)
    requires WellFormed(cfg, s) && order != [] && order[0] !in order[1..]
    requires forall i :: 0 <= i < |order| ==> order[i] < |batches|
    requires order[0] < |s.threads|
    requires var end, result := Run(cfg, s, turn), Posted(cfg, s.rows, batches[order[0]]);
             && end.rows == result.rows && end.counters == TallyPost(cfg, s.counters, s.rows, batches[order[0]])
             && end.threads == s.threads[order[0] := end.threads[order[0]]]
             && end.threads[order[0]].pc == Stopped(AnswerCode(result))
    requires RunsSerially(cfg, Run(cfg, s, turn), batches, order[1..], rest)
    ensures RunsSerially(cfg, s, batches, order, turn + rest)
  {
    RunConcat(cfg, s, turn, rest);
  }

  lemma {:induction false} SerialRuns(cfg: Config, s: System, batches: seq<seq<Push>>, order: seq<nat>)
    returns (schedule: seq<nat>)
    requires WellFormed(cfg, s)
    requires forall i :: 0 <= i < |order| ==> order[i] < |batches| && Starting(s, batches, order[i])
    requires forall i, j :: 0 <= i < j < |order| ==> order[i] != order[j]
    ensures RunsSerially(cfg, s, batches, order, schedule)
    decreases |order|
  {
    schedule := [];
    if order != [] {
      var turn := TurnPosts(cfg, s, batches, order[0]);
      var rest := SerialRuns(cfg, Run(cfg, s, turn), batches, order[1..]);
      SerialStep(cfg, s, batches, order, turn, rest);
      schedule := turn + rest;
    }
  }

  /** Every complete interleaving has the counters of every serial order. */
  lemma CountersSerialize(cfg: Config, rows: Rows, batches: seq<seq<Push>>, schedule: seq<nat>, order: seq<nat>)
    requires Disjoint(cfg, batches) && IsOrder(order, |batches|)
    requires Complete(Run(cfg, Start(cfg, rows, batches), schedule))
    ensures Run(cfg, Start(cfg, rows, batches), schedule).counters
            == SerialCounters(cfg, NO_COUNTS, rows, batches, order)
  {
    var start := Start(cfg, rows, batches);
    var serial := SerialRuns(cfg, start, batches, order);
    assert Complete(Run(cfg, start, serial));
    SameCounters(cfg, start, schedule, serial, batches);
  }

  lemma {:induction false} PostFailureIgnoresRows(cfg: Config, rows: Rows, rows': Rows, batch: seq<Push>)
    ensures Posted(cfg, rows, batch).failed == Posted(cfg, rows', batch).failed
    decreases |batch|
  {
    if batch != [] {
      FailureIgnoresRows(cfg, rows, rows', batch[0]);
      PostFailureIgnoresRows(cfg, Processed(cfg, rows, batch[0]).rows, Processed(cfg, rows', batch[0]).rows,
                             batch[1..]);
    }
  }

  /** A POST answers the same at its turn in any order as at the start. */
  lemma {:induction false} AnswerIgnoresOrder(cfg: Config, rows: Rows, rows0: Rows, batches: seq<seq<Push>>,
                                              order: seq<nat>, t: nat)
    requires forall i :: 0 <= i < |order| ==> order[i] < |batches|
    requires t in order
    ensures SerialAnswer(cfg, rows, batches, order, t) == AnswerCode(Posted(cfg, rows0, batches[t]))
    decreases |order|
  {
    var first := Posted(cfg, rows, batches[order[0]]);
    if order[0] == t {
      PostFailureIgnoresRows(cfg, rows, rows0, batches[t]);
    } else {
      AnswerIgnoresOrder(cfg, first.rows, rows0, batches, order[1..], t);
    }
  }

  // --- Serializability ----------------------------------------------------

  /** Serializability. If the fingerprints in flight in different handlers are
      distinct, then for any number of handlers, any complete interleaving and
      any faults, the final notifications table, every pair's attempt log, the
      counters and the answers are those of every serial order of the POSTs. */
  lemma Serializability(cfg: Config, rows: Rows, batches: seq<seq<Push>>, schedule: seq<nat>, order: seq<nat>)
    requires Disjoint(cfg, batches) && IsOrder(order, |batches|)
    requires Complete(Run(cfg, Start(cfg, rows, batches), schedule))
    ensures var s, serial := Run(cfg, Start(cfg, rows, batches), schedule), Serial(cfg, rows, batches, order);
            && s.rows == serial.rows
            && (forall pair :: On(Attempts(s.log), pair) == On(serial.log, pair))
            && s.counters == SerialCounters(cfg, NO_COUNTS, rows, batches, order)
            && (forall t: nat :: t < |batches| ==>
                  s.threads[t].pc == Stopped(SerialAnswer(cfg, rows, batches, order, t)))
  {
    var s, serial := Run(cfg, Start(cfg, rows, batches), schedule), Serial(cfg, rows, batches, order);
    forall pair: Pair ensures SameRow(s.rows, serial.rows, pair) && On(Attempts(s.log), pair) == On(serial.log, pair) {
      if t: nat :| t < |batches| && pair.fingerprint in Fingerprints(cfg, batches[t]) {
        CompleteLooksAlone(cfg, rows, batches, schedule, t, pair);
        SerialLooksAlone(cfg, rows, batches, order, t, pair);
      } else {
        RunFrame(cfg, Start(cfg, rows, batches), schedule, batches, pair);
        SerialFrame(cfg, rows, batches, order, pair);
      }
    }
    SameEverywhere(s.rows, serial.rows);
    CountersSerialize(cfg, rows, batches, schedule, order);
    forall t: nat | t < |batches|
      ensures s.threads[t].pc == Stopped(SerialAnswer(cfg, rows, batches, order, t))
    {
      var _ := CompleteAgreesWithAlone(cfg, Start(cfg, rows, batches), batches, schedule, t);
      AnswerIgnoresOrder(cfg, rows, rows, batches, order, t);
    }
  }

  lemma SameEverywhere(rows: Rows, rows': Rows)
    requires forall pair :: SameRow(rows, rows', pair)
    ensures rows == rows'
  {
    forall pair | pair in rows || pair in rows' ensures pair in rows && pair in rows' && rows[pair] == rows'[pair] {
      assert SameRow(rows, rows', pair);
    }
    assert rows.Keys == rows'.Keys;
  }

  // --- Webhook calls are attempts -----------------------------------------

  predicate IsHookOn(event: Option<Event>, pair: Pair)
  {
    event.Some? && event.value.Hook? && event.value.pair == pair
  }

  /** The webhook calls made for the pair. */
  function HooksOn(log: seq<Entry>, pair: Pair): nat
  {
    if log == [] then 0
    else HooksOn(log[..|log| - 1], pair) + One(IsHookOn(Some(log[|log| - 1].event), pair))
  }

  lemma HooksOnLogged(log: seq<Entry>, t: nat, event: Option<Event>, pair: Pair)
    ensures HooksOn(Logged(log, t, event), pair) == HooksOn(log, pair) + One(IsHookOn(event, pair))
  {
    if event.Some? {
      assert Logged(log, t, event)[..|log|] == log;
    }
  }

  predicate IsWriteOn(event: Option<Event>, pair: Pair)
  {
    event.Some? && event.value.Write? && event.value.attempt.pair == pair
  }

  /** One between a webhook call on the pair and its history write. */
  function Unwritten(cfg: Config, pair: Pair): Thread -> nat
  {
    (th: Thread) =>
      One((th.pc.Notified? || th.pc.Recording?) && th.k < |th.batch| && th.pc.i < |Decided(cfg, th.batch[th.k])|
          && PairOf(cfg, Decided(cfg, th.batch[th.k])[th.pc.i], th.batch[th.k]) == pair)
  }

  lemma CallFlows(cfg: Config, th: Thread, rows: Rows, pair: Pair)
    requires WellFormedThread(cfg, th)
    ensures var act := ActOf(cfg, th, rows);
            One(IsHookOn(act.event, pair)) + Unwritten(cfg, pair)(th)
            == Unwritten(cfg, pair)(act.thread) + One(IsWriteOn(act.event, pair))
  {
  }

  lemma OnAttemptsCounted(log: seq<Entry>, t: nat, event: Option<Event>, pair: Pair)
    ensures |On(Attempts(Logged(log, t, event)), pair)| == |On(Attempts(log), pair)| + One(IsWriteOn(event, pair))
  {
    if event.Some? {
      OnAttemptsLogged(log, t, event.value, pair);
    }
  }

  /** In every reachable state each webhook call on a pair has its attempt in
      the log, or its thread is still between the two. */
  lemma {:induction false} CallsAreAttempts(cfg: Config, s: System, schedule: seq<nat>, pair: Pair)
    requires WellFormed(cfg, s)
    requires HooksOn(s.log, pair) == |On(Attempts(s.log), pair)| + Sum(s.threads, Unwritten(cfg, pair))
    ensures var s' := Run(cfg, s, schedule);
            HooksOn(s'.log, pair) == |On(Attempts(s'.log), pair)| + Sum(s'.threads, Unwritten(cfg, pair))
    decreases |schedule|
  {
    if schedule != [] {
      var before, t := Run(cfg, s, schedule[..|schedule| - 1]), schedule[|schedule| - 1];
      CallsAreAttempts(cfg, s, schedule[..|schedule| - 1], pair);
      if t < |before.threads| {
        var act := ActOf(cfg, before.threads[t], before.rows);
        CallFlows(cfg, before.threads[t], before.rows, pair);
        SumUpdate(before.threads, t, act.thread, Unwritten(cfg, pair));
        HooksOnLogged(before.log, t, act.event, pair);
        OnAttemptsCounted(before.log, t, act.event, pair);
      }
    }
  }

  /** Once all have answered, webhook calls and attempts are one and the same. */
  lemma CompleteCallsAreAttempts(cfg: Config, rows: Rows, batches: seq<seq<Push>>, schedule: seq<nat>, pair: Pair)
    requires Complete(Run(cfg, Start(cfg, rows, batches), schedule))
    ensures var s := Run(cfg, Start(cfg, rows, batches), schedule); HooksOn(s.log, pair) == |On(Attempts(s.log), pair)|
  {
    var start := Start(cfg, rows, batches);
    SumOfNone(start.threads, Unwritten(cfg, pair));
    CallsAreAttempts(cfg, start, schedule, pair);
    SumOfNone(Run(cfg, start, schedule).threads, Unwritten(cfg, pair));
  }

  // --- Exactly once -------------------------------------------------------

  /** An unmuted alert of the batch is routed to the pair's rule. */
  ghost predicate Wants(cfg: Config, batch: seq<Push>, pair: Pair)
  {
    exists i, rule :: 0 <= i < |batch| && batch[i].mute == Clear && rule in Decided(cfg, batch[i])
                      && PairOf(cfg, rule, batch[i]) == pair
  }

  ghost predicate WantsNow(cfg: Config, push: Push, pair: Pair)
  {
    push.mute == Clear && exists rule :: rule in Decided(cfg, push) && PairOf(cfg, rule, push) == pair
  }

  lemma WantsNowOrLater(cfg: Config, batch: seq<Push>, pair: Pair)
    requires batch != []
    ensures Wants(cfg, batch, pair) <==> WantsNow(cfg, batch[0], pair) || Wants(cfg, batch[1..], pair)
  {
    if WantsNow(cfg, batch[0], pair) {
      var rule :| rule in Decided(cfg, batch[0]) && PairOf(cfg, rule, batch[0]) == pair;
    }
    if Wants(cfg, batch[1..], pair) {
      var i, rule :| 0 <= i < |batch[1..]| && batch[1..][i].mute == Clear && rule in Decided(cfg, batch[1..][i])
                     && PairOf(cfg, rule, batch[1..][i]) == pair;
      assert batch[i + 1] == batch[1..][i];
    }
    if Wants(cfg, batch, pair) {
      var i, rule :| 0 <= i < |batch| && batch[i].mute == Clear && rule in Decided(cfg, batch[i])
                     && PairOf(cfg, rule, batch[i]) == pair;
      assert i > 0 ==> batch[1..][i - 1] == batch[i];
    }
  }

  /** The attempts deliver `desired` this often, and no failure is among them. */
  ghost predicate DeliversTimes(attempts: seq<Attempt>, desired: Status, times: nat)
  {
    |attempts| == times && forall a :: a in attempts ==> a.ok && a.recorded && a.desired == desired
  }

  lemma OncePerPush(cfg: Config, rows: Rows, push: Push, pair: Pair, desired: Status)
    requires ChainValid(cfg.rules, cfg.receivers) && Faultless(push)
    requires Fingerprint(cfg, push) == pair.fingerprint ==> push.Desired() == desired
    requires pair in rows ==> rows[pair].status == desired
    ensures var result, wanted := Processed(cfg, rows, push), WantsNow(cfg, push, pair);
            && !result.failed
            && DeliversTimes(On(result.log, pair), desired, One(pair !in rows && wanted))
            && (pair in result.rows <==> pair in rows || wanted)
            && (pair in result.rows ==> result.rows[pair].status == desired)
  {
    if push.mute == Clear {
      var decisions, result := Decided(cfg, push), Processed(cfg, rows, push);
      FanOutIndependence(cfg, rows, push);
      FaultlessReaches(cfg, decisions, push, 0);
      if WantsNow(cfg, push, pair) {
        var rule :| rule in decisions && PairOf(cfg, rule, push) == pair;
        var j: nat :| j < |decisions| && decisions[j] == rule;
        assert OwnEffect(cfg, rows, decisions, push, j, result);
      } else {
        assert forall j: nat :: j < |decisions| ==> decisions[j] in decisions;
        assert Untouched(rows, pair, result);
      }
    }
  }

  lemma {:induction false} OncePerBatch(cfg: Config, rows: Rows, batch: seq<Push>, pair: Pair, desired: Status)
    requires ChainValid(cfg.rules, cfg.receivers) && AllFaultless(batch)
    requires forall i :: 0 <= i < |batch| && Fingerprint(cfg, batch[i]) == pair.fingerprint ==>
               batch[i].Desired() == desired
    requires pair in rows ==> rows[pair].status == desired
    ensures DeliversTimes(On(Posted(cfg, rows, batch).log, pair), desired,
                          One(pair !in rows && Wants(cfg, batch, pair)))
    decreases |batch|
  {
    if batch != [] {
      var first := Processed(cfg, rows, batch[0]);
      WantsNowOrLater(cfg, batch, pair);
      OncePerPush(cfg, rows, batch[0], pair, desired);
      OncePerBatch(cfg, first.rows, batch[1..], pair, desired);
      OnConcat(first.log, Posted(cfg, first.rows, batch[1..]).log, pair);
    }
  }

  /** Some handler wants the pair. */
  ghost predicate Wanted(cfg: Config, batches: seq<seq<Push>>, pair: Pair)
  {
    exists t :: 0 <= t < |batches| && Wants(cfg, batches[t], pair)
  }

  lemma OnlyOwnerWants(cfg: Config, batches: seq<seq<Push>>, t: nat, pair: Pair)
    requires Disjoint(cfg, batches) && t < |batches| && pair.fingerprint in Fingerprints(cfg, batches[t])
    ensures Wanted(cfg, batches, pair) <==> Wants(cfg, batches[t], pair)
  {
    forall u | 0 <= u < |batches| && Wants(cfg, batches[u], pair) ensures u == t {
      WantsItsOwn(cfg, batches[u], pair);
    }
  }

  lemma NobodyWants(cfg: Config, batches: seq<seq<Push>>, pair: Pair)
    requires forall t :: 0 <= t < |batches| ==> pair.fingerprint !in Fingerprints(cfg, batches[t])
    ensures !Wanted(cfg, batches, pair)
  {
    forall t | 0 <= t < |batches| ensures !Wants(cfg, batches[t], pair) {
      if Wants(cfg, batches[t], pair) {
        WantsItsOwn(cfg, batches[t], pair);
      }
    }
  }

  /** Exactly once. Handlers with distinct fingerprints, an empty table and
      no faults: under every complete interleaving each pair some handler
      wants has its webhook called and its attempt recorded exactly once, and
      no other pair at all. No batch may carry one alert both
      firing and resolved. */
  lemma ExactlyOnce(cfg: Config, batches: seq<seq<Push>>, schedule: seq<nat>, pair: Pair)
    requires ChainValid(cfg.rules, cfg.receivers) && Disjoint(cfg, batches)
    requires forall t :: 0 <= t < |batches| ==> AllFaultless(batches[t]) && Unmixed(cfg, batches[t])
    requires Complete(Run(cfg, Start(cfg, map[], batches), schedule))
    ensures var s := Run(cfg, Start(cfg, map[], batches), schedule);
            var attempts := On(Attempts(s.log), pair);
            && HooksOn(s.log, pair) == |attempts| == One(Wanted(cfg, batches, pair))
            && forall a :: a in attempts ==> a.ok && a.recorded
  {
    CompleteCallsAreAttempts(cfg, map[], batches, schedule, pair);
    if t: nat :| t < |batches| && pair.fingerprint in Fingerprints(cfg, batches[t]) {
      var i :| 0 <= i < |batches[t]| && pair.fingerprint == Fingerprint(cfg, batches[t][i]);
      CompleteLooksAlone(cfg, map[], batches, schedule, t, pair);
      OncePerBatch(cfg, map[], batches[t], pair, batches[t][i].Desired());
      OnlyOwnerWants(cfg, batches, t, pair);
    } else {
      RunFrame(cfg, Start(cfg, map[], batches), schedule, batches, pair);
      NobodyWants(cfg, batches, pair);
    }
  }

  lemma WantsItsOwn(cfg: Config, batch: seq<Push>, pair: Pair)
    requires Wants(cfg, batch, pair)
    ensures pair.fingerprint in Fingerprints(cfg, batch)
  {
  }
}
