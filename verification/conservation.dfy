/** Counter conservation: in every reachable state of the concurrent handlers
    the counters balance with the log and the threads in flight. */
module Conservation {
  import opened Common
  import opened Delivery
  import opened Handlers

  // --- Counter conservation -----------------------------------------------

  function Sum(threads: seq<Thread>, f: Thread -> nat): nat
  {
    if threads == [] then 0 else f(threads[0]) + Sum(threads[1..], f)
  }

  lemma {:induction false} SumUpdate(threads: seq<Thread>, t: nat, th: Thread, f: Thread -> nat)
    requires t < |threads|
    ensures Sum(threads[t := th], f) + f(threads[t]) == Sum(threads, f) + f(th)
  {
    if t == 0 {
      assert threads[t := th][1..] == threads[1..];
    } else {
      SumUpdate(threads[1..], t - 1, th, f);
      assert threads[t := th][1..] == threads[1..][t - 1 := th];
    }
  }

  lemma {:induction false} SumOfNone(threads: seq<Thread>, f: Thread -> nat)
    requires forall th :: th in threads ==> f(th) == 0
    ensures Sum(threads, f) == 0
  {
    if threads != [] {
      assert threads[0] in threads;
      SumOfNone(threads[1..], f);
    }
  }

  /** Alerts of the batch whose Process returned nil. */
  function ReturnedNil(th: Thread): nat { th.k }

  /** One while an alert is counted and its Process has neither returned nil
      nor had its lookup failure counted. */
  function InFlight(th: Thread): nat { if th.pc.Next? || th.pc.Stopped? then 0 else 1 }

  /** One between a webhook call that answered so and the count of it. */
  function AwaitingCount(ok: bool): Thread -> nat
  {
    (th: Thread) =>
      One(th.pc.Notified? && th.k < |th.batch| && th.batch[th.k].At(th.pc.i).hookOk == ok)
  }

  /** One between that count and the history write. */
  function AwaitingWrite(th: Thread): nat { if th.pc.Recording? then 1 else 0 }

  /** One between a failed write and its count. */
  function AwaitingFailureCount(th: Thread): nat { if th.pc.WriteFailed? then 1 else 0 }

  /** The webhook calls that answered so. */
  function Hooks(log: seq<Entry>, ok: bool): nat
  {
    if log == [] then 0
    else
      var event := log[|log| - 1].event;
      Hooks(log[..|log| - 1], ok) + (if event.Hook? && event.ok == ok then 1 else 0)
  }

  function Writes(log: seq<Entry>, recorded: bool): nat
  {
    if log == [] then 0
    else
      var event := log[|log| - 1].event;
      Writes(log[..|log| - 1], recorded) + (if event.Write? && event.attempt.recorded == recorded then 1 else 0)
  }

  ghost predicate AlertsBalanced(s: System)
  {
    s.counters.alertsReceived
    == Sum(s.threads, ReturnedNil) + s.counters.muteLookupFailure + s.counters.historyLookupFailure
       + Sum(s.threads, InFlight)
  }

  ghost predicate HooksBalanced(s: System, ok: bool)
  {
    Hooks(s.log, ok) == (if ok then s.counters.notifySuccess else s.counters.notifyFailure)
                        + Sum(s.threads, AwaitingCount(ok))
  }

  ghost predicate WritesBalanced(s: System)
  {
    s.counters.notifySuccess + s.counters.notifyFailure
    == Writes(s.log, true) + Writes(s.log, false) + Sum(s.threads, AwaitingWrite)
  }

  ghost predicate LostWritesBalanced(s: System)
  {
    Writes(s.log, false) == s.counters.historyWriteFailure + Sum(s.threads, AwaitingFailureCount)
  }

  ghost predicate Balanced(s: System)
  {
    && AlertsBalanced(s) && WritesBalanced(s) && LostWritesBalanced(s)
    && HooksBalanced(s, true) && HooksBalanced(s, false)
  }

  function One(b: bool): nat { if b then 1 else 0 }

  /** A step moves a token along; what enters a stage either stays there or
      leaves it through the counter or event that ends the stage. */
  ghost predicate Flows(th: Thread, act: Act)
  {
    var sent, event := act.tick.CountSent?, act.event;
    && One(act.tick.CountReceived?) + ReturnedNil(th) + InFlight(th)
       == ReturnedNil(act.thread) + InFlight(act.thread) + One(act.tick.CountMuteFailure? || act.tick.CountReadFailure?)
    && HooksFlow(th, act, true) && HooksFlow(th, act, false)
    && One(sent) + AwaitingWrite(th) == AwaitingWrite(act.thread) + One(event.Some? && event.value.Write?)
    && One(event.Some? && event.value.Write? && !event.value.attempt.recorded) + AwaitingFailureCount(th)
       == AwaitingFailureCount(act.thread) + One(act.tick.CountWriteFailure?)
  }

  ghost predicate HooksFlow(th: Thread, act: Act, ok: bool)
  {
    One(act.event.Some? && act.event.value.Hook? && act.event.value.ok == ok) + AwaitingCount(ok)(th)
    == AwaitingCount(ok)(act.thread) + One(act.tick == CountSent(ok))
  }

  lemma ReadingFlows(cfg: Config, th: Thread, rows: Rows)
    requires WellFormedThread(cfg, th) && th.pc.Reading?
    ensures Flows(th, ActOf(cfg, th, rows))
  {
  }

  lemma OthersFlow(cfg: Config, th: Thread, rows: Rows)
    requires WellFormedThread(cfg, th) && !th.pc.Reading?
    ensures Flows(th, ActOf(cfg, th, rows))
  {
  }

  lemma ActFlows(cfg: Config, th: Thread, rows: Rows)
    requires WellFormedThread(cfg, th)
    ensures Flows(th, ActOf(cfg, th, rows))
  {
    if th.pc.Reading? {
      ReadingFlows(cfg, th, rows);
    } else {
      OthersFlow(cfg, th, rows);
    }
  }

  lemma FlowBalancesAlerts(s: System, t: nat, act: Act)
    requires t < |s.threads| && AlertsBalanced(s) && Flows(s.threads[t], act)
    ensures AlertsBalanced(After(s, t, act))
  {
    SumUpdate(s.threads, t, act.thread, ReturnedNil);
    SumUpdate(s.threads, t, act.thread, InFlight);
  }

  lemma LoggedCounts(log: seq<Entry>, t: nat, event: Option<Event>, b: bool)
    ensures Hooks(Logged(log, t, event), b)
         == Hooks(log, b) + One(event.Some? && event.value.Hook? && event.value.ok == b)
    ensures Writes(Logged(log, t, event), b)
         == Writes(log, b) + One(event.Some? && event.value.Write? && event.value.attempt.recorded == b)
  {
    if event.Some? {
      assert Logged(log, t, event)[..|log|] == log;
    }
  }

  lemma FlowBalancesHooks(s: System, t: nat, act: Act, ok: bool)
    requires t < |s.threads| && HooksBalanced(s, ok) && HooksFlow(s.threads[t], act, ok)
    ensures HooksBalanced(After(s, t, act), ok)
  {
    LoggedCounts(s.log, t, act.event, ok);
    SumUpdate(s.threads, t, act.thread, AwaitingCount(ok));
  }

  lemma FlowBalancesWrites(s: System, t: nat, act: Act)
    requires t < |s.threads| && WritesBalanced(s) && Flows(s.threads[t], act)
    ensures WritesBalanced(After(s, t, act))
  {
    LoggedCounts(s.log, t, act.event, true);
    LoggedCounts(s.log, t, act.event, false);
    SumUpdate(s.threads, t, act.thread, AwaitingWrite);
  }

  lemma FlowBalancesLostWrites(s: System, t: nat, act: Act)
    requires t < |s.threads| && LostWritesBalanced(s) && Flows(s.threads[t], act)
    ensures LostWritesBalanced(After(s, t, act))
  {
    LoggedCounts(s.log, t, act.event, false);
    SumUpdate(s.threads, t, act.thread, AwaitingFailureCount);
  }

  lemma StepBalances(cfg: Config, s: System, t: nat)
    requires WellFormed(cfg, s) && Balanced(s) && t < |s.threads|
    ensures Balanced(Step(cfg, s, t))
  {
    var act := ActOf(cfg, s.threads[t], s.rows);
    ActFlows(cfg, s.threads[t], s.rows);
    FlowBalancesAlerts(s, t, act);
    FlowBalancesHooks(s, t, act, true);
    FlowBalancesHooks(s, t, act, false);
    FlowBalancesWrites(s, t, act);
    FlowBalancesLostWrites(s, t, act);
  }

  lemma {:induction false} RunBalances(cfg: Config, s: System, schedule: seq<nat>)
    requires WellFormed(cfg, s) && Balanced(s)
    ensures Balanced(Run(cfg, s, schedule))
    decreases |schedule|
  {
    if schedule != [] {
      RunBalances(cfg, s, schedule[..|schedule| - 1]);
      if schedule[|schedule| - 1] < |s.threads| {
        StepBalances(cfg, Run(cfg, s, schedule[..|schedule| - 1]), schedule[|schedule| - 1]);
      }
    }
  }

  /** Counter conservation in every reachable state: each notify counter
      counts the webhook calls that answered so; together they account for the
      successful writes, the counted lost ones, and the threads between notify
      and the end of recording; the alerts received for the nil returns, the
      counted lookup failures, and those unfinished. */
  lemma CounterConservation(cfg: Config, rows: Rows, batches: seq<seq<Push>>, schedule: seq<nat>)
    ensures var s := Run(cfg, Start(cfg, rows, batches), schedule);
            var c := s.counters;
            && c.notifySuccess + c.notifyFailure
               == Writes(s.log, true) + c.historyWriteFailure
                  + Sum(s.threads, AwaitingWrite) + Sum(s.threads, AwaitingFailureCount)
            && Hooks(s.log, true) == c.notifySuccess + Sum(s.threads, AwaitingCount(true))
            && Hooks(s.log, false) == c.notifyFailure + Sum(s.threads, AwaitingCount(false))
            && c.alertsReceived == Sum(s.threads, ReturnedNil) + c.muteLookupFailure + c.historyLookupFailure
                                   + Sum(s.threads, InFlight)
  {
    var s := Start(cfg, rows, batches);
    SumOfNone(s.threads, ReturnedNil);
    SumOfNone(s.threads, InFlight);
    SumOfNone(s.threads, AwaitingCount(true));
    SumOfNone(s.threads, AwaitingCount(false));
    SumOfNone(s.threads, AwaitingWrite);
    SumOfNone(s.threads, AwaitingFailureCount);
    RunBalances(cfg, s, schedule);
  }
}
