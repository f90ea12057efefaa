/** Concurrent request handlers: any number of threads, each working through
    its own batch, interleaved at every SQL statement, webhook and counter
    increment. A thread's pushes carry the answers the world gives it, so a
    run is determined by the schedule; theorems quantify over both. */
module Handlers {
  import opened Common
  import opened Delivery
  import opened Metric

  // --- States -------------------------------------------------------------

  /** Where a handler stands. Each value names the next thing it will do. */
  datatype Pc =
    | Next                  // take the next alert of the batch, if any
    | MuteRead
    | MuteFailed            // the mute read failed; count it and answer 500
    | Reading(i: nat)       // LastAttempt for decision i, or return nil
    | ReadFailed            // the history read failed; count it and answer 500
    | Notifying(i: nat)     // the webhook for decision i
    | Notified(i: nat)      // the webhook answered; count the outcome
    | Recording(i: nat)     // RecordAttempt for decision i
    | WriteFailed(i: nat)   // the write failed; count it
    | Stopped(code: nat)

  /** `k` alerts of the batch have been processed without error. */
  datatype Thread = Thread(batch: seq<Push>, k: nat, pc: Pc)

  /** What other threads and receivers can observe, in the order it happens. */
  datatype Event =
    | Read(pair: Pair, found: Option<Status>)
    | Hook(pair: Pair, payload: Payload, desired: Status, ok: bool)
    | Write(attempt: Attempt, at: Time)

  datatype Entry = Entry(thread: nat, event: Event)

  datatype System = System(rows: Rows, log: seq<Entry>, counters: Counters, threads: seq<Thread>)

  // --- Steps --------------------------------------------------------------

  predicate WellFormedThread(cfg: Config, th: Thread)
  {
    && (th.pc.Next? ==> th.k <= |th.batch|)
    && (!th.pc.Next? && !th.pc.Stopped? ==> th.k < |th.batch|)
    && (th.pc.Notifying? || th.pc.Notified? || th.pc.Recording? || th.pc.WriteFailed? ==>
          th.pc.i < |Decided(cfg, th.batch[th.k])| && Decided(cfg, th.batch[th.k])[th.pc.i].receiver in cfg.receivers)
  }

  function StatusIn(rows: Rows, pair: Pair): Option<Status>
  {
    if pair in rows then Some(rows[pair].status) else None
  }

  /** The attempt the thread is at, at decision i of its current alert. */
  function CurrentAttempt(cfg: Config, th: Thread, i: nat): Attempt
    requires th.k < |th.batch| && i < |Decided(cfg, th.batch[th.k])|
    requires Decided(cfg, th.batch[th.k])[i].receiver in cfg.receivers
  {
    AttemptFor(cfg, Decided(cfg, th.batch[th.k])[i], th.batch[th.k], i)
  }

  function HookOf(attempt: Attempt): Event
  {
    Hook(attempt.pair, attempt.payload, attempt.desired, attempt.ok)
  }

  datatype Tick = Quiet | CountReceived | CountMuteFailure | CountReadFailure | CountSent(ok: bool) | CountWriteFailure

  /** What one step of a thread does: its next state, the event it performs if
      any, and the counter it increments if any. */
  datatype Act = Act(thread: Thread, event: Option<Event>, tick: Tick)

  /** The step of a thread, given the rows it may read. */
  function ActOf(cfg: Config, th: Thread, rows: Rows): (act: Act)
    requires WellFormedThread(cfg, th)
    ensures WellFormedThread(cfg, act.thread)
  {
    match th.pc
    case Next =>
      if th.k < |th.batch| then Act(th.(pc := MuteRead), None, CountReceived)
      else Act(th.(pc := Stopped(200)), None, Quiet)
    case MuteRead =>
      (match th.batch[th.k].mute
       case Unreadable => Act(th.(pc := MuteFailed), None, Quiet)
       case Muted => Act(th.(k := th.k + 1, pc := Next), None, Quiet)
       case Clear => Act(th.(pc := Reading(0)), None, Quiet))
    case MuteFailed => Act(th.(pc := Stopped(500)), None, CountMuteFailure)
    case Reading(i) =>
      var push := th.batch[th.k];
      var decisions := Decided(cfg, push);
      if i >= |decisions| then Act(th.(k := th.k + 1, pc := Next), None, Quiet)
      else if decisions[i].receiver !in cfg.receivers then Act(th.(pc := Reading(i + 1)), None, Quiet)
      else if !push.At(i).readOk then Act(th.(pc := ReadFailed), None, Quiet)
      else
        var pair := PairOf(cfg, decisions[i], push);
        var read := Some(Read(pair, StatusIn(rows, pair)));
        if Settled(rows, pair, push.Desired()) then Act(th.(pc := Reading(i + 1)), read, Quiet)
        else Act(th.(pc := Notifying(i)), read, Quiet)
    case ReadFailed => Act(th.(pc := Stopped(500)), None, CountReadFailure)
    case Notifying(i) => Act(th.(pc := Notified(i)), Some(HookOf(CurrentAttempt(cfg, th, i))), Quiet)
    case Notified(i) => Act(th.(pc := Recording(i)), None, CountSent(CurrentAttempt(cfg, th, i).ok))
    case Recording(i) =>
      var attempt := CurrentAttempt(cfg, th, i);
      Act(th.(pc := if attempt.recorded then Reading(i + 1) else WriteFailed(i)),
          Some(Write(attempt, th.batch[th.k].now)), Quiet)
    case WriteFailed(i) => Act(th.(pc := Reading(i + 1)), None, CountWriteFailure)
    case Stopped(_) => Act(th, None, Quiet)
  }

  function Applied(rows: Rows, event: Option<Event>): Rows
  {
    if event.Some? && event.value.Write? then Recorded(rows, event.value.attempt, event.value.at) else rows
  }

  function Logged(log: seq<Entry>, t: nat, event: Option<Event>): seq<Entry>
  {
    if event.Some? then log + [Entry(t, event.value)] else log
  }

  function Ticked(c: Counters, tick: Tick): Counters
  {
    match tick
    case Quiet => c
    case CountReceived => c.(alertsReceived := c.alertsReceived + 1)
    case CountMuteFailure => c.(muteLookupFailure := c.muteLookupFailure + 1)
    case CountReadFailure => c.(historyLookupFailure := c.historyLookupFailure + 1)
    case CountSent(ok) =>
      if ok then c.(notifySuccess := c.notifySuccess + 1) else c.(notifyFailure := c.notifyFailure + 1)
    case CountWriteFailure => c.(historyWriteFailure := c.historyWriteFailure + 1)
  }

  predicate WellFormed(cfg: Config, s: System)
  {
    forall t | 0 <= t < |s.threads| :: WellFormedThread(cfg, s.threads[t])
  }

  /** The state after thread t has acted. */
  function After(s: System, t: nat, act: Act): System
    requires t < |s.threads|
  {
    System(Applied(s.rows, act.event), Logged(s.log, t, act.event), Ticked(s.counters, act.tick),
           s.threads[t := act.thread])
  }

  /** Thread t takes its step; a number without a thread does nothing. */
  function Step(cfg: Config, s: System, t: nat): (s': System)
    requires WellFormed(cfg, s)
    ensures WellFormed(cfg, s') && |s'.threads| == |s.threads|
  {
    if t >= |s.threads| then s else After(s, t, ActOf(cfg, s.threads[t], s.rows))
  }

  function Run(cfg: Config, s: System, schedule: seq<nat>): (s': System)
    requires WellFormed(cfg, s)
    ensures WellFormed(cfg, s') && |s'.threads| == |s.threads|
    decreases |schedule|
  {
    if schedule == [] then s
    else Step(cfg, Run(cfg, s, schedule[..|schedule| - 1]), schedule[|schedule| - 1])
  }

  const NO_COUNTS := Counters(0, 0, 0, 0, 0, 0)

  function NewThreads(batches: seq<seq<Push>>): seq<Thread>
  {
    seq(|batches|, t requires 0 <= t < |batches| => Thread(batches[t], 0, Next))
  }

  /** All handlers about to start, over this table. */
  function Start(cfg: Config, rows: Rows, batches: seq<seq<Push>>): (s: System)
    ensures WellFormed(cfg, s)
  {
    System(rows, [], NO_COUNTS, NewThreads(batches))
  }
}
