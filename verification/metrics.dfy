/** The six counters of internal/alertchain/metrics.go, and what processing
    does to them. */
module Metric {
  import opened Delivery

  /** The value of all counters at one moment. */
  datatype Counters = Counters(alertsReceived: nat, notifySuccess: nat, notifyFailure: nat,
                               muteLookupFailure: nat, historyLookupFailure: nat, historyWriteFailure: nat)

  class Metrics {
    var counters: Counters

    constructor ()
      ensures counters == Counters(0, 0, 0, 0, 0, 0)
    {
      counters := Counters(0, 0, 0, 0, 0, 0);
    }

    method IncAlertsReceived()
      modifies this
      ensures counters == old(counters.(alertsReceived := counters.alertsReceived + 1))
    {
      counters := counters.(alertsReceived := counters.alertsReceived + 1);
    }

    method IncNotifySuccess()
      modifies this
      ensures counters == old(counters.(notifySuccess := counters.notifySuccess + 1))
    {
      counters := counters.(notifySuccess := counters.notifySuccess + 1);
    }

    method IncNotifyFailure()
      modifies this
      ensures counters == old(counters.(notifyFailure := counters.notifyFailure + 1))
    {
      counters := counters.(notifyFailure := counters.notifyFailure + 1);
    }

    method IncMuteLookupFailure()
      modifies this
      ensures counters == old(counters.(muteLookupFailure := counters.muteLookupFailure + 1))
    {
      counters := counters.(muteLookupFailure := counters.muteLookupFailure + 1);
    }

    method IncHistoryLookupFailure()
      modifies this
      ensures counters == old(counters.(historyLookupFailure := counters.historyLookupFailure + 1))
    {
      counters := counters.(historyLookupFailure := counters.historyLookupFailure + 1);
    }

    method IncHistoryWriteFailure()
      modifies this
      ensures counters == old(counters.(historyWriteFailure := counters.historyWriteFailure + 1))
    {
      counters := counters.(historyWriteFailure := counters.historyWriteFailure + 1);
    }
  }

  // --- What processing does to the counters -------------------------------

  function TallyAttempt(c: Counters, attempt: Attempt): Counters
  {
    c.(notifySuccess := c.notifySuccess + (if attempt.ok then 1 else 0),
       notifyFailure := c.notifyFailure + (if attempt.ok then 0 else 1),
       historyWriteFailure := c.historyWriteFailure + (if attempt.recorded then 0 else 1))
  }

  function TallyLog(c: Counters, log: seq<Attempt>): Counters
    decreases |log|
  {
    if log == [] then c else TallyLog(TallyAttempt(c, log[0]), log[1..])
  }

  lemma {:induction false} TallyLogConcat(c: Counters, a: seq<Attempt>, b: seq<Attempt>)
    ensures TallyLog(c, a + b) == TallyLog(TallyLog(c, a), b)
    decreases |a|
  {
    if a == [] {
      assert a + b == b;
    } else {
      TallyLogConcat(TallyAttempt(c, a[0]), a[1..], b);
      assert (a + b)[1..] == a[1..] + b;
    }
  }

  /** The decision loop; a failed history read ends it. */
  function TallyFanOut(c: Counters, result: Dispatch): Counters
  {
    var d := TallyLog(c, result.log);
    if result.failed then d.(historyLookupFailure := d.historyLookupFailure + 1) else d
  }

  /** One Process call. */
  function TallyProcess(c: Counters, push: Push, result: Dispatch): Counters
  {
    match push.mute
    case Unreadable => c.(muteLookupFailure := c.muteLookupFailure + 1)
    case Muted => c
    case Clear => TallyFanOut(c, result)
  }

  /** Receiving one alert and processing it. */
  function TallyReceived(cfg: Config, c: Counters, rows: Rows, push: Push): Counters
  {
    TallyProcess(c.(alertsReceived := c.alertsReceived + 1), push, Processed(cfg, rows, push))
  }

  /** One POST; each alert is counted before it is processed. */
  function TallyPost(cfg: Config, c: Counters, rows: Rows, batch: seq<Push>): Counters
    decreases |batch|
  {
    if batch == [] then c
    else
      var first := Processed(cfg, rows, batch[0]);
      var d := TallyReceived(cfg, c, rows, batch[0]);
      if first.failed then d else TallyPost(cfg, d, first.rows, batch[1..])
  }

  // --- Conservation over one POST -----------------------------------------

  /** The attempts of a log whose history write went through. */
  function Written(log: seq<Attempt>): nat
  {
    if log == [] then 0 else (if log[0].recorded then 1 else 0) + Written(log[1..])
  }

  /** The attempts of a log whose webhook succeeded, or those where it failed. */
  function Answered(log: seq<Attempt>, ok: bool): nat
  {
    if log == [] then 0 else (if log[0].ok == ok then 1 else 0) + Answered(log[1..], ok)
  }

  lemma {:induction false} CountsConcat(a: seq<Attempt>, b: seq<Attempt>)
    ensures Written(a + b) == Written(a) + Written(b)
    ensures forall ok :: Answered(a + b, ok) == Answered(a, ok) + Answered(b, ok)
  {
    if a == [] {
      assert a + b == b;
    } else {
      CountsConcat(a[1..], b);
      assert (a + b)[1..] == a[1..] + b && (a + b)[0] == a[0];
    }
  }

  /** From `c` to `d` these attempts were made, and this many alerts returned
      nil: each attempt was counted by what its webhook answered, and if its
      write was lost, as that. */
  predicate Conserved(c: Counters, d: Counters, log: seq<Attempt>, returned: nat)
  {
    && d.notifySuccess - c.notifySuccess == Answered(log, true)
    && d.notifyFailure - c.notifyFailure == Answered(log, false)
    && |log| == Answered(log, true) + Answered(log, false)
    && |log| == Written(log) + (d.historyWriteFailure - c.historyWriteFailure)
    && d.alertsReceived - c.alertsReceived
       == returned + (d.muteLookupFailure - c.muteLookupFailure) + (d.historyLookupFailure - c.historyLookupFailure)
  }

  lemma {:induction false} LogConservation(c: Counters, log: seq<Attempt>)
    ensures Conserved(c, TallyLog(c, log), log, 0)
    ensures TallyLog(c, log).alertsReceived == c.alertsReceived
    ensures TallyLog(c, log).muteLookupFailure == c.muteLookupFailure
    ensures TallyLog(c, log).historyLookupFailure == c.historyLookupFailure
    decreases |log|
  {
    if log != [] {
      LogConservation(TallyAttempt(c, log[0]), log[1..]);
    }
  }

  lemma ReceivedConservation(cfg: Config, c: Counters, rows: Rows, push: Push)
    ensures var result, d := Processed(cfg, rows, push), TallyReceived(cfg, c, rows, push);
            && Conserved(c, d, result.log, if result.failed then 0 else 1)
            && d.muteLookupFailure - c.muteLookupFailure == (if push.mute == Unreadable then 1 else 0)
            && d.historyLookupFailure - c.historyLookupFailure
               == (if push.mute != Unreadable && result.failed then 1 else 0)
  {
    LogConservation(c.(alertsReceived := c.alertsReceived + 1), Processed(cfg, rows, push).log);
  }

  /** The alerts of a batch whose Process returned nil. */
  function Returned(cfg: Config, rows: Rows, batch: seq<Push>): nat
    decreases |batch|
  {
    if batch == [] then 0
    else
      var first := Processed(cfg, rows, batch[0]);
      if first.failed then 0 else 1 + Returned(cfg, first.rows, batch[1..])
  }

  /** Conservation over one POST: every attempt is counted once as a success
      or a failure and once as written or lost; every received alert returned
      nil or is the one counted lookup failure that aborted the batch. */
  lemma {:induction false} PostConservation(cfg: Config, c: Counters, rows: Rows, batch: seq<Push>)
    ensures var d, result := TallyPost(cfg, c, rows, batch), Posted(cfg, rows, batch);
            && Conserved(c, d, result.log, Returned(cfg, rows, batch))
            && (d.muteLookupFailure - c.muteLookupFailure) + (d.historyLookupFailure - c.historyLookupFailure)
               == (if result.failed then 1 else 0)
    decreases |batch|
  {
    if batch != [] {
      var first := Processed(cfg, rows, batch[0]);
      ReceivedConservation(cfg, c, rows, batch[0]);
      if !first.failed {
        PostConservation(cfg, TallyReceived(cfg, c, rows, batch[0]), first.rows, batch[1..]);
        CountsConcat(first.log, Posted(cfg, first.rows, batch[1..]).log);
      }
    }
  }
}
