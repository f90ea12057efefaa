/** Handlers that carry the same alert at the same time. Dedup is a read
    followed by a later write, so a delivery may happen more than once; how
    often, and under which interleavings, is bounded exactly here. */
module SameAlert {
  import opened Common
  import opened Routing
  import opened Delivery
  import opened Handlers
  import opened Soundness
  import opened Conservation
  import opened Retry
  import opened Serializable

  // --- At most one webhook call per Process call --------------------------

  /** The Process calls of a batch on this fingerprint. */
  function CallsOn(cfg: Config, batch: seq<Push>, fingerprint: string): nat
  {
    if batch == [] then 0
    else CallsOn(cfg, batch[..|batch| - 1], fingerprint) + One(Fingerprint(cfg, batch[|batch| - 1]) == fingerprint)
  }

  lemma {:induction false} CallsOnPrefix(cfg: Config, batch: seq<Push>, fingerprint: string, k: nat)
    requires k < |batch|
    ensures CallsOn(cfg, batch[..k], fingerprint) + One(Fingerprint(cfg, batch[k]) == fingerprint)
         == CallsOn(cfg, batch[..k + 1], fingerprint) <= CallsOn(cfg, batch, fingerprint)
    decreases |batch|
  {
    var n := |batch| - 1;
    if k == n {
      assert batch[..k + 1] == batch;
    } else {
      CallsOnPrefix(cfg, batch[..n], fingerprint, k);
      assert batch[..n][..k] == batch[..k] && batch[..n][..k + 1] == batch[..k + 1];
    }
  }

  /** One of the first i decisions is for this rule name. */
  predicate NamedBefore(decisions: seq<Rule>, name: string, i: nat)
  {
    exists j :: 0 <= j < i && j < |decisions| && decisions[j].name == name
  }

  /** The current call may already have called the pair's webhook. */
  predicate MayHaveHooked(cfg: Config, th: Thread, pair: Pair)
  {
    && th.k < |th.batch| && Fingerprint(cfg, th.batch[th.k]) == pair.fingerprint
    && match th.pc
       case Next => false
       case MuteRead => false
       case Reading(i) => NamedBefore(Decided(cfg, th.batch[th.k]), pair.rule, i)
       case Notifying(i) => NamedBefore(Decided(cfg, th.batch[th.k]), pair.rule, i)
       case Notified(i) => NamedBefore(Decided(cfg, th.batch[th.k]), pair.rule, i + 1)
       case Recording(i) => NamedBefore(Decided(cfg, th.batch[th.k]), pair.rule, i + 1)
       case WriteFailed(i) => NamedBefore(Decided(cfg, th.batch[th.k]), pair.rule, i + 1)
       case _ => true
  }

  /** The webhook calls on the pair that the thread's calls so far allow. */
  function Allowance(cfg: Config, th: Thread, pair: Pair): nat
  {
    CallsOn(cfg, if th.k <= |th.batch| then th.batch[..th.k] else th.batch, pair.fingerprint)
    + One(MayHaveHooked(cfg, th, pair))
  }

  /** A step stays with its alert, or is done with it. */
  lemma ActMoves(cfg: Config, th: Thread, rows: Rows)
    requires WellFormedThread(cfg, th)
    ensures var act := ActOf(cfg, th, rows);
            && act.thread.batch == th.batch
            && (act.thread.k == th.k
                || (th.k < |th.batch| && act.thread.k == th.k + 1 && act.thread.pc.Next? && act.event.None?))
  {
  }

  /** The current call cannot call the webhook twice: rule names are distinct. */
  lemma ActHooksOnce(cfg: Config, th: Thread, rows: Rows, pair: Pair)
    requires ChainValid(cfg.rules, cfg.receivers) && WellFormedThread(cfg, th)
    requires ActOf(cfg, th, rows).thread.k == th.k
    ensures var act := ActOf(cfg, th, rows);
            && (MayHaveHooked(cfg, th, pair) ==> MayHaveHooked(cfg, act.thread, pair) && !IsHookOn(act.event, pair))
            && (IsHookOn(act.event, pair) ==> MayHaveHooked(cfg, act.thread, pair))
  {
    if th.k < |th.batch| {
      ValidChainFansOutDistinctly(cfg.rules, cfg.receivers, th.batch[th.k].alert.labels);
      ActMoves(cfg, th, rows);
    }
  }

  /** A webhook call uses up an allowance. */
  lemma ActWithinAllowance(cfg: Config, th: Thread, rows: Rows, pair: Pair)
    requires ChainValid(cfg.rules, cfg.receivers) && WellFormedThread(cfg, th)
    ensures var act := ActOf(cfg, th, rows);
            One(IsHookOn(act.event, pair)) + Allowance(cfg, th, pair) <= Allowance(cfg, act.thread, pair)
  {
    var act := ActOf(cfg, th, rows);
    ActMoves(cfg, th, rows);
    if act.thread.k == th.k {
      ActHooksOnce(cfg, th, rows, pair);
    } else {
      CallsOnPrefix(cfg, th.batch, pair.fingerprint, th.k);
    }
  }

  function AllowanceOf(cfg: Config, pair: Pair): Thread -> nat
  {
    (th: Thread) => Allowance(cfg, th, pair)
  }

  function CallsOf(cfg: Config, pair: Pair): Thread -> nat
  {
    (th: Thread) => CallsOn(cfg, th.batch, pair.fingerprint)
  }

  lemma {:induction false} RunWithinAllowance(cfg: Config, s: System, schedule: seq<nat>, pair: Pair)
    requires ChainValid(cfg.rules, cfg.receivers) && WellFormed(cfg, s) && s.log == []
    ensures var s' := Run(cfg, s, schedule); HooksOn(s'.log, pair) <= Sum(s'.threads, AllowanceOf(cfg, pair))
    decreases |schedule|
  {
    if schedule != [] {
      var before, t := Run(cfg, s, schedule[..|schedule| - 1]), schedule[|schedule| - 1];
      RunWithinAllowance(cfg, s, schedule[..|schedule| - 1], pair);
      if t < |before.threads| {
        var act := ActOf(cfg, before.threads[t], before.rows);
        ActWithinAllowance(cfg, before.threads[t], before.rows, pair);
        SumUpdate(before.threads, t, act.thread, AllowanceOf(cfg, pair));
        HooksOnLogged(before.log, t, act.event, pair);
      }
    }
  }

  lemma AllowanceWithinCalls(cfg: Config, th: Thread, pair: Pair)
    ensures Allowance(cfg, th, pair) <= CallsOn(cfg, th.batch, pair.fingerprint)
  {
    if th.k < |th.batch| {
      CallsOnPrefix(cfg, th.batch, pair.fingerprint, th.k);
    } else {
      assert th.batch[..|th.batch|] == th.batch;
    }
  }

  lemma {:induction false} SumsCompare(threads: seq<Thread>, threads': seq<Thread>, f: Thread -> nat, g: Thread -> nat)
    requires |threads| == |threads'| && forall t :: 0 <= t < |threads| ==> f(threads[t]) <= g(threads'[t])
    ensures Sum(threads, f) <= Sum(threads', g)
  {
    if threads != [] {
      SumsCompare(threads[1..], threads'[1..], f, g);
    }
  }

  /** In every reachable state, under any faults and from any table, a pair's
      webhook has been called at most once per Process call on its
      fingerprint. */
  lemma AtMostOncePerCall(cfg: Config, rows: Rows, batches: seq<seq<Push>>, schedule: seq<nat>, pair: Pair)
    requires ChainValid(cfg.rules, cfg.receivers)
    ensures HooksOn(Run(cfg, Start(cfg, rows, batches), schedule).log, pair)
         <= Sum(NewThreads(batches), CallsOf(cfg, pair))
  {
    var start := Start(cfg, rows, batches);
    var s := Run(cfg, start, schedule);
    RunWithinAllowance(cfg, start, schedule, pair);
    RunCarries(cfg, start, schedule, batches);
    forall t | 0 <= t < |batches|
      ensures Allowance(cfg, s.threads[t], pair) <= CallsOn(cfg, NewThreads(batches)[t].batch, pair.fingerprint)
    {
      AllowanceWithinCalls(cfg, s.threads[t], pair);
    }
    SumsCompare(s.threads, NewThreads(batches), AllowanceOf(cfg, pair), CallsOf(cfg, pair));
  }

  // --- At least once ------------------------------------------------------

  /** The thread meets no faults and sees the fingerprint firing only. */
  ghost predicate FiresOnly(cfg: Config, batch: seq<Push>, fingerprint: string)
  {
    && AllFaultless(batch)
    && forall i :: 0 <= i < |batch| && Fingerprint(cfg, batch[i]) == fingerprint ==> batch[i].Desired() == FiringSent
  }

  /** Without faults no call aborts. */
  predicate Smooth(th: Thread)
  {
    match th.pc
    case Stopped(_) => th.k == |th.batch|
    case ReadFailed => false
    case MuteFailed => false
    case WriteFailed(_) => false
    case _ => true
  }

  /** The thread has dealt with a decision on the pair. */
  ghost predicate Passed(cfg: Config, th: Thread, pair: Pair)
  {
    || (exists m :: 0 <= m < th.k && m < |th.batch| && WantsNow(cfg, th.batch[m], pair))
    || PassedNow(cfg, th, pair)
  }

  predicate PassedNow(cfg: Config, th: Thread, pair: Pair)
  {
    && th.k < |th.batch| && Fingerprint(cfg, th.batch[th.k]) == pair.fingerprint
    && (th.pc.Reading? || th.pc.Notifying? || th.pc.Notified? || th.pc.Recording?)
    && NamedBefore(Decided(cfg, th.batch[th.k]), pair.rule, th.pc.i)
  }

  lemma WantedIsNamed(cfg: Config, push: Push, pair: Pair)
    requires WantsNow(cfg, push, pair)
    ensures Fingerprint(cfg, push) == pair.fingerprint
    ensures NamedBefore(Decided(cfg, push), pair.rule, |Decided(cfg, push)|)
  {
    var rule :| rule in Decided(cfg, push) && PairOf(cfg, rule, push) == pair;
    var j :| 0 <= j < |Decided(cfg, push)| && Decided(cfg, push)[j] == rule;
  }

  /** What a smooth thread's write does: it records firing-sent. */
  lemma ActFires(cfg: Config, th: Thread, rows: Rows, pair: Pair)
    requires WellFormedThread(cfg, th) && FiresOnly(cfg, th.batch, pair.fingerprint) && Smooth(th)
    ensures var act := ActOf(cfg, th, rows);
            && Smooth(act.thread) && act.thread.batch == th.batch
            && (act.event.Some? ==> FiresOn(act.event.value, pair))
  {
    if th.k < |th.batch| {
      assert Faultless(th.batch[th.k]);
    }
  }

  /** An event on the pair wants firing, and records it if it is a write. */
  predicate FiresOn(event: Event, pair: Pair)
  {
    && (event.Hook? && event.pair == pair ==> event.desired == FiringSent)
    && (event.Write? && event.attempt.pair == pair ==>
          event.attempt.recorded && event.attempt.ok && event.attempt.desired == FiringSent)
  }

  lemma FiringStays(rows: Rows, event: Option<Event>, pair: Pair)
    requires Settled(rows, pair, FiringSent) && (event.Some? ==> FiresOn(event.value, pair))
    ensures Settled(Applied(rows, event), pair, FiringSent)
  {
  }

  /** A thread passes a decision on the pair only when the row is firing-sent. */
  lemma ActPasses(cfg: Config, th: Thread, rows: Rows, pair: Pair)
    requires ChainValid(cfg.rules, cfg.receivers) && WellFormedThread(cfg, th)
    requires FiresOnly(cfg, th.batch, pair.fingerprint) && Smooth(th)
    requires Passed(cfg, th, pair) ==> Settled(rows, pair, FiringSent)
    ensures var act := ActOf(cfg, th, rows);
            Passed(cfg, act.thread, pair) ==> Settled(Applied(rows, act.event), pair, FiringSent)
  {
    var act := ActOf(cfg, th, rows);
    ActFires(cfg, th, rows, pair);
    if Passed(cfg, th, pair) {
      FiringStays(rows, act.event, pair);
    } else if Passed(cfg, act.thread, pair) {
      PassingActs(cfg, th, rows, pair);
    }
  }

  lemma PassingActs(cfg: Config, th: Thread, rows: Rows, pair: Pair)
    requires ChainValid(cfg.rules, cfg.receivers) && WellFormedThread(cfg, th)
    requires FiresOnly(cfg, th.batch, pair.fingerprint) && Smooth(th)
    requires !Passed(cfg, th, pair) && Passed(cfg, ActOf(cfg, th, rows).thread, pair)
    ensures Settled(Applied(rows, ActOf(cfg, th, rows).event), pair, FiringSent)
  {
    assert th.k < |th.batch|;
    var push := th.batch[th.k];
    assert Faultless(push);
    ValidChainFansOutDistinctly(cfg.rules, cfg.receivers, push.alert.labels);
    if WantsNow(cfg, push, pair) {
      WantedIsNamed(cfg, push, pair);
    }
    if th.pc.Reading? {
      ReadingPasses(cfg, th, rows, pair);
    } else if th.pc.Recording? {
      assert CurrentAttempt(cfg, th, th.pc.i).pair == pair;
    }
  }

  lemma ReadingPasses(cfg: Config, th: Thread, rows: Rows, pair: Pair)
    requires ChainValid(cfg.rules, cfg.receivers) && WellFormedThread(cfg, th)
    requires FiresOnly(cfg, th.batch, pair.fingerprint) && th.pc.Reading?
    requires !Passed(cfg, th, pair) && Passed(cfg, ActOf(cfg, th, rows).thread, pair)
    ensures Settled(Applied(rows, ActOf(cfg, th, rows).event), pair, FiringSent)
  {
    var push := th.batch[th.k];
    assert Faultless(push);
    ValidChainFansOutDistinctly(cfg.rules, cfg.receivers, push.alert.labels);
    if th.pc.i >= |Decided(cfg, push)| {
      if WantsNow(cfg, push, pair) {
        WantedIsNamed(cfg, push, pair);
      }
      assert false;
    }
  }

  ghost predicate AllFireOnly(cfg: Config, batches: seq<seq<Push>>, fingerprint: string)
  {
    forall t :: 0 <= t < |batches| ==> FiresOnly(cfg, batches[t], fingerprint)
  }

  ghost predicate FiringThroughout(cfg: Config, s: System, pair: Pair)
  {
    && (forall t :: 0 <= t < |s.threads| ==>
          && Smooth(s.threads[t])
          && (Passed(cfg, s.threads[t], pair) ==> Settled(s.rows, pair, FiringSent)))
    && (forall n :: 0 <= n < |s.log| ==> FiresOn(s.log[n].event, pair))
  }

  lemma StepFires(cfg: Config, s: System, t: nat, pair: Pair)
    requires ChainValid(cfg.rules, cfg.receivers) && WellFormed(cfg, s) && t < |s.threads|
    requires FiresOnly(cfg, s.threads[t].batch, pair.fingerprint) && FiringThroughout(cfg, s, pair)
    ensures FiringThroughout(cfg, Step(cfg, s, t), pair)
  {
    var act := ActOf(cfg, s.threads[t], s.rows);
    ActFires(cfg, s.threads[t], s.rows, pair);
    ActPasses(cfg, s.threads[t], s.rows, pair);
    if Settled(s.rows, pair, FiringSent) {
      FiringStays(s.rows, act.event, pair);
    }
  }

  lemma {:induction false} RunFires(cfg: Config, s: System, schedule: seq<nat>, batches: seq<seq<Push>>, pair: Pair)
    requires ChainValid(cfg.rules, cfg.receivers) && WellFormed(cfg, s) && Carries(s, batches)
    requires AllFireOnly(cfg, batches, pair.fingerprint) && FiringThroughout(cfg, s, pair)
    ensures FiringThroughout(cfg, Run(cfg, s, schedule), pair)
    decreases |schedule|
  {
    if schedule != [] {
      var before, t := Run(cfg, s, schedule[..|schedule| - 1]), schedule[|schedule| - 1];
      RunFires(cfg, s, schedule[..|schedule| - 1], batches, pair);
      RunCarries(cfg, s, schedule[..|schedule| - 1], batches);
      if t < |before.threads| {
        assert FiresOnly(cfg, batches[t], pair.fingerprint);
        StepFires(cfg, before, t, pair);
      }
    }
  }

  lemma StartFires(cfg: Config, rows: Rows, batches: seq<seq<Push>>, pair: Pair)
    ensures FiringThroughout(cfg, Start(cfg, rows, batches), pair)
  {
  }

  lemma {:induction false} HookIsCounted(log: seq<Entry>, h: nat, pair: Pair)
    requires h < |log| && IsHookOn(Some(log[h].event), pair)
    ensures HooksOn(log, pair) >= 1
    decreases |log|
  {
    if h < |log| - 1 {
      HookIsCounted(log[..|log| - 1], h, pair);
    }
  }

  // --- Deliveries come from early reads -----------------------------------

  /** The thread read the row before its webhook call at `h`, and before any
      write to the row. */
  ghost predicate ReadBeforeAnyWrite(log: seq<Entry>, h: nat, pair: Pair)
    requires h < |log|
  {
    exists r :: 0 <= r < h && log[r].thread == log[h].thread && log[r].event.Read? && log[r].event.pair == pair
                && NoWriteBefore(log, r, pair)
  }

  predicate NoWriteBefore(log: seq<Entry>, r: nat, pair: Pair)
    requires r <= |log|
  {
    forall w | 0 <= w < r :: !(log[w].event.Write? && log[w].event.attempt.pair == pair)
  }

  /** Reads report the replay of the writes before them. */
  ghost predicate ReadsAreTrue(rows: Rows, log: seq<Entry>)
  {
    forall r :: 0 <= r < |log| && log[r].event.Read? ==>
                  log[r].event.found == StatusIn(Replayed(rows, log[..r]), log[r].event.pair)
  }

  lemma ActReadsTruly(cfg: Config, th: Thread, rows: Rows)
    requires WellFormedThread(cfg, th)
    ensures var event := ActOf(cfg, th, rows).event;
            event.Some? && event.value.Read? ==> event.value.found == StatusIn(rows, event.value.pair)
  {
  }

  lemma ReadsStayTrue(rows: Rows, log: seq<Entry>, t: nat, event: Option<Event>)
    requires ReadsAreTrue(rows, log)
    requires event.Some? && event.value.Read? ==> event.value.found == StatusIn(Replayed(rows, log), event.value.pair)
    ensures ReadsAreTrue(rows, Logged(log, t, event))
  {
    var log' := Logged(log, t, event);
    forall r | 0 <= r < |log'| && log'[r].event.Read?
      ensures log'[r].event.found == StatusIn(Replayed(rows, log'[..r]), log'[r].event.pair)
    {
      assert log'[..r] == log[..r];
      assert log[..|log|] == log;
    }
  }

  lemma {:induction false} RunReadsTruly(cfg: Config, s: System, schedule: seq<nat>)
    requires WellFormed(cfg, s) && s.log == []
    ensures ReadsAreTrue(s.rows, Run(cfg, s, schedule).log)
    decreases |schedule|
  {
    if schedule != [] {
      var before, t := Run(cfg, s, schedule[..|schedule| - 1]), schedule[|schedule| - 1];
      RunReadsTruly(cfg, s, schedule[..|schedule| - 1]);
      RowsAreReplayed(cfg, s, schedule[..|schedule| - 1]);
      if t < |before.threads| {
        ActReadsTruly(cfg, before.threads[t], before.rows);
        ReadsStayTrue(s.rows, before.log, t, ActOf(cfg, before.threads[t], before.rows).event);
      }
    }
  }

  /** After one firing write, the row stays firing-sent. */
  lemma {:induction false} FiringAfterWrite(rows: Rows, log: seq<Entry>, w: nat, pair: Pair)
    requires w < |log| && log[w].event.Write? && log[w].event.attempt.pair == pair
    requires forall n :: 0 <= n < |log| ==> FiresOn(log[n].event, pair)
    ensures Settled(Replayed(rows, log), pair, FiringSent)
    decreases |log|
  {
    if w < |log| - 1 {
      FiringAfterWrite(rows, log[..|log| - 1], w, pair);
    }
  }

  lemma HookReadEarly(cfg: Config, rows: Rows, s: System, h: nat, pair: Pair)
    requires WellFormed(cfg, s) && AllCaused(cfg, s) && FiringThroughout(cfg, s, pair) && ReadsAreTrue(rows, s.log)
    requires h < |s.log| && IsHookOn(Some(s.log[h].event), pair)
    ensures ReadBeforeAnyWrite(s.log, h, pair)
  {
    var log := s.log;
    assert Caused(cfg, log, h) && FiresOn(log[h].event, pair);
    var r :| 0 <= r < h && log[r].thread == log[h].thread && log[r].event.Read? && log[r].event.pair == pair
             && log[r].event.found != Some(FiringSent);
    if w :| 0 <= w < r && log[w].event.Write? && log[w].event.attempt.pair == pair {
      FiringAfterWrite(rows, log[..r], w, pair);
      assert false;
    }
    assert NoWriteBefore(log, r, pair);
  }

  /** Same-alert concurrency bound. Any number of handlers meet no faults and
      see the fingerprint firing only, starting with no row. In every
      reachable state each webhook call on a pair of it comes from a thread
      that read the row before the first write to it, all writes record
      `firing-sent`, and there are at most as many calls as Process calls on
      the fingerprint; once all have answered, a wanted pair has been
      delivered at least once. */
  lemma SameAlertBound(cfg: Config, batches: seq<seq<Push>>, schedule: seq<nat>, pair: Pair)
    requires ChainValid(cfg.rules, cfg.receivers) && AllFireOnly(cfg, batches, pair.fingerprint)
    ensures var s := Run(cfg, Start(cfg, map[], batches), schedule);
            && HooksOn(s.log, pair) <= Sum(NewThreads(batches), CallsOf(cfg, pair))
            && (forall n :: 0 <= n < |s.log| ==> FiresOn(s.log[n].event, pair))
            && (forall h :: 0 <= h < |s.log| && IsHookOn(Some(s.log[h].event), pair) ==>
                  ReadBeforeAnyWrite(s.log, h, pair))
            && (Complete(s) && Wanted(cfg, batches, pair) ==>
                  HooksOn(s.log, pair) >= 1 && Settled(s.rows, pair, FiringSent))
  {
    var start := Start(cfg, map[], batches);
    var s := Run(cfg, start, schedule);
    AtMostOncePerCall(cfg, map[], batches, schedule, pair);
    StartFires(cfg, map[], batches, pair);
    RunFires(cfg, start, schedule, batches, pair);
    EverythingCaused(cfg, start, schedule);
    RunReadsTruly(cfg, start, schedule);
    forall h | 0 <= h < |s.log| && IsHookOn(Some(s.log[h].event), pair) ensures ReadBeforeAnyWrite(s.log, h, pair) {
      HookReadEarly(cfg, map[], s, h, pair);
    }
    if t: nat :| Complete(s) && t < |batches| && Wants(cfg, batches[t], pair) {
      RunCarries(cfg, start, schedule, batches);
      WantedIsDelivered(cfg, batches, schedule, t, pair);
    }
  }

  lemma WantedIsDelivered(cfg: Config, batches: seq<seq<Push>>, schedule: seq<nat>, t: nat, pair: Pair)
    requires var s := Run(cfg, Start(cfg, map[], batches), schedule);
             Complete(s) && Carries(s, batches) && FiringThroughout(cfg, s, pair)
    requires t < |batches| && Wants(cfg, batches[t], pair)
    ensures var s := Run(cfg, Start(cfg, map[], batches), schedule);
            HooksOn(s.log, pair) >= 1 && Settled(s.rows, pair, FiringSent)
  {
    var s := Run(cfg, Start(cfg, map[], batches), schedule);
    var th := s.threads[t];
    assert Smooth(th) && th.batch == batches[t];
    var i, rule :| 0 <= i < |th.batch| && th.batch[i].mute == Clear && rule in Decided(cfg, th.batch[i])
                   && PairOf(cfg, rule, th.batch[i]) == pair;
    assert WantsNow(cfg, th.batch[i], pair);
    assert Passed(cfg, th, pair);
    HistorySoundness(cfg, batches, schedule, pair);
    var h :| 0 <= h < |s.log| && ExplainsRow(cfg, s.log[h], pair, s.rows[pair]);
    HookIsCounted(s.log, h, pair);
  }

  /** N handlers, each with one call for the same firing alert: a matched
      rule is delivered at least once and at most N times. */
  lemma OneAlertManyHandlers(cfg: Config, pushes: seq<Push>, schedule: seq<nat>, labels: Labels, rule: Rule)
    requires ChainValid(cfg.rules, cfg.receivers) && rule in Routed(cfg.rules, labels)
    requires forall p :: p in pushes ==>
               p.alert.labels == labels && p.mute == Clear && p.Desired() == FiringSent && Faultless(p)
    requires pushes != [] && Complete(Run(cfg, Start(cfg, map[], Singly(pushes)), schedule))
    ensures var s := Run(cfg, Start(cfg, map[], Singly(pushes)), schedule);
            1 <= HooksOn(s.log, Pair(rule.name, cfg.Fingerprint(labels))) <= |pushes|
  {
    var pair, batches := Pair(rule.name, cfg.Fingerprint(labels)), Singly(pushes);
    SinglesFireOnly(cfg, pushes, pair);
    FirstWants(cfg, pushes, labels, rule);
    SameAlertBound(cfg, batches, schedule, pair);
    CallsOfSingles(cfg, NewThreads(batches), pair);
  }

  lemma SinglesFireOnly(cfg: Config, pushes: seq<Push>, pair: Pair)
    requires forall p :: p in pushes ==> p.Desired() == FiringSent && Faultless(p)
    ensures AllFireOnly(cfg, Singly(pushes), pair.fingerprint)
  {
    forall t | 0 <= t < |pushes| ensures FiresOnly(cfg, Singly(pushes)[t], pair.fingerprint) {
      assert pushes[t] in pushes;
    }
  }

  lemma FirstWants(cfg: Config, pushes: seq<Push>, labels: Labels, rule: Rule)
    requires pushes != [] && pushes[0].alert.labels == labels && pushes[0].mute == Clear
    requires rule in Routed(cfg.rules, labels)
    ensures Wants(cfg, Singly(pushes)[0], Pair(rule.name, cfg.Fingerprint(labels)))
  {
    var batch := Singly(pushes)[0];
    assert batch[0] == pushes[0] && rule in Decided(cfg, batch[0]);
    assert PairOf(cfg, rule, batch[0]) == Pair(rule.name, cfg.Fingerprint(labels));
  }

  function Singly(pushes: seq<Push>): (r: seq<seq<Push>>)
    ensures |r| == |pushes| && forall t :: 0 <= t < |pushes| ==> r[t] == [pushes[t]]
  {
    seq(|pushes|, t requires 0 <= t < |pushes| => [pushes[t]])
  }

  lemma {:induction false} CallsOfSingles(cfg: Config, threads: seq<Thread>, pair: Pair)
    requires forall t :: 0 <= t < |threads| ==> |threads[t].batch| == 1
    ensures Sum(threads, CallsOf(cfg, pair)) <= |threads|
  {
    if threads != [] {
      CallsOfSingles(cfg, threads[1..], pair);
      var batch := threads[0].batch;
      assert batch[..|batch| - 1] == [];
      assert CallsOn(cfg, batch, pair.fingerprint) <= 1;
    }
  }
}
