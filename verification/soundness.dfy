/** History soundness: in every reachable state of the concurrent handlers
    each effect has its cause earlier in the log. */
module Soundness {
  import opened Common
  import opened Routing
  import opened Delivery
  import opened Handlers

  // --- The table is the replay of the writes ------------------------------

  function Replayed(rows: Rows, log: seq<Entry>): Rows
  {
    if log == [] then rows
    else Applied(Replayed(rows, log[..|log| - 1]), Some(log[|log| - 1].event))
  }

  lemma {:induction false} RowsAreReplayed(cfg: Config, s: System, schedule: seq<nat>)
    requires WellFormed(cfg, s) && s.log == []
    ensures Run(cfg, s, schedule).rows == Replayed(s.rows, Run(cfg, s, schedule).log)
    decreases |schedule|
  {
    if schedule != [] {
      var before, t := Run(cfg, s, schedule[..|schedule| - 1]), schedule[|schedule| - 1];
      RowsAreReplayed(cfg, s, schedule[..|schedule| - 1]);
      if t < |before.threads| {
        var event := ActOf(cfg, before.threads[t], before.rows).event;
        if event.Some? {
          var log := Logged(before.log, t, event);
          assert log[..|log| - 1] == before.log;
        }
      }
    }
  }

  /** A row either is the initial one or was put there by a logged write. */
  lemma {:induction false} RowHasWrite(rows: Rows, log: seq<Entry>, pair: Pair)
    requires pair in Replayed(rows, log)
    ensures SameRow(rows, Replayed(rows, log), pair) || exists w :: WritesRow(log, w, pair, Replayed(rows, log)[pair])
    decreases |log|
  {
    if log != [] {
      var n := |log| - 1;
      var before := Replayed(rows, log[..n]);
      if pair in before && before[pair] == Replayed(rows, log)[pair] {
        RowHasWrite(rows, log[..n], pair);
        if !SameRow(rows, before, pair) {
          var w :| WritesRow(log[..n], w, pair, before[pair]);
          assert WritesRow(log, w, pair, before[pair]);
        }
      } else {
        assert WritesRow(log, n, pair, Replayed(rows, log)[pair]);
      }
    }
  }

  ghost predicate WritesRow(log: seq<Entry>, w: int, pair: Pair, row: Row)
  {
    && 0 <= w < |log| && log[w].event.Write?
    && log[w].event.attempt.pair == pair && log[w].event.attempt.recorded
    && row == Row(log[w].event.at, log[w].event.attempt.Outcome())
  }

  // --- Every effect has its cause -----------------------------------------

  /** Before position `n` the thread read the row and found another status. */
  ghost predicate ReadBefore(log: seq<Entry>, n: int, t: nat, pair: Pair, desired: Status)
  {
    exists r :: 0 <= r < n && r < |log| && log[r].thread == t && log[r].event.Read?
                && log[r].event.pair == pair && log[r].event.found != Some(desired)
  }

  ghost predicate HookedBefore(log: seq<Entry>, n: int, t: nat, attempt: Attempt)
  {
    exists h :: 0 <= h < n && h < |log| && log[h] == Entry(t, HookOf(attempt))
  }

  /** The webhook call goes to the receiver of the rule that the pair names,
      and carries the pair's fingerprint and a desired status. */
  ghost predicate Addressed(cfg: Config, pair: Pair, payload: Payload, desired: Status)
  {
    && desired.IsSent() && payload.fingerprint == pair.fingerprint
    && exists rule :: rule in cfg.rules && rule.name == pair.rule && rule.receiver in cfg.receivers
                      && cfg.receivers[rule.receiver].name == payload.receiver
  }

  /** Entry n of the log has its cause earlier in the log. */
  ghost predicate Caused(cfg: Config, log: seq<Entry>, n: nat)
    requires n < |log|
  {
    var t := log[n].thread;
    match log[n].event
    case Read(_, _) => true
    case Hook(pair, payload, desired, _) =>
      Addressed(cfg, pair, payload, desired) && ReadBefore(log, n, t, pair, desired)
    case Write(attempt, _) => HookedBefore(log, n, t, attempt)
  }

  /** What the thread is about to do has its cause in the log. */
  ghost predicate CausedThread(cfg: Config, log: seq<Entry>, t: nat, th: Thread)
    requires WellFormedThread(cfg, th)
  {
    match th.pc
    case Notifying(i) =>
      var attempt := CurrentAttempt(cfg, th, i);
      ReadBefore(log, |log|, t, attempt.pair, attempt.desired)
    case Notified(i) => HookedBefore(log, |log|, t, CurrentAttempt(cfg, th, i))
    case Recording(i) => HookedBefore(log, |log|, t, CurrentAttempt(cfg, th, i))
    case _ => true
  }

  ghost predicate AllCaused(cfg: Config, s: System)
    requires WellFormed(cfg, s)
  {
    && (forall n :: 0 <= n < |s.log| ==> Caused(cfg, s.log, n))
    && (forall t :: 0 <= t < |s.threads| ==> CausedThread(cfg, s.log, t, s.threads[t]))
  }

  /** Causes stay causes when the log grows. */
  lemma CausesPersist(cfg: Config, log: seq<Entry>, more: seq<Entry>)
    ensures forall n: nat :: n < |log| && Caused(cfg, log, n) ==> Caused(cfg, log + more, n)
    ensures forall t: nat, th :: WellFormedThread(cfg, th) && CausedThread(cfg, log, t, th)
                                 ==> CausedThread(cfg, log + more, t, th)
  {
    assert forall n, t, pair, desired :: n <= |log| && ReadBefore(log, n, t, pair, desired)
                                         ==> ReadBefore(log + more, n, t, pair, desired)
                                             && ReadBefore(log + more, |log + more|, t, pair, desired) by {
      forall n, t, pair, desired | n <= |log| && ReadBefore(log, n, t, pair, desired)
        ensures ReadBefore(log + more, n, t, pair, desired) && ReadBefore(log + more, |log + more|, t, pair, desired)
      {
        var r :| 0 <= r < n && r < |log| && log[r].thread == t && log[r].event.Read?
                 && log[r].event.pair == pair && log[r].event.found != Some(desired);
        assert (log + more)[r] == log[r];
      }
    }
    assert forall n, t, attempt :: n <= |log| && HookedBefore(log, n, t, attempt)
                                   ==> HookedBefore(log + more, n, t, attempt)
                                       && HookedBefore(log + more, |log + more|, t, attempt) by {
      forall n, t, attempt | n <= |log| && HookedBefore(log, n, t, attempt)
        ensures HookedBefore(log + more, n, t, attempt) && HookedBefore(log + more, |log + more|, t, attempt)
      {
        var h :| 0 <= h < n && h < |log| && log[h] == Entry(t, HookOf(attempt));
        assert (log + more)[h] == log[h];
      }
    }
  }

  lemma CurrentAttemptAddressed(cfg: Config, th: Thread, i: nat)
    requires th.k < |th.batch| && i < |Decided(cfg, th.batch[th.k])|
    requires Decided(cfg, th.batch[th.k])[i].receiver in cfg.receivers
    ensures var attempt := CurrentAttempt(cfg, th, i); Addressed(cfg, attempt.pair, attempt.payload, attempt.desired)
  {
    var push := th.batch[th.k];
    RoutedFromRules(cfg.rules, push.alert.labels);
    assert Decided(cfg, push)[i] in cfg.rules;
  }

  /** The stepping thread's own obligation, before and after its step. */
  lemma StepCauses(cfg: Config, s: System, t: nat)
    requires WellFormed(cfg, s) && t < |s.threads| && CausedThread(cfg, s.log, t, s.threads[t])
    ensures var act := ActOf(cfg, s.threads[t], s.rows);
            var log := Logged(s.log, t, act.event);
            && CausedThread(cfg, log, t, act.thread)
            && (act.event.Some? ==> Caused(cfg, log, |s.log|))
  {
    var th := s.threads[t];
    var act := ActOf(cfg, th, s.rows);
    var log := Logged(s.log, t, act.event);
    if act.event.Some? {
      CausesPersist(cfg, s.log, [Entry(t, act.event.value)]);
      assert log[|s.log|] == Entry(t, act.event.value);
    }
    if th.pc.Notifying? {
      CurrentAttemptAddressed(cfg, th, th.pc.i);
    }
  }

  lemma {:induction false} EverythingCaused(cfg: Config, s: System, schedule: seq<nat>)
    requires WellFormed(cfg, s) && AllCaused(cfg, s)
    ensures AllCaused(cfg, Run(cfg, s, schedule))
    decreases |schedule|
  {
    if schedule != [] {
      var before, t := Run(cfg, s, schedule[..|schedule| - 1]), schedule[|schedule| - 1];
      EverythingCaused(cfg, s, schedule[..|schedule| - 1]);
      if t < |before.threads| {
        var event := ActOf(cfg, before.threads[t], before.rows).event;
        StepCauses(cfg, before, t);
        if event.Some? {
          CausesPersist(cfg, before.log, [Entry(t, event.value)]);
        }
      }
    }
  }

  /** A webhook call in the log explains the row: made for the row's pair, to
      its rule's receiver, wanting what the row says was sent or failed. */
  ghost predicate ExplainsRow(cfg: Config, entry: Entry, pair: Pair, row: Row)
  {
    && entry.event.Hook? && entry.event.pair == pair
    && Addressed(cfg, pair, entry.event.payload, entry.event.desired)
    && match row.status
       case FiringSent => entry.event.ok && entry.event.desired == FiringSent
       case FiringFailed => !entry.event.ok && entry.event.desired == FiringSent
       case ResolvedSent => entry.event.ok && entry.event.desired == ResolvedSent
       case ResolvedFailed => !entry.event.ok && entry.event.desired == ResolvedSent
  }

  /** History soundness. From an empty table, under any interleaving and any
      faults, every row is explained by an earlier webhook call: a sent status
      by a successful one under that desired status, a failed one by a failed
      one. */
  lemma HistorySoundness(cfg: Config, batches: seq<seq<Push>>, schedule: seq<nat>, pair: Pair)
    requires pair in Run(cfg, Start(cfg, map[], batches), schedule).rows
    ensures var s := Run(cfg, Start(cfg, map[], batches), schedule);
            exists h :: 0 <= h < |s.log| && ExplainsRow(cfg, s.log[h], pair, s.rows[pair])
  {
    var s := Run(cfg, Start(cfg, map[], batches), schedule);
    RowsAreReplayed(cfg, Start(cfg, map[], batches), schedule);
    EverythingCaused(cfg, Start(cfg, map[], batches), schedule);
    RowHasWrite(map[], s.log, pair);
    var w :| WritesRow(s.log, w, pair, s.rows[pair]);
    assert Caused(cfg, s.log, w);
    var h :| 0 <= h < w && h < |s.log| && s.log[h] == Entry(s.log[w].thread, HookOf(s.log[w].event.attempt));
    assert Caused(cfg, s.log, h);
    assert ExplainsRow(cfg, s.log[h], pair, s.rows[pair]);
  }
}
