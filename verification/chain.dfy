/** The sequential engine: `Chain.Process` and the POST handler's batch loop,
    over the store, the counters and a ghost log of webhook attempts. */
module Engine {
  import opened Common
  import opened Routing
  import opened Delivery
  import opened Mutes
  import opened Observed
  import opened Storage
  import opened Metric
  import opened Ladder

  /** What the world answers during one Process call: the outcomes of the
      upsert and the mute read with their clock readings, the clock reading
      `now`, and the outcomes by decision position. */
  datatype Script = Script(upsertOk: bool, upsertAt: Time, muteReadOk: bool, muteReadAt: Time,
                           now: Time, outcomes: seq<Outcome>)

  datatype Incoming = Incoming(alert: Alert, script: Script)

  /** The push an incoming alert amounts to while these mutes are stored: the
      mute gate closes exactly when a mute whose window covers the time of
      the mute read matches the labels. */
  function PushOf(mutes: MuteTable, incoming: Incoming): (push: Push)
    ensures push.alert == incoming.alert && push.now == incoming.script.now
    ensures push.outcomes == incoming.script.outcomes
    ensures push.mute == Unreadable <==> !incoming.script.muteReadOk
    ensures push.mute == Muted <==> incoming.script.muteReadOk && exists id ::
                && id in mutes
                && mutes[id].startsAt <= incoming.script.muteReadAt <= mutes[id].endsAt
                && Matches(mutes[id].matchers, incoming.alert.labels)
  {
    var s := incoming.script;
    var mute := if !s.muteReadOk then Unreadable
                else if Suppressed(mutes, incoming.alert.labels, s.muteReadAt) then Muted
                else Clear;
    Push(incoming.alert, mute, s.now, s.outcomes)
  }

  function PushesOf(mutes: MuteTable, batch: seq<Incoming>): (r: seq<Push>)
    ensures |r| == |batch|
    ensures forall i :: 0 <= i < |batch| ==> r[i] == PushOf(mutes, batch[i])
  {
    if batch == [] then [] else [PushOf(mutes, batch[0])] + PushesOf(mutes, batch[1..])
  }

  datatype ProcessError = MuteLookup | HistoryLookup(rule: string)

  /** The observed-alerts table after one Process call has started. */
  function Sighted(cfg: Config, observes: bool, alerts: AlertTable, incoming: Incoming): AlertTable
  {
    if observes && incoming.script.upsertOk
    then Upserted(alerts, cfg.Fingerprint(incoming.alert.labels), incoming.alert, incoming.script.upsertAt)
    else alerts
  }

  /** That table after the first n alerts of a batch, muted or not, in order. */
  function SightedUpTo(cfg: Config, observes: bool, alerts: AlertTable, batch: seq<Incoming>, n: nat): AlertTable
    requires n <= |batch|
  {
    if n == 0 then alerts
    else Sighted(cfg, observes, SightedUpTo(cfg, observes, alerts, batch, n - 1), batch[n - 1])
  }

  class Chain {
    const config: Config
    const store: Store
    const metrics: Metrics
    const observes: bool  // whether an AlertStore is wired in
    ghost var attempts: seq<Attempt>

    constructor (config: Config, store: Store, metrics: Metrics, observes: bool)
      ensures this.config == config && this.store == store && this.metrics == metrics && this.observes == observes
      ensures attempts == []
    {
      this.config, this.store, this.metrics, this.observes := config, store, metrics, observes;
      attempts := [];
    }

    /** `HTTPNotifier.notifyWebhook`: builds the payload, reading the clock for
        the top-level status before the per-alert one, and posts it. */
    method Notify(receiver: Receiver, alert: Alert, outcome: Outcome) returns (payload: Payload, ok: bool)
      ensures payload == Payload(receiver.name, AlertStatus(alert, outcome.statusAt),
                                 AlertStatus(alert, outcome.stampAt), config.Fingerprint(alert.labels))
      ensures ok == outcome.hookOk
    {
      var status := AlertStatus(alert, outcome.statusAt);
      var alertStatus := AlertStatus(alert, outcome.stampAt);
      payload := Payload(receiver.name, status, alertStatus, config.Fingerprint(alert.labels));
      ok := outcome.hookOk;
    }

    /** What processing an incoming alert amounts to. */
    function ResultOf(mutes: MuteTable, rows: Rows, incoming: Incoming): Dispatch
    {
      Processed(config, rows, PushOf(mutes, incoming))
    }

    /** The body of Process's loop for a rule whose receiver exists: read the
        last attempt, skip if it is the desired one, else notify, count and
        record. Fails exactly when the read does, having done nothing. */
    method Deliver(rule: Rule, push: Push, i: nat) returns (failed: bool)
      requires rule.receiver in config.receivers
      modifies this`attempts, store`notifications, metrics
      ensures failed <==> !push.At(i).readOk
      ensures failed || Settled(old(store.notifications), PairOf(config, rule, push), push.Desired()) ==>
                && store.notifications == old(store.notifications) && attempts == old(attempts)
                && metrics.counters == TallyFanOut(old(metrics.counters),
                                                   Dispatch(old(store.notifications), [], failed))
      ensures !failed && !Settled(old(store.notifications), PairOf(config, rule, push), push.Desired()) ==>
                var attempt := AttemptFor(config, rule, push, i);
                && store.notifications == Recorded(old(store.notifications), attempt, push.now)
                && attempts == old(attempts) + [attempt]
                && metrics.counters == TallyAttempt(old(metrics.counters), attempt)
      ensures !failed && !Settled(old(store.notifications), PairOf(config, rule, push), push.Desired()) ==>
                var rows, pair, o := store.notifications, PairOf(config, rule, push), push.At(i);
                var firing := push.alert.endsAt.None? || push.now < push.alert.endsAt.value;
                && (o.writeOk ==> pair in rows && rows[pair].at == push.now)
                && (o.writeOk && o.hookOk ==> rows[pair].status == if firing then FiringSent else ResolvedSent)
                && (o.writeOk && !o.hookOk ==> rows[pair].status == if firing then FiringFailed else ResolvedFailed)
    {
      var receiver, outcome := config.receivers[rule.receiver], push.At(i);
      var fp := config.Fingerprint(push.alert.labels);
      var desired := DesiredStatus(push.alert, push.now);

      var prev := store.LastAttempt(rule.name, fp, outcome.readOk);
      if prev.DatabaseError? {
        metrics.IncHistoryLookupFailure();
        return true;
      }
      if prev.Value? && prev.value == desired {
        return false;
      }

      var payload, ok := Notify(receiver, push.alert, outcome);
      var status := desired;
      if ok {
        metrics.IncNotifySuccess();
      } else {
        metrics.IncNotifyFailure();
        status := desired.Failed();
      }
      store.RecordAttempt(rule.name, fp, push.now, status, outcome.writeOk);
      if !outcome.writeOk {
        metrics.IncHistoryWriteFailure();
      }
      attempts := attempts + [Attempt(Pair(rule.name, fp), payload, desired, ok, outcome.writeOk)];
      return false;
    }

    /** The error names the rule of the first decision whose read failed. */
    predicate BlamesFirstFailedRead(err: ProcessError, decisions: seq<Rule>, push: Push)
    {
      var stop := FirstFailedRead(config, decisions, push, 0);
      0 <= stop < |decisions| && err == HistoryLookup(decisions[stop].name)
    }

    /** Process's loop over the decisions. */
    method FanOut(decisions: seq<Rule>, push: Push) returns (err: Option<ProcessError>)
      modifies this`attempts, store`notifications, metrics
      ensures var result := FannedOut(config, old(store.notifications), decisions, push, 0);
              && store.notifications == result.rows
              && attempts == old(attempts) + result.log
              && (err.Some? <==> result.failed)
              && metrics.counters == TallyFanOut(old(metrics.counters), result)
      ensures err.Some? ==> BlamesFirstFailedRead(err.value, decisions, push)
    {
      ghost var done: seq<Attempt> := [];
      for i := 0 to |decisions|
        invariant attempts == old(attempts) + done
        invariant FannedOut(config, old(store.notifications), decisions, push, 0)
               == FannedOut(config, store.notifications, decisions, push, i).After(done)
        invariant metrics.counters == TallyLog(old(metrics.counters), done)
        invariant FirstFailedRead(config, decisions, push, 0) == FirstFailedRead(config, decisions, push, i)
      {
        if decisions[i].receiver !in config.receivers {
          continue;
        }
        ghost var rows := store.notifications;
        var failed := Deliver(decisions[i], push, i);
        if failed {
          assert done + [] == done;
          return Some(HistoryLookup(decisions[i].name));
        }
        if !Settled(rows, PairOf(config, decisions[i], push), push.Desired()) {
          ghost var attempt := AttemptFor(config, decisions[i], push, i);
          AfterTwice(FannedOut(config, store.notifications, decisions, push, i + 1), done, attempt);
          TallyLogStep(old(metrics.counters), done, attempt);
          done := done + [attempt];
        }
      }
      assert done + [] == done;
      return None;
    }

    /** Evaluates one alert through mutes and rules and dispatches what
        matches. An error surfaces if and only if a read failed. */
    method Process(incoming: Incoming) returns (err: Option<ProcessError>)
      modifies this`attempts, store`notifications, store`alerts, metrics
      ensures var result := ResultOf(store.mutes, old(store.notifications), incoming);
              && store.notifications == result.rows
              && attempts == old(attempts) + result.log
              && (err.Some? <==> result.failed)
              && metrics.counters == TallyProcess(old(metrics.counters), PushOf(store.mutes, incoming), result)
      ensures store.alerts == Sighted(config, observes, old(store.alerts), incoming)
      ensures !observes || !incoming.script.upsertOk ==> store.alerts == old(store.alerts)
      ensures err.Some? ==>
                var push := PushOf(store.mutes, incoming);
                if push.mute == Unreadable then err.value == MuteLookup
                else BlamesFirstFailedRead(err.value, Decided(config, push), push)
      ensures !incoming.script.muteReadOk ==>
                && err == Some(MuteLookup)
                && store.notifications == old(store.notifications) && attempts == old(attempts)
      ensures incoming.script.muteReadOk && (exists id ::
                  && id in store.mutes
                  && store.mutes[id].startsAt <= incoming.script.muteReadAt <= store.mutes[id].endsAt
                  && Matches(store.mutes[id].matchers, incoming.alert.labels)) ==>
                && err.None?
                && store.notifications == old(store.notifications) && attempts == old(attempts)
                && metrics.counters == old(metrics.counters)
      ensures incoming.script.muteReadOk && !(exists id ::
                  && id in store.mutes
                  && store.mutes[id].startsAt <= incoming.script.muteReadAt <= store.mutes[id].endsAt
                  && Matches(store.mutes[id].matchers, incoming.alert.labels)) ==>
                var push := Push(incoming.alert, Clear, incoming.script.now, incoming.script.outcomes);
                var result := FannedOut(config, old(store.notifications), Decided(config, push), push, 0);
                && store.notifications == result.rows && attempts == old(attempts) + result.log
                && (err.Some? <==> result.failed)
    {
      var alert, script := incoming.alert, incoming.script;
      if observes {
        store.UpsertAlert(alert, config.Fingerprint(alert.labels), script.upsertAt, script.upsertOk);
      }

      var muted := store.MatchesAlert(alert.labels, script.muteReadAt, script.muteReadOk);
      if !muted.Value? {
        metrics.IncMuteLookupFailure();
        assert attempts == old(attempts) + [];
        return Some(MuteLookup);
      }
      if muted.value {
        assert attempts == old(attempts) + [];
        return None;
      }

      var decisions := Evaluate(config.rules, alert.labels);
      var push := Push(alert, Clear, script.now, script.outcomes);
      assert push == PushOf(store.mutes, incoming);
      err := FanOut(decisions, push);
    }

    /** The body of the POST handler's loop: counts the alert, then processes
        it. */
    method Receive(incoming: Incoming) returns (failed: bool)
      modifies this`attempts, store`notifications, store`alerts, metrics
      ensures var push := PushOf(store.mutes, incoming);
              var result := Processed(config, old(store.notifications), push);
              && store.notifications == result.rows
              && attempts == old(attempts) + result.log
              && failed == result.failed
              && metrics.counters == TallyReceived(config, old(metrics.counters), old(store.notifications), push)
      ensures store.alerts == Sighted(config, observes, old(store.alerts), incoming)
    {
      metrics.IncAlertsReceived();
      var err := Process(incoming);
      failed := err.Some?;
    }

    /** The POST handler: counts and processes each alert, and answers 500 at
        the first Process error; `handled` alerts were counted and sighted. */
    method PostBatch(batch: seq<Incoming>) returns (code: nat, ghost handled: nat)
      modifies this`attempts, store`notifications, store`alerts, metrics
      ensures var pushes := PushesOf(store.mutes, batch);
              var result := Posted(config, old(store.notifications), pushes);
              && store.notifications == result.rows
              && attempts == old(attempts) + result.log
              && code == (if result.failed then 500 else 200)
              && metrics.counters == TallyPost(config, old(metrics.counters), old(store.notifications), pushes)
      ensures handled <= |batch| && (code == 200 ==> handled == |batch|)
      ensures CountsAlerts(old(metrics.counters), metrics.counters, handled)
      ensures store.alerts == SightedUpTo(config, observes, old(store.alerts), batch, handled)
    {
      ghost var pushes, rows, counters := PushesOf(store.mutes, batch), store.notifications, metrics.counters;
      ghost var done: seq<Attempt> := [];
      PostStart(config, rows, counters, pushes);
      assert attempts + [] == attempts;
      var failed := false;
      handled := 0;
      for i := 0 to |batch|
        invariant attempts == old(attempts) + done && !failed && handled == i
        invariant PostedUpTo(config, rows, counters, pushes, i, store.notifications, metrics.counters, done)
        invariant store.alerts == SightedUpTo(config, observes, old(store.alerts), batch, i)
      {
        ghost var made := Processed(config, store.notifications, pushes[i]).log;
        PostStep(config, rows, counters, pushes, i, store.notifications, metrics.counters, done);
        Associates(old(attempts), done, made);
        done := done + made;
        handled := i + 1;
        failed := Receive(batch[i]);
        if failed {
          break;
        }
      }
      if !failed {
        PostEnd(config, rows, counters, pushes, store.notifications, metrics.counters, done);
      }
      code := if failed then 500 else 200;
    }
  }

  lemma ReceivedIsCounted(cfg: Config, c: Counters, rows: Rows, push: Push)
    ensures TallyReceived(cfg, c, rows, push).alertsReceived == c.alertsReceived + 1
  {
    LogConservation(c.(alertsReceived := c.alertsReceived + 1), Processed(cfg, rows, push).log);
  }

  lemma AfterTwice(rest: Dispatch, done: seq<Attempt>, attempt: Attempt)
    ensures rest.After([attempt]).After(done) == rest.After(done + [attempt])
  {
    assert done + ([attempt] + rest.log) == (done + [attempt]) + rest.log;
  }

  lemma TallyLogStep(c: Counters, done: seq<Attempt>, attempt: Attempt)
    ensures TallyLog(c, done + [attempt]) == TallyAttempt(TallyLog(c, done), attempt)
  {
    TallyLogConcat(c, done, [attempt]);
  }

  predicate CountsAlerts(c0: Counters, c: Counters, n: nat)
  {
    c.alertsReceived == c0.alertsReceived + n
  }

  /** After the first i alerts the batch has reached this table and these
      counters, having made these attempts, and the rest is still to do. */
  ghost predicate PostedUpTo(cfg: Config, rows0: Rows, c0: Counters, pushes: seq<Push>, i: nat,
                             rows: Rows, c: Counters, done: seq<Attempt>)
    requires i <= |pushes|
  {
    && Posted(cfg, rows0, pushes) == Posted(cfg, rows, pushes[i..]).After(done)
    && TallyPost(cfg, c0, rows0, pushes) == TallyPost(cfg, c, rows, pushes[i..])
    && CountsAlerts(c0, c, i)
  }

  /** The batch has ended, after n alerts, with this table, these counters and
      these attempts. */
  ghost predicate PostEnded(cfg: Config, rows0: Rows, c0: Counters, pushes: seq<Push>, n: nat,
                            rows: Rows, c: Counters, done: seq<Attempt>, failed: bool)
  {
    && Posted(cfg, rows0, pushes) == Dispatch(rows, done, failed)
    && TallyPost(cfg, c0, rows0, pushes) == c
    && CountsAlerts(c0, c, n)
  }

  lemma PostStart(cfg: Config, rows0: Rows, c0: Counters, pushes: seq<Push>)
    ensures PostedUpTo(cfg, rows0, c0, pushes, 0, rows0, c0, [])
  {
    assert pushes[0..] == pushes;
    assert [] + Posted(cfg, rows0, pushes).log == Posted(cfg, rows0, pushes).log;
  }

  lemma PostStep(cfg: Config, rows0: Rows, c0: Counters, pushes: seq<Push>, i: nat,
                 rows: Rows, c: Counters, done: seq<Attempt>)
    requires i < |pushes| && PostedUpTo(cfg, rows0, c0, pushes, i, rows, c, done)
    ensures var first, d := Processed(cfg, rows, pushes[i]), TallyReceived(cfg, c, rows, pushes[i]);
            if first.failed then PostEnded(cfg, rows0, c0, pushes, i + 1, first.rows, d, done + first.log, true)
            else PostedUpTo(cfg, rows0, c0, pushes, i + 1, first.rows, d, done + first.log)
  {
    var first := Processed(cfg, rows, pushes[i]);
    ReceivedIsCounted(cfg, c, rows, pushes[i]);
    assert pushes[i..][1..] == pushes[i + 1..];
    assert done + (first.log + Posted(cfg, first.rows, pushes[i + 1..]).log)
        == (done + first.log) + Posted(cfg, first.rows, pushes[i + 1..]).log;
  }

  lemma PostEnd(cfg: Config, rows0: Rows, c0: Counters, pushes: seq<Push>, rows: Rows, c: Counters, done: seq<Attempt>)
    requires PostedUpTo(cfg, rows0, c0, pushes, |pushes|, rows, c, done)
    ensures PostEnded(cfg, rows0, c0, pushes, |pushes|, rows, c, done, false)
  {
    assert done + [] == done;
  }

  // --- A POST and the mutes -----------------------------------------------

  /** The mute read succeeded, and no mute whose window covers it matches. */
  ghost predicate Unmuted(mutes: MuteTable, incoming: Incoming)
  {
    && incoming.script.muteReadOk
    && forall id ::
         && id in mutes && mutes[id].startsAt <= incoming.script.muteReadAt <= mutes[id].endsAt ==>
           !Matches(mutes[id].matchers, incoming.alert.labels)
  }

  /** The attempt is for this alert, under a rule it is routed to. */
  ghost predicate IsFor(cfg: Config, attempt: Attempt, alert: Alert)
  {
    && attempt.pair.fingerprint == cfg.Fingerprint(alert.labels)
    && exists rule :: rule in Routed(cfg.rules, alert.labels) && rule.name == attempt.pair.rule
  }

  lemma ProcessedIsUnmuted(cfg: Config, rows: Rows, mutes: MuteTable, incoming: Incoming, attempt: Attempt)
    requires attempt in Processed(cfg, rows, PushOf(mutes, incoming)).log
    ensures Unmuted(mutes, incoming) && IsFor(cfg, attempt, incoming.alert)
  {
    var push := PushOf(mutes, incoming);
    assert push.mute == Clear;
    var decisions := Decided(cfg, push);
    AttemptsHavePositions(cfg, rows, decisions, push, 0);
    var j: nat :| j < |decisions| && decisions[j].receiver in cfg.receivers
                  && attempt == AttemptFor(cfg, decisions[j], push, j);
    assert decisions[j] in decisions;
  }

  /** Whatever is attempted during a POST is for an alert of its batch whose
      mute read succeeded and found no matching mute. */
  lemma {:induction false} AttemptsAreUnmuted(cfg: Config, rows: Rows, mutes: MuteTable, batch: seq<Incoming>,
                                              attempt: Attempt)
    requires attempt in Posted(cfg, rows, PushesOf(mutes, batch)).log
    ensures exists i :: 0 <= i < |batch| && Unmuted(mutes, batch[i]) && IsFor(cfg, attempt, batch[i].alert)
    decreases |batch|
  {
    var first := Processed(cfg, rows, PushOf(mutes, batch[0]));
    assert PushesOf(mutes, batch)[1..] == PushesOf(mutes, batch[1..]);
    if attempt in first.log {
      ProcessedIsUnmuted(cfg, rows, mutes, batch[0], attempt);
    } else {
      AttemptsAreUnmuted(cfg, first.rows, mutes, batch[1..], attempt);
      var i :| 0 <= i < |batch[1..]| && Unmuted(mutes, batch[1..][i]) && IsFor(cfg, attempt, batch[1..][i].alert);
      assert batch[i + 1] == batch[1..][i];
    }
  }

  // --- The alerts table is the fold of the sightings ----------------------

  /** The sighting an incoming alert adds, if its upsert succeeds. */
  function SightingOf(cfg: Config, incoming: Incoming): seq<Sighting>
  {
    var alert, script := incoming.alert, incoming.script;
    if script.upsertOk then [Sighting(cfg.Fingerprint(alert.labels), alert, script.upsertAt)] else []
  }

  /** Those of the first n alerts of a batch. */
  function SightingsUpTo(cfg: Config, batch: seq<Incoming>, n: nat): seq<Sighting>
    requires n <= |batch|
  {
    if n == 0 then [] else SightingsUpTo(cfg, batch, n - 1) + SightingOf(cfg, batch[n - 1])
  }

  lemma SightedOneMore(cfg: Config, earlier: seq<Sighting>, before: seq<Sighting>, incoming: Incoming)
    ensures Sighted(cfg, true, Table(earlier + before), incoming)
         == Table(earlier + (before + SightingOf(cfg, incoming)))
  {
    var sightings, more := earlier + before, SightingOf(cfg, incoming);
    assert earlier + (before + more) == sightings + more;
    if incoming.script.upsertOk {
      assert (sightings + more)[..|sightings|] == sightings;
    } else {
      assert sightings + more == sightings;
    }
  }

  /** What POSTs leave in the alerts table is the fold of all sightings since
      it was empty, so `TableIsFold` and the lemmas after it speak of it. */
  lemma {:induction false} SightedIsFold(cfg: Config, earlier: seq<Sighting>, batch: seq<Incoming>, n: nat)
    requires n <= |batch|
    ensures SightedUpTo(cfg, true, Table(earlier), batch, n) == Table(earlier + SightingsUpTo(cfg, batch, n))
  {
    if n == 0 {
      assert earlier + [] == earlier;
    } else {
      SightedIsFold(cfg, earlier, batch, n - 1);
      SightedOneMore(cfg, earlier, SightingsUpTo(cfg, batch, n - 1), batch[n - 1]);
    }
  }
}
