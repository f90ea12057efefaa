/** The three readings of the firing/resolved boundary along one Process
    call: the desired status at `now`, then for every decision the payload's
    top-level status and its per-alert status, each from a later clock. */
module Ladder {
  import opened Common
  import opened Routing
  import opened Delivery

  /** Clock readings never go back along the call. */
  predicate MonotoneClock(push: Push)
  {
    && (forall o | o in push.outcomes :: push.now <= o.statusAt <= o.stampAt)
    && (forall i, j | 0 <= i < j < |push.outcomes| :: push.outcomes[i].stampAt <= push.outcomes[j].statusAt)
  }

  /** The readings at decision position i come after `now`, in order. */
  predicate InOrder(push: Push, i: nat)
  {
    push.now <= push.At(i).statusAt <= push.At(i).stampAt
  }

  lemma MonotoneAt(push: Push)
    requires MonotoneClock(push)
    ensures forall i: nat :: InOrder(push, i)
    ensures forall i: nat, j: nat :: i < j ==> push.At(i).stampAt <= push.At(j).statusAt
  {
    forall i: nat, j: nat | i < j ensures push.At(i).stampAt <= push.At(j).statusAt {
      if i < |push.outcomes| <= j {
        var last := |push.outcomes| - 1;
        assert push.outcomes[last] in push.outcomes;
        assert i < last ==> push.outcomes[i].stampAt <= push.outcomes[last].statusAt;
      }
    }
  }

  predicate OnLadder(attempt: Attempt)
  {
    && (attempt.desired == ResolvedSent ==> attempt.payload.status == Resolved)
    && (attempt.payload.status == Resolved ==> attempt.payload.alertStatus == Resolved)
  }

  /** A firing attempt carries a resolved payload exactly when the alert ends
      between the decision and the send; and the payload's two statuses
      differ exactly when it ends between the two readings. */
  lemma WhenPayloadRunsAhead(cfg: Config, rule: Rule, push: Push, i: nat)
    requires rule.receiver in cfg.receivers && InOrder(push, i)
    ensures var attempt, o := AttemptFor(cfg, rule, push, i), push.At(i);
            && OnLadder(attempt)
            && (attempt.desired == FiringSent && attempt.payload.status == Resolved
                <==> push.alert.endsAt.Some? && push.now < push.alert.endsAt.value <= o.statusAt)
            && (attempt.payload.status != attempt.payload.alertStatus
                <==> push.alert.endsAt.Some? && o.statusAt < push.alert.endsAt.value <= o.stampAt)
  {
  }

  // --- Both really happen -------------------------------------------------

  /** An alert that ends at 6, decided on at 5 and stamped at 6, with the
      top-level status read at the given time. */
  function EndsWhileSent(statusAt: Time): Push
  {
    Push(Alert(map["id" := "a"], 0, Some(6)), Clear, 5, [Outcome(true, true, true, statusAt, 6)])
  }

  lemma OneDelivery(statusAt: Time)
    ensures var push := EndsWhileSent(statusAt);
            var attempt := AttemptFor(ONE_RULE_CHAIN, ONE_RULE, push, 0);
            && Processed(ONE_RULE_CHAIN, map[], push)
               == Dispatch(map[attempt.pair := Row(5, FiringSent)], [attempt], false)
            && attempt.payload.status == (if statusAt < 6 then Firing else Resolved)
            && attempt.payload.alertStatus == Resolved
            && attempt.desired == FiringSent && attempt.pair == Pair("all", "a")
  {
    var push := EndsWhileSent(statusAt);
    assert map["id" := "a"]["id"] != map["id" := "b"]["id"];
    assert ONE_RULE_CHAIN.Fingerprint(push.alert.labels) == "a";
    var attempt := AttemptFor(ONE_RULE_CHAIN, ONE_RULE, push, 0);
    assert Matches(ONE_RULE.conditions, push.alert.labels);
    assert Decided(ONE_RULE_CHAIN, push) == [ONE_RULE];
    assert push.At(0) == push.outcomes[0];
    assert attempt.Outcome() == FiringSent;
    var rows := Recorded(map[], attempt, 5);
    assert FannedOut(ONE_RULE_CHAIN, rows, [ONE_RULE], push, 1) == Dispatch(rows, [], false);
    assert [attempt] + [] == [attempt];
  }

  /** A payload whose two statuses differ: firing, around a resolved alert. */
  lemma StatusesDiffer()
    ensures var push := EndsWhileSent(5);
            var log := Processed(ONE_RULE_CHAIN, map[], push).log;
            MonotoneClock(push) && |log| == 1 && log[0].payload.status == Firing
            && log[0].payload.alertStatus == Resolved
  {
    OneDelivery(5);
  }

  /** A resolved payload, sent for a firing decision and recorded as such. */
  lemma ResolvedSentAsFiring()
    ensures var push := EndsWhileSent(6);
            var result := Processed(ONE_RULE_CHAIN, map[], push);
            && MonotoneClock(push) && |result.log| == 1 && result.log[0].payload.status == Resolved
            && result.rows == map[Pair("all", "a") := Row(5, FiringSent)]
  {
    OneDelivery(6);
  }

  // --- Along the call -----------------------------------------------------

  /** Every attempt in the log was made at some decision position from i on. */
  lemma {:induction false} AttemptsHavePositions(cfg: Config, rows: Rows, decisions: seq<Rule>, push: Push, i: nat)
    requires i <= |decisions|
    ensures forall a :: a in FannedOut(cfg, rows, decisions, push, i).log ==>
              exists j: nat :: i <= j < |decisions| && decisions[j].receiver in cfg.receivers
                               && a == AttemptFor(cfg, decisions[j], push, j)
    decreases |decisions| - i
  {
    if i < |decisions| {
      AttemptsHavePositions(cfg, rows, decisions, push, i + 1);
      if decisions[i].receiver in cfg.receivers {
        AttemptsHavePositions(cfg, Recorded(rows, AttemptFor(cfg, decisions[i], push, i), push.now), decisions, push,
                              i + 1);
      }
    }
  }

  /** Once one payload says resolved, every later one says so too. */
  predicate NeverBackToFiring(log: seq<Attempt>)
  {
    forall k, l | 0 <= k < l < |log| && log[k].payload.alertStatus == Resolved :: log[l].payload.status == Resolved
  }

  lemma {:induction false} LadderFrom(cfg: Config, rows: Rows, decisions: seq<Rule>, push: Push, i: nat)
    requires i <= |decisions| && MonotoneClock(push)
    ensures var log := FannedOut(cfg, rows, decisions, push, i).log;
            NeverBackToFiring(log) && forall a :: a in log ==> OnLadder(a)
    decreases |decisions| - i
  {
    if i < |decisions| {
      var rule := decisions[i];
      LadderFrom(cfg, rows, decisions, push, i + 1);
      if rule.receiver in cfg.receivers {
        var attempt := AttemptFor(cfg, rule, push, i);
        var rows' := Recorded(rows, attempt, push.now);
        MonotoneAt(push);
        WhenPayloadRunsAhead(cfg, rule, push, i);
        LadderFrom(cfg, rows', decisions, push, i + 1);
        AttemptsHavePositions(cfg, rows', decisions, push, i + 1);
        var rest := FannedOut(cfg, rows', decisions, push, i + 1).log;
        if attempt.payload.alertStatus == Resolved {
          forall l | 0 <= l < |rest| ensures rest[l].payload.status == Resolved {
            assert rest[l] in rest;
            var j: nat :| i + 1 <= j < |decisions| && decisions[j].receiver in cfg.receivers
                          && rest[l] == AttemptFor(cfg, decisions[j], push, j);
            assert push.At(i).stampAt <= push.At(j).statusAt;
          }
        }
      }
    }
  }

  /** Attempt `a` was made at decision position j, whose top-level status was
      read at or after the alert's end. */
  predicate ReadAfterEnd(cfg: Config, push: Push, a: Attempt, j: nat)
  {
    && j < |Decided(cfg, push)| && Decided(cfg, push)[j].receiver in cfg.receivers
    && a == AttemptFor(cfg, Decided(cfg, push)[j], push, j)
    && push.alert.endsAt.Some? && push.alert.endsAt.value <= push.At(j).statusAt
  }

  /** The ladder over a whole Process call. A firing attempt with a resolved
      payload was decided on before the alert's end and sent after it. */
  lemma StatusLadder(cfg: Config, rows: Rows, push: Push)
    requires MonotoneClock(push)
    ensures var log := Processed(cfg, rows, push).log;
            && NeverBackToFiring(log)
            && (forall a :: a in log ==> OnLadder(a))
            && (forall a :: a in log && a.desired == FiringSent && a.payload.status == Resolved ==>
                  push.alert.endsAt.Some? && push.now < push.alert.endsAt.value
                  && exists j: nat :: ReadAfterEnd(cfg, push, a, j))
  {
    if push.mute == Clear {
      var decisions := Decided(cfg, push);
      MonotoneAt(push);
      LadderFrom(cfg, rows, decisions, push, 0);
      AttemptsHavePositions(cfg, rows, decisions, push, 0);
      forall a | a in Processed(cfg, rows, push).log && a.desired == FiringSent && a.payload.status == Resolved
        ensures push.alert.endsAt.Some? && push.now < push.alert.endsAt.value
                && exists j: nat :: ReadAfterEnd(cfg, push, a, j)
      {
        var j: nat :| j < |decisions| && decisions[j].receiver in cfg.receivers
                      && a == AttemptFor(cfg, decisions[j], push, j);
        WhenPayloadRunsAhead(cfg, decisions[j], push, j);
        assert ReadAfterEnd(cfg, push, a, j);
      }
    }
  }
}
