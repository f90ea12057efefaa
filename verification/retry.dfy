/** The batch handler's recovery argument: a POST that a database read
    aborted is sent again whole, and the state machine deduplicates what the
    aborted one already delivered. */
module Retry {
  import opened Common
  import opened Routing
  import opened Delivery

  // --- A batch as a flat plan ---------------------------------------------

  /** What a webhook receiver can tell apart: payload clocks aside, which
      rule, receiver and alert, and whether firing or resolved. */
  datatype Delivered = Delivered(pair: Pair, receiver: string, desired: Status)

  function Seen(attempt: Attempt): Delivered
  {
    Delivered(attempt.pair, attempt.payload.receiver, attempt.desired)
  }

  function SeenAll(log: seq<Attempt>): seq<Delivered>
  {
    if log == [] then [] else [Seen(log[0])] + SeenAll(log[1..])
  }

  lemma {:induction false} SeenAllLength(log: seq<Attempt>)
    ensures |SeenAll(log)| == |log|
  {
    if log != [] {
      SeenAllLength(log[1..]);
    }
  }

  lemma {:induction false} SeenAllConcat(a: seq<Attempt>, b: seq<Attempt>)
    ensures SeenAll(a + b) == SeenAll(a) + SeenAll(b)
  {
    if a == [] {
      assert a + b == b;
    } else {
      SeenAllConcat(a[1..], b);
      assert (a + b)[1..] == a[1..] + b && (a + b)[0] == a[0];
      assert SeenAll(a + b) == [Seen(a[0])] + (SeenAll(a[1..]) + SeenAll(b));
    }
  }

  /** The same deliveries in the same order: same rules and fingerprints, same
      receivers, same wanted statuses. */
  ghost predicate SameDeliveries(a: seq<Attempt>, b: seq<Attempt>)
  {
    && |a| == |b|
    && forall k :: 0 <= k < |a| ==>
         a[k].pair == b[k].pair && a[k].payload.receiver == b[k].payload.receiver && a[k].desired == b[k].desired
  }

  lemma {:induction false} SeenAllMeans(a: seq<Attempt>, b: seq<Attempt>)
    ensures SeenAll(a) == SeenAll(b) <==> SameDeliveries(a, b)
    decreases |a|
  {
    SeenAllLength(a);
    SeenAllLength(b);
    if a != [] && b != [] {
      SeenAllMeans(a[1..], b[1..]);
      assert SeenAll(a)[0] == Seen(a[0]) && SeenAll(b)[0] == Seen(b[0]);
      assert SeenAll(a)[1..] == SeenAll(a[1..]) && SeenAll(b)[1..] == SeenAll(b[1..]);
      assert SeenAll(a) == SeenAll(b) <==> Seen(a[0]) == Seen(b[0]) && SeenAll(a[1..]) == SeenAll(b[1..]);
      assert SameDeliveries(a, b) ==> SameDeliveries(a[1..], b[1..]);
      if SameDeliveries(a[1..], b[1..]) && Seen(a[0]) == Seen(b[0]) {
        assert forall k :: 0 < k < |a| ==> a[k] == a[1..][k - 1] && b[k] == b[1..][k - 1];
      }
    }
  }

  /** The deliveries decisions i, i+1, ... stand for, dedup aside. */
  function PlanFrom(cfg: Config, decisions: seq<Rule>, push: Push, i: nat): seq<Delivered>
    requires i <= |decisions|
    decreases |decisions| - i
  {
    if i == |decisions| then []
    else if decisions[i].receiver !in cfg.receivers then PlanFrom(cfg, decisions, push, i + 1)
    else [Seen(AttemptFor(cfg, decisions[i], push, i))] + PlanFrom(cfg, decisions, push, i + 1)
  }

  function PushPlan(cfg: Config, push: Push): seq<Delivered>
  {
    if push.mute == Clear then PlanFrom(cfg, Decided(cfg, push), push, 0) else []
  }

  function Plan(cfg: Config, batch: seq<Push>): seq<Delivered>
  {
    if batch == [] then [] else PushPlan(cfg, batch[0]) + Plan(cfg, batch[1..])
  }

  // --- Running a plan with dedup ------------------------------------------

  type Statuses = map<Pair, Status>

  function StatusesOf(rows: Rows): Statuses
  {
    map pair | pair in rows :: rows[pair].status
  }

  /** The two tables have the same pairs with the same statuses. */
  ghost predicate SameStatuses(rows: Rows, rows': Rows)
  {
    forall pair :: (pair in rows <==> pair in rows') && (pair in rows ==> rows[pair].status == rows'[pair].status)
  }

  lemma StatusesMean(rows: Rows, rows': Rows)
    ensures StatusesOf(rows) == StatusesOf(rows') <==> SameStatuses(rows, rows')
  {
    var st, st' := StatusesOf(rows), StatusesOf(rows');
    if st == st' {
      assert forall pair :: pair in rows <==> pair in st;
      assert forall pair :: pair in rows' <==> pair in st';
    }
    if SameStatuses(rows, rows') {
      assert st.Keys == st'.Keys;
    }
  }

  predicate Skips(st: Statuses, d: Delivered)
  {
    d.pair in st && st[d.pair] == d.desired
  }

  /** The statuses after delivering a plan; a skip changes nothing. */
  function Settle(st: Statuses, plan: seq<Delivered>): Statuses
    decreases |plan|
  {
    if plan == [] then st else Settle(st[plan[0].pair := plan[0].desired], plan[1..])
  }

  /** The part of a plan that is not skipped. */
  function Fresh(st: Statuses, plan: seq<Delivered>): seq<Delivered>
    decreases |plan|
  {
    if plan == [] then []
    else (if Skips(st, plan[0]) then [] else [plan[0]]) + Fresh(st[plan[0].pair := plan[0].desired], plan[1..])
  }

  lemma {:induction false} SettleConcat(st: Statuses, a: seq<Delivered>, b: seq<Delivered>)
    ensures Settle(st, a + b) == Settle(Settle(st, a), b)
    decreases |a|
  {
    if a == [] {
      assert a + b == b;
    } else {
      SettleConcat(st[a[0].pair := a[0].desired], a[1..], b);
      assert (a + b)[1..] == a[1..] + b;
    }
  }

  lemma {:induction false} FreshConcat(st: Statuses, a: seq<Delivered>, b: seq<Delivered>)
    ensures Fresh(st, a + b) == Fresh(st, a) + Fresh(Settle(st, a), b)
    decreases |a|
  {
    if a == [] {
      assert a + b == b && [] + Fresh(st, b) == Fresh(st, b);
    } else {
      var st' := st[a[0].pair := a[0].desired];
      var head := if Skips(st, a[0]) then [] else [a[0]];
      var first, second := Fresh(st', a[1..]), Fresh(Settle(st', a[1..]), b);
      FreshConcat(st', a[1..], b);
      assert (a + b)[1..] == a[1..] + b && (a + b)[0] == a[0];
      assert Fresh(st, a + b) == head + (first + second);
      assert head + (first + second) == (head + first) + second;
    }
  }

  lemma PlanConcat(st: Statuses, a: seq<Delivered>, b: seq<Delivered>)
    ensures Settle(st, a + b) == Settle(Settle(st, a), b)
    ensures Fresh(st, a + b) == Fresh(st, a) + Fresh(Settle(st, a), b)
  {
    SettleConcat(st, a, b);
    FreshConcat(st, a, b);
  }

  /** A plan's final statuses are those it asks for last, and the start's
      elsewhere. */
  function LastAsked(plan: seq<Delivered>, pair: Pair): Option<Status>
  {
    if plan == [] then None
    else
      var later := LastAsked(plan[1..], pair);
      if later.Some? then later else if plan[0].pair == pair then Some(plan[0].desired) else None
  }

  lemma {:induction false} SettleIsLastAsked(st: Statuses, plan: seq<Delivered>)
    ensures forall pair :: var asked := LastAsked(plan, pair);
              if asked.Some? then pair in Settle(st, plan) && Settle(st, plan)[pair] == asked.value
              else (pair in Settle(st, plan) <==> pair in st) && (pair in st ==> Settle(st, plan)[pair] == st[pair])
    decreases |plan|
  {
    if plan != [] {
      SettleIsLastAsked(st[plan[0].pair := plan[0].desired], plan[1..]);
    }
  }

  /** Running a plan again leaves the same statuses, from anywhere on the way. */
  lemma SettleAbsorbsPrefix(st: Statuses, plan: seq<Delivered>, k: nat)
    requires k <= |plan|
    ensures Settle(Settle(st, plan[..k]), plan) == Settle(st, plan)
  {
    var st' := Settle(st, plan[..k]);
    SettleIsLastAsked(st, plan[..k]);
    SettleIsLastAsked(st, plan);
    SettleIsLastAsked(st', plan);
    LastAskedOfPrefix(plan, k);
    assert forall pair :: pair in Settle(st', plan) <==> pair in Settle(st, plan);
  }

  lemma {:induction false} LastAskedOfPrefix(plan: seq<Delivered>, k: nat)
    requires k <= |plan|
    ensures forall pair :: LastAsked(plan[..k], pair).Some? ==> LastAsked(plan, pair).Some?
    decreases |plan|
  {
    if k > 0 {
      LastAskedOfPrefix(plan[1..], k - 1);
      assert plan[..k][1..] == plan[1..][..k - 1];
    }
  }

  /** No pair is asked for both firing and resolved. */
  predicate Consistent(plan: seq<Delivered>)
  {
    forall i, j | 0 <= i < j < |plan| && plan[i].pair == plan[j].pair :: plan[i].desired == plan[j].desired
  }

  /** Every delivery of the plan would be skipped, now and while it runs. */
  lemma {:induction false} NothingFresh(st: Statuses, plan: seq<Delivered>)
    requires forall d :: d in plan ==> Skips(st, d)
    ensures Fresh(st, plan) == [] && Settle(st, plan) == st
    decreases |plan|
  {
    if plan != [] {
      assert plan[0] in plan;
      assert st[plan[0].pair := plan[0].desired] == st;
      NothingFresh(st, plan[1..]);
    }
  }

  lemma {:induction false} ConsistentPlanIsSettled(st: Statuses, plan: seq<Delivered>)
    requires Consistent(plan)
    ensures forall d :: d in plan ==> Skips(Settle(st, plan), d)
    decreases |plan|
  {
    if plan != [] {
      var st' := st[plan[0].pair := plan[0].desired];
      ConsistentPlanIsSettled(st', plan[1..]);
      SettleIsLastAsked(st', plan[1..]);
      LastAskedIsAsked(plan[1..], plan[0].pair);
      forall d | d in plan ensures Skips(Settle(st, plan), d) {
        var i :| 0 <= i < |plan| && plan[i] == d;
        if i > 0 {
          assert d in plan[1..];
        }
      }
    }
  }

  lemma {:induction false} LastAskedIsAsked(plan: seq<Delivered>, pair: Pair)
    ensures var asked := LastAsked(plan, pair);
            asked.Some? ==> exists i :: 0 <= i < |plan| && plan[i].pair == pair && plan[i].desired == asked.value
  {
    if plan != [] {
      LastAskedIsAsked(plan[1..], pair);
      var later := LastAsked(plan[1..], pair);
      if later.Some? {
        var i :| 0 <= i < |plan[1..]| && plan[1..][i].pair == pair && plan[1..][i].desired == later.value;
        assert plan[i + 1] == plan[1..][i];
      }
    }
  }

  /** A plan that asks a pair for both kinds delivers something, whatever the
      statuses it starts from. */
  lemma {:induction false} InconsistentPlanDelivers(st: Statuses, plan: seq<Delivered>, i: nat, j: nat)
    requires i < j < |plan| && plan[i].pair == plan[j].pair && plan[i].desired != plan[j].desired
    ensures Fresh(st, plan) != []
    decreases |plan|
  {
    var st' := st[plan[0].pair := plan[0].desired];
    if i > 0 {
      InconsistentPlanDelivers(st', plan[1..], i - 1, j - 1);
    } else {
      FirstChangeDelivers(st', plan[1..], j - 1);
    }
  }

  lemma {:induction false} FirstChangeDelivers(st: Statuses, plan: seq<Delivered>, j: nat)
    requires j < |plan| && plan[j].pair in st && st[plan[j].pair] != plan[j].desired
    ensures Fresh(st, plan) != []
    decreases |plan|
  {
    if j > 0 && Skips(st, plan[0]) {
      assert st[plan[0].pair := plan[0].desired] == st;
      FirstChangeDelivers(st, plan[1..], j - 1);
    }
  }

  // --- One abort, exactly -------------------------------------------------

  /** Aborting at position k and then running the whole plan settles like one
      run, and delivers what the prefix delivers anew on top of it. */
  lemma AbortRunsPrefixTwice(st: Statuses, plan: seq<Delivered>, k: nat)
    requires k <= |plan|
    ensures var prefix, st' := plan[..k], Settle(st, plan[..k]);
            && Fresh(st, plan) == Fresh(st, prefix) + Fresh(st', plan[k..])
            && Fresh(st', plan) == Fresh(st', prefix) + Fresh(st', plan[k..])
  {
    var prefix, st' := plan[..k], Settle(st, plan[..k]);
    assert plan == prefix + plan[k..];
    PlanConcat(st, prefix, plan[k..]);
    PlanConcat(st', prefix, plan[k..]);
    SettleAbsorbsPrefix(st, prefix, k);
    assert prefix[..k] == prefix;
  }

  lemma ConsistentPrefixIsSkipped(st: Statuses, prefix: seq<Delivered>)
    requires Consistent(prefix)
    ensures Fresh(Settle(st, prefix), prefix) == []
  {
    ConsistentPlanIsSettled(st, prefix);
    NothingFresh(Settle(st, prefix), prefix);
  }

  lemma InconsistentPrefixIsNot(st: Statuses, prefix: seq<Delivered>)
    requires !Consistent(prefix)
    ensures Fresh(Settle(st, prefix), prefix) != []
  {
    var i, j :| 0 <= i < j < |prefix| && prefix[i].pair == prefix[j].pair && prefix[i].desired != prefix[j].desired;
    InconsistentPlanDelivers(Settle(st, prefix), prefix, i, j);
  }

  /** That is exactly what one run delivers when the prefix is consistent, and
      more otherwise. */
  lemma AbortThenWhole(st: Statuses, plan: seq<Delivered>, k: nat)
    requires k <= |plan|
    ensures var prefix, st' := plan[..k], Settle(st, plan[..k]);
            if Consistent(prefix) then Fresh(st, prefix) + Fresh(st', plan) == Fresh(st, plan)
            else |Fresh(st, prefix)| + |Fresh(st', plan)| > |Fresh(st, plan)|
  {
    AbortRunsPrefixTwice(st, plan, k);
    if Consistent(plan[..k]) {
      ConsistentPrefixIsSkipped(st, plan[..k]);
    } else {
      InconsistentPrefixIsNot(st, plan[..k]);
    }
  }

  // --- Any number of aborts, exactly --------------------------------------

  predicate Within(aborts: seq<nat>, plan: seq<Delivered>)
  {
    forall i | 0 <= i < |aborts| :: aborts[i] <= |plan|
  }

  /** The plan aborted at each of `aborts` in turn, then run whole. */
  function Retried(st: Statuses, plan: seq<Delivered>, aborts: seq<nat>): seq<Delivered>
    requires Within(aborts, plan)
    decreases |aborts|
  {
    if aborts == [] then Fresh(st, plan)
    else Fresh(st, plan[..aborts[0]]) + Retried(Settle(st, plan[..aborts[0]]), plan, aborts[1..])
  }

  function RetriedStatuses(st: Statuses, plan: seq<Delivered>, aborts: seq<nat>): Statuses
    requires Within(aborts, plan)
    decreases |aborts|
  {
    if aborts == [] then Settle(st, plan)
    else RetriedStatuses(Settle(st, plan[..aborts[0]]), plan, aborts[1..])
  }

  /** No aborted prefix asks a pair for both kinds. */
  predicate AbortsConsistent(plan: seq<Delivered>, aborts: seq<nat>)
    requires Within(aborts, plan)
  {
    forall i | 0 <= i < |aborts| :: Consistent(plan[..aborts[i]])
  }

  lemma AbortsConsistentStep(plan: seq<Delivered>, aborts: seq<nat>)
    requires Within(aborts, plan) && aborts != []
    ensures Within(aborts[1..], plan)
    ensures AbortsConsistent(plan, aborts) <==> Consistent(plan[..aborts[0]]) && AbortsConsistent(plan, aborts[1..])
  {
    assert forall i :: 1 <= i < |aborts| ==> aborts[i] == aborts[1..][i - 1];
  }

  /** Retries never lose a delivery; they add none exactly when no aborted
      prefix asks a pair for both kinds. The final statuses agree always. */
  lemma {:induction false} RetriedExactly(st: Statuses, plan: seq<Delivered>, aborts: seq<nat>)
    requires Within(aborts, plan)
    ensures RetriedStatuses(st, plan, aborts) == Settle(st, plan)
    ensures AbortsConsistent(plan, aborts) ==> Retried(st, plan, aborts) == Fresh(st, plan)
    ensures !AbortsConsistent(plan, aborts) ==> |Retried(st, plan, aborts)| > |Fresh(st, plan)|
    decreases |aborts|
  {
    if aborts != [] {
      var st' := Settle(st, plan[..aborts[0]]);
      RetriedExactly(st', plan, aborts[1..]);
      SettleAbsorbsPrefix(st, plan, aborts[0]);
      AbortThenWhole(st, plan, aborts[0]);
      AbortsConsistentStep(plan, aborts);
    }
  }

  // --- Batches run plans --------------------------------------------------

  /** The entries of a push's plan reached before a history read fails. */
  function EntriesReachedFrom(cfg: Config, decisions: seq<Rule>, push: Push, i: nat): nat
    requires i <= |decisions|
    decreases |decisions| - i
  {
    if i == |decisions| then 0
    else if decisions[i].receiver !in cfg.receivers then EntriesReachedFrom(cfg, decisions, push, i + 1)
    else if !push.At(i).readOk then 0
    else 1 + EntriesReachedFrom(cfg, decisions, push, i + 1)
  }

  function EntriesReached(cfg: Config, push: Push): nat
  {
    if push.mute == Clear then EntriesReachedFrom(cfg, Decided(cfg, push), push, 0) else 0
  }

  /** The entries of a batch's plan reached before the POST aborts. */
  function Progress(cfg: Config, batch: seq<Push>): nat
    decreases |batch|
  {
    if batch == [] then 0
    else if Processed(cfg, map[], batch[0]).failed then EntriesReached(cfg, batch[0])
    else EntriesReached(cfg, batch[0]) + Progress(cfg, batch[1..])
  }

  /** `attempt` sends the same alert as `final`, wanting the same status, with
      working webhooks and writes; only reads may differ, and the clock. */
  ghost predicate SamePush(attempt: Push, final: Push)
  {
    && attempt.alert == final.alert && attempt.Desired() == final.Desired()
    && (attempt.mute == final.mute || attempt.mute == Unreadable)
    && HooksAndWritesSucceed(attempt)
  }

  ghost predicate SameBatch(attempt: seq<Push>, final: seq<Push>)
  {
    |attempt| == |final| && forall i :: 0 <= i < |final| ==> SamePush(attempt[i], final[i])
  }

  /** No read fails, no webhook fails, no write fails. */
  ghost predicate Faultless(push: Push)
  {
    push.mute != Unreadable && HooksAndWritesSucceed(push) && forall i: nat :: push.At(i).readOk
  }

  ghost predicate AllSameBatch(tries: seq<seq<Push>>, final: seq<Push>)
  {
    forall i :: 0 <= i < |tries| ==> SameBatch(tries[i], final)
  }

  ghost predicate AllFaultless(batch: seq<Push>)
  {
    forall i :: 0 <= i < |batch| ==> Faultless(batch[i])
  }

  lemma PrefixOfConcat(a: seq<Delivered>, b: seq<Delivered>, k: nat)
    requires k <= |b|
    ensures (a + b)[..|a| + k] == a + b[..k]
  {
  }

  /** `result` is what running the first k entries of `plan` from `rows` gives. */
  ghost predicate Runs(rows: Rows, plan: seq<Delivered>, k: nat, result: Dispatch)
  {
    && k <= |plan| && (!result.failed ==> k == |plan|)
    && StatusesOf(result.rows) == Settle(StatusesOf(rows), plan[..k])
    && SeenAll(result.log) == Fresh(StatusesOf(rows), plan[..k])
  }

  /** Running a plan whole and then part of another is running part of both. */
  lemma RunsThen(rows: Rows, plan: seq<Delivered>, first: Dispatch, more: seq<Delivered>, k: nat, second: Dispatch)
    requires Runs(rows, plan, |plan|, first) && Runs(first.rows, more, k, second)
    ensures Runs(rows, plan + more, |plan| + k, second.After(first.log))
  {
    assert plan[..|plan|] == plan;
    PrefixOfConcat(plan, more, k);
    PlanConcat(StatusesOf(rows), plan, more[..k]);
    SeenAllConcat(first.log, second.log);
  }

  function EntryResult(rows: Rows, a: Attempt, at: Time): Dispatch
  {
    if Settled(rows, a.pair, a.desired) then Dispatch(rows, [], false) else Dispatch(Recorded(rows, a, at), [a], false)
  }

  /** One decision with a working webhook and write runs one plan entry. */
  lemma EntryRuns(rows: Rows, a: Attempt, at: Time)
    requires a.ok && a.recorded
    ensures Runs(rows, [Seen(a)], 1, EntryResult(rows, a, at))
  {
    var st := StatusesOf(rows);
    assert [Seen(a)][..1] == [Seen(a)];
    assert StatusesOf(EntryResult(rows, a, at).rows) == st[a.pair := a.desired];
    assert Settle(st, [Seen(a)]) == st[a.pair := a.desired];
  }

  /** A readable decision is its entry followed by the decisions after it. */
  lemma FanOutEntry(cfg: Config, rows: Rows, decisions: seq<Rule>, push: Push, i: nat)
    requires i < |decisions| && decisions[i].receiver in cfg.receivers && push.At(i).readOk
    ensures var one := EntryResult(rows, AttemptFor(cfg, decisions[i], push, i), push.now);
            FannedOut(cfg, rows, decisions, push, i) == FannedOut(cfg, one.rows, decisions, push, i + 1).After(one.log)
  {
    assert forall log: seq<Attempt> :: [] + log == log;
  }

  lemma {:induction false} FanOutRunsPlan(cfg: Config, rows: Rows, decisions: seq<Rule>, attempt: Push, final: Push,
                                          i: nat)
    requires i <= |decisions| && SamePush(attempt, final)
    ensures Runs(rows, PlanFrom(cfg, decisions, final, i), EntriesReachedFrom(cfg, decisions, attempt, i),
                 FannedOut(cfg, rows, decisions, attempt, i))
    decreases |decisions| - i
  {
    if i == |decisions| {
    } else if decisions[i].receiver !in cfg.receivers {
      FanOutRunsPlan(cfg, rows, decisions, attempt, final, i + 1);
    } else if attempt.At(i).readOk {
      var a := AttemptFor(cfg, decisions[i], attempt, i);
      var one := EntryResult(rows, a, attempt.now);
      FanOutEntry(cfg, rows, decisions, attempt, i);
      EntryRuns(rows, a, attempt.now);
      FanOutRunsPlan(cfg, one.rows, decisions, attempt, final, i + 1);
      RunsThen(rows, [Seen(a)], one, PlanFrom(cfg, decisions, final, i + 1),
               EntriesReachedFrom(cfg, decisions, attempt, i + 1), FannedOut(cfg, one.rows, decisions, attempt, i + 1));
    }
  }

  lemma {:induction false} FailureIgnoresRows(cfg: Config, rows: Rows, rows': Rows, push: Push)
    ensures Processed(cfg, rows, push).failed == Processed(cfg, rows', push).failed
  {
    FirstFailedReadBound(cfg, Decided(cfg, push), push, 0);
  }

  lemma ProcessRunsPlan(cfg: Config, rows: Rows, attempt: Push, final: Push)
    requires SamePush(attempt, final)
    ensures Runs(rows, PushPlan(cfg, final), EntriesReached(cfg, attempt), Processed(cfg, rows, attempt))
  {
    if attempt.mute == Clear {
      FanOutRunsPlan(cfg, rows, Decided(cfg, attempt), attempt, final, 0);
    }
  }

  /** A POST aborted by reads runs exactly a prefix of the whole plan. */
  lemma {:induction false} PostRunsPlan(cfg: Config, rows: Rows, attempt: seq<Push>, final: seq<Push>)
    requires SameBatch(attempt, final)
    ensures Runs(rows, Plan(cfg, final), Progress(cfg, attempt), Posted(cfg, rows, attempt))
    decreases |attempt|
  {
    if attempt != [] {
      var first, k := Processed(cfg, rows, attempt[0]), EntriesReached(cfg, attempt[0]);
      var plan, rest := PushPlan(cfg, final[0]), Plan(cfg, final[1..]);
      ProcessRunsPlan(cfg, rows, attempt[0], final[0]);
      FailureIgnoresRows(cfg, rows, map[], attempt[0]);
      if first.failed {
        assert (plan + rest)[..k] == plan[..k];
      } else {
        PostRunsPlan(cfg, first.rows, attempt[1..], final[1..]);
        RunsThen(rows, plan, first, rest, Progress(cfg, attempt[1..]), Posted(cfg, first.rows, attempt[1..]));
      }
    }
  }

  lemma {:induction false} FaultlessReaches(cfg: Config, decisions: seq<Rule>, push: Push, i: nat)
    requires i <= |decisions| && Faultless(push)
    ensures FirstFailedRead(cfg, decisions, push, i) == |decisions|
    decreases |decisions| - i
  {
    if i < |decisions| {
      FaultlessReaches(cfg, decisions, push, i + 1);
    }
  }

  lemma {:induction false} FaultlessPostCompletes(cfg: Config, rows: Rows, batch: seq<Push>)
    requires AllFaultless(batch)
    ensures !Posted(cfg, rows, batch).failed
    decreases |batch|
  {
    if batch != [] {
      FaultlessReaches(cfg, Decided(cfg, batch[0]), batch[0], 0);
      FirstFailedReadBound(cfg, Decided(cfg, batch[0]), batch[0], 0);
      FaultlessPostCompletes(cfg, Processed(cfg, rows, batch[0]).rows, batch[1..]);
    }
  }

  // --- Retry equivalence --------------------------------------------------

  /** Several POSTs, one after another. */
  function PostedInTurn(cfg: Config, rows: Rows, batches: seq<seq<Push>>): (Rows, seq<Attempt>)
    decreases |batches|
  {
    if batches == [] then (rows, [])
    else
      var first := Posted(cfg, rows, batches[0]);
      var rest := PostedInTurn(cfg, first.rows, batches[1..]);
      (rest.0, first.log + rest.1)
  }

  function ProgressOf(cfg: Config, batches: seq<seq<Push>>): (r: seq<nat>)
    ensures |r| == |batches|
    ensures forall i :: 0 <= i < |batches| ==> r[i] == Progress(cfg, batches[i])
  {
    if batches == [] then [] else [Progress(cfg, batches[0])] + ProgressOf(cfg, batches[1..])
  }

  lemma ProgressTail(cfg: Config, tries: seq<seq<Push>>, plan: seq<Delivered>)
    requires tries != [] && Progress(cfg, tries[0]) <= |plan| && Within(ProgressOf(cfg, tries[1..]), plan)
    ensures Within(ProgressOf(cfg, tries), plan)
    ensures ProgressOf(cfg, tries)[1..] == ProgressOf(cfg, tries[1..])
  {
    var ks := ProgressOf(cfg, tries);
    assert ks[1..] == ProgressOf(cfg, tries[1..]);
    assert forall i :: 1 <= i < |ks| ==> ks[i] == ks[1..][i - 1];
  }

  lemma {:induction false} RunsInTurn(cfg: Config, rows: Rows, tries: seq<seq<Push>>, final: seq<Push>)
    requires AllSameBatch(tries, final) && AllFaultless(final)
    ensures var (rows', log) := PostedInTurn(cfg, rows, tries + [final]);
            var plan := Plan(cfg, final);
            && Within(ProgressOf(cfg, tries), plan)
            && StatusesOf(rows') == RetriedStatuses(StatusesOf(rows), plan, ProgressOf(cfg, tries))
            && SeenAll(log) == Retried(StatusesOf(rows), plan, ProgressOf(cfg, tries))
    decreases |tries|
  {
    var plan, all := Plan(cfg, final), tries + [final];
    var first := Posted(cfg, rows, all[0]);
    if tries == [] {
      PostRunsPlan(cfg, rows, final, final);
      FaultlessPostCompletes(cfg, rows, final);
      assert plan[..|plan|] == plan && all[1..] == [];
      assert first.log + [] == first.log;
    } else {
      assert all[1..] == tries[1..] + [final];
      PostRunsPlan(cfg, rows, tries[0], final);
      RunsInTurn(cfg, first.rows, tries[1..], final);
      ProgressTail(cfg, tries, plan);
      SeenAllConcat(first.log, PostedInTurn(cfg, first.rows, all[1..]).1);
    }
  }

  /** Retry equivalence, exactly. A batch aborted by reads any number of
      times and then posted whole leaves the statuses of one uninterrupted
      POST; it makes the same deliveries in the same order if and only if no
      aborted prefix had reached both a firing and a resolved delivery of one
      pair, and otherwise strictly more. */
  lemma RetryEquivalence(cfg: Config, rows: Rows, tries: seq<seq<Push>>, final: seq<Push>)
    requires AllSameBatch(tries, final) && AllFaultless(final)
    ensures var (rows', log) := PostedInTurn(cfg, rows, tries + [final]);
            var once := Posted(cfg, rows, final);
            && Within(ProgressOf(cfg, tries), Plan(cfg, final))
            && SameStatuses(rows', once.rows)
            && (SameDeliveries(log, once.log) <==> AbortsConsistent(Plan(cfg, final), ProgressOf(cfg, tries)))
            && (!SameDeliveries(log, once.log) ==> |log| > |once.log|)
  {
    StatusesMean(PostedInTurn(cfg, rows, tries + [final]).0, Posted(cfg, rows, final).rows);
    SeenAllMeans(PostedInTurn(cfg, rows, tries + [final]).1, Posted(cfg, rows, final).log);
    RunsInTurn(cfg, rows, tries, final);
    PostRunsPlan(cfg, rows, final, final);
    FaultlessPostCompletes(cfg, rows, final);
    var plan := Plan(cfg, final);
    assert plan[..|plan|] == plan;
    RetriedExactly(StatusesOf(rows), plan, ProgressOf(cfg, tries));
    SeenAllLength(PostedInTurn(cfg, rows, tries + [final]).1);
    SeenAllLength(Posted(cfg, rows, final).log);
  }

  /** No fingerprint occurs in the batch both firing and resolved. */
  ghost predicate Unmixed(cfg: Config, batch: seq<Push>)
  {
    forall i, j :: 0 <= i < j < |batch| && Fingerprint(cfg, batch[i]) == Fingerprint(cfg, batch[j])
                   ==> batch[i].Desired() == batch[j].Desired()
  }

  lemma {:induction false} PushPlanIsUniform(cfg: Config, decisions: seq<Rule>, push: Push, i: nat)
    requires i <= |decisions|
    ensures forall d :: d in PlanFrom(cfg, decisions, push, i) ==>
                          d.pair.fingerprint == Fingerprint(cfg, push) && d.desired == push.Desired()
    decreases |decisions| - i
  {
    if i < |decisions| {
      PushPlanIsUniform(cfg, decisions, push, i + 1);
    }
  }

  lemma {:induction false} PlanFromBatch(cfg: Config, batch: seq<Push>)
    ensures forall d :: d in Plan(cfg, batch) ==>
              exists i :: 0 <= i < |batch| && d.pair.fingerprint == Fingerprint(cfg, batch[i])
                          && d.desired == batch[i].Desired()
  {
    if batch != [] {
      PlanFromBatch(cfg, batch[1..]);
      PushPlanIsUniform(cfg, Decided(cfg, batch[0]), batch[0], 0);
      forall d | d in Plan(cfg, batch)
        ensures exists i :: 0 <= i < |batch| && d.pair.fingerprint == Fingerprint(cfg, batch[i])
                            && d.desired == batch[i].Desired()
      {
        if d in PushPlan(cfg, batch[0]) {
          assert d.pair.fingerprint == Fingerprint(cfg, batch[0]);
        } else {
          var i :| 0 <= i < |batch[1..]| && d.pair.fingerprint == Fingerprint(cfg, batch[1..][i])
                   && d.desired == batch[1..][i].Desired();
          assert batch[i + 1] == batch[1..][i];
        }
      }
    }
  }

  lemma UnmixedPlanIsConsistent(cfg: Config, batch: seq<Push>)
    requires Unmixed(cfg, batch)
    ensures Consistent(Plan(cfg, batch))
  {
    var plan := Plan(cfg, batch);
    PlanFromBatch(cfg, batch);
    forall i, j | 0 <= i < j < |plan| && plan[i].pair == plan[j].pair ensures plan[i].desired == plan[j].desired {
      assert plan[i] in plan && plan[j] in plan;
    }
  }

  /** The caller's sufficient condition: an unmixed batch retries exactly. */
  lemma UnmixedBatchRetriesExactly(cfg: Config, rows: Rows, tries: seq<seq<Push>>, final: seq<Push>)
    requires AllSameBatch(tries, final) && AllFaultless(final)
    requires Unmixed(cfg, final)
    ensures SameDeliveries(PostedInTurn(cfg, rows, tries + [final]).1, Posted(cfg, rows, final).log)
    ensures SameStatuses(PostedInTurn(cfg, rows, tries + [final]).0, Posted(cfg, rows, final).rows)
  {
    RetryEquivalence(cfg, rows, tries, final);
    UnmixedPlanIsConsistent(cfg, final);
    ConsistentPrefixes(Plan(cfg, final), ProgressOf(cfg, tries));
  }

  lemma ConsistentPrefixes(plan: seq<Delivered>, aborts: seq<nat>)
    requires Consistent(plan) && Within(aborts, plan)
    ensures AbortsConsistent(plan, aborts)
  {
    forall i | 0 <= i < |aborts| ensures Consistent(plan[..aborts[i]]) {
    }
  }

  // --- The family that does redeliver -------------------------------------

  function Working(id: string, endsAt: Option<Time>, mute: MuteAnswer): Push
  {
    Push(Alert(map["id" := id], 0, endsAt), mute, 5, [])
  }

  lemma OneRulePlan(push: Push)
    requires push.mute == Clear && push.At(0).readOk
    ensures PushPlan(ONE_RULE_CHAIN, push) == [Seen(AttemptFor(ONE_RULE_CHAIN, ONE_RULE, push, 0))]
    ensures EntriesReached(ONE_RULE_CHAIN, push) == 1
    ensures forall rows :: !Processed(ONE_RULE_CHAIN, rows, push).failed
  {
    var decisions := Decided(ONE_RULE_CHAIN, push);
    assert decisions == [ONE_RULE];
    assert PlanFrom(ONE_RULE_CHAIN, decisions, push, 1) == []
           && EntriesReachedFrom(ONE_RULE_CHAIN, decisions, push, 1) == 0;
    FirstFailedReadBound(ONE_RULE_CHAIN, decisions, push, 0);
    assert FirstFailedRead(ONE_RULE_CHAIN, decisions, push, 1) == 1;
  }

  lemma MixedRedelivers(firing: Push, resolved: Push, unread: Push, last: Push)
    requires AllFaultless([firing, resolved, last]) && SamePush(unread, last) && unread.mute == Unreadable
    requires firing.mute == resolved.mute == Clear && firing.alert.labels == resolved.alert.labels
    requires firing.Desired() != resolved.Desired()
    ensures var aborted, final := [firing, resolved, unread], [firing, resolved, last];
            |PostedInTurn(ONE_RULE_CHAIN, map[], [aborted] + [final]).1| > |Posted(ONE_RULE_CHAIN, map[], final).log|
  {
    var aborted, final := [firing, resolved, unread], [firing, resolved, last];
    var plan := Plan(ONE_RULE_CHAIN, final);
    assert Faultless(final[0]) && Faultless(final[1]) && Faultless(final[2]);
    MixedProgress(firing, resolved, unread);
    MixedPlan(firing, resolved, last);
    OneRulePlan(firing);
    OneRulePlan(resolved);
    assert plan[..2][0].desired != plan[..2][1].desired && plan[..2][0].pair == plan[..2][1].pair;
    RetryEquivalence(ONE_RULE_CHAIN, map[], [aborted], final);
    assert !Consistent(plan[..ProgressOf(ONE_RULE_CHAIN, [aborted])[0]]);
  }

  /** An alert pushed firing and then resolved, aborted only after both, is
      delivered both ways again by the retry. */
  lemma MixedBatchRedelivers()
    ensures var firing, resolved := Working("a", None, Clear), Working("a", Some(3), Clear);
            var aborted := [firing, resolved, Working("b", None, Unreadable)];
            var final := [firing, resolved, Working("b", None, Clear)];
            |PostedInTurn(ONE_RULE_CHAIN, map[], [aborted] + [final]).1| > |Posted(ONE_RULE_CHAIN, map[], final).log|
  {
    MixedRedelivers(Working("a", None, Clear), Working("a", Some(3), Clear),
                    Working("b", None, Unreadable), Working("b", None, Clear));
  }

  lemma MixedProgress(first: Push, second: Push, third: Push)
    requires first.mute == second.mute == Clear && third.mute == Unreadable
    requires first.At(0).readOk && second.At(0).readOk
    ensures Progress(ONE_RULE_CHAIN, [first, second, third]) == 2
  {
    OneRulePlan(first);
    OneRulePlan(second);
    assert [first, second, third][1..] == [second, third] && [second, third][1..] == [third];
    assert Progress(ONE_RULE_CHAIN, [third]) == 0;
    assert Progress(ONE_RULE_CHAIN, [second, third]) == 1;
  }

  lemma MixedPlan(first: Push, second: Push, third: Push)
    ensures Plan(ONE_RULE_CHAIN, [first, second, third])
         == PushPlan(ONE_RULE_CHAIN, first) + (PushPlan(ONE_RULE_CHAIN, second) + Plan(ONE_RULE_CHAIN, [third]))
  {
    assert [first, second, third][1..] == [second, third] && [second, third][1..] == [third];
    assert Plan(ONE_RULE_CHAIN, [second, third]) == PushPlan(ONE_RULE_CHAIN, second) + Plan(ONE_RULE_CHAIN, [third]);
  }
}
