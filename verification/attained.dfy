/** The same-alert bound is attained: for every number of handlers and every
    count from one to that number, some interleaving delivers just so often. */
module Attained {
  import opened Common
  import opened Routing
  import opened Delivery
  import opened Handlers
  import opened Conservation
  import opened Retry
  import opened Serializable
  import opened SameAlert
  import opened Progress

  // --- Schedules ----------------------------------------------------------

  lemma {:induction false} CountConcat(a: seq<nat>, b: seq<nat>, t: nat)
    ensures Count(a + b, t) == Count(a, t) + Count(b, t)
    decreases |b|
  {
    if b == [] {
      assert a + b == a;
    } else {
      var n := |b| - 1;
      assert (a + b)[..|a + b| - 1] == a + b[..n];
      CountConcat(a, b[..n], t);
    }
  }

  /** Each of the first n threads runs to its end, one after another. */
  function Turns(cfg: Config, batches: seq<seq<Push>>, n: nat): seq<nat>
    requires n <= |batches|
  {
    if n == 0 then [] else Turns(cfg, batches, n - 1) + Turn(n - 1, StepsFrom(cfg, batches[n - 1], 0))
  }

  lemma {:induction false} TurnsSuffice(cfg: Config, batches: seq<seq<Push>>, n: nat)
    requires n <= |batches|
    ensures forall t :: 0 <= t < n ==> Count(Turns(cfg, batches, n), t) >= StepsFrom(cfg, batches[t], 0)
  {
    if n > 0 {
      TurnsSuffice(cfg, batches, n - 1);
      var before, last := Turns(cfg, batches, n - 1), Turn(n - 1, StepsFrom(cfg, batches[n - 1], 0));
      assert Turns(cfg, batches, n) == before + last;
      forall t | 0 <= t < n ensures Count(before + last, t) >= StepsFrom(cfg, batches[t], 0) {
        CountConcat(before, last, t);
      }
    }
  }

  // --- Up to the brink ----------------------------------------------------

  /** A faultless push whose labels are routed to the pair's rule. */
  ghost predicate Delivers(cfg: Config, push: Push, pair: Pair)
  {
    Faultless(push) && WantsNow(cfg, push, pair)
  }

  /** One while the thread is about to call the pair's webhook. */
  function Owes(cfg: Config, pair: Pair): Thread -> nat
  {
    (th: Thread) =>
      One(th.pc.Notifying? && th.k < |th.batch| && th.pc.i < |Decided(cfg, th.batch[th.k])|
          && PairOf(cfg, Decided(cfg, th.batch[th.k])[th.pc.i], th.batch[th.k]) == pair)
  }

  /** The thread's one call has not yet called the pair's webhook. */
  predicate Ahead(cfg: Config, th: Thread, push: Push, pair: Pair)
  {
    th.batch == [push] && th.k == 0 && !MayHaveHooked(cfg, th, pair)
  }

  /** A step short of the brink stays ahead and leaves the pair alone. */
  lemma ActStaysAhead(cfg: Config, th: Thread, rows: Rows, push: Push, pair: Pair)
    requires ChainValid(cfg.rules, cfg.receivers) && Delivers(cfg, push, pair)
    requires WellFormedThread(cfg, th) && Ahead(cfg, th, push, pair) && Owes(cfg, pair)(th) == 0 && pair !in rows
    ensures var act := ActOf(cfg, th, rows);
            Ahead(cfg, act.thread, push, pair) && !IsHookOn(act.event, pair) && pair !in Applied(rows, act.event)
  {
    ValidChainFansOutDistinctly(cfg.rules, cfg.receivers, push.alert.labels);
    WantedIsNamed(cfg, push, pair);
    if th.pc.Reading? {
      ReadStaysAhead(cfg, th, rows, push, pair);
    }
  }

  lemma ReadStaysAhead(cfg: Config, th: Thread, rows: Rows, push: Push, pair: Pair)
    requires ChainValid(cfg.rules, cfg.receivers) && Delivers(cfg, push, pair)
    requires WellFormedThread(cfg, th) && Ahead(cfg, th, push, pair) && th.pc.Reading? && pair !in rows
    ensures var act := ActOf(cfg, th, rows);
            Ahead(cfg, act.thread, push, pair) && !IsHookOn(act.event, pair) && pair !in Applied(rows, act.event)
  {
    var decisions := Decided(cfg, push);
    ValidChainFansOutDistinctly(cfg.rules, cfg.receivers, push.alert.labels);
    WantedIsNamed(cfg, push, pair);
    assert th.pc.i < |decisions|;
    assert push.At(th.pc.i).readOk && decisions[th.pc.i] in decisions;
  }

  lemma RunOne(cfg: Config, s: System, t: nat)
    requires WellFormed(cfg, s)
    ensures Run(cfg, s, [t]) == Step(cfg, s, t)
  {
    assert [t][..0] == [];
  }

  /** Only thread t has moved, nobody has called the pair's webhook, and the
      pair has no row yet. */
  ghost predicate MovedOnly(s: System, s': System, t: nat, pair: Pair)
    requires t < |s.threads|
  {
    && |s'.threads| == |s.threads| && s'.threads == s.threads[t := s'.threads[t]]
    && pair !in s'.rows && HooksOn(s'.log, pair) == HooksOn(s.log, pair)
  }

  lemma StepStaysAhead(cfg: Config, s: System, t: nat, push: Push, pair: Pair) returns (next: System)
    requires ChainValid(cfg.rules, cfg.receivers) && Delivers(cfg, push, pair)
    requires WellFormed(cfg, s) && t < |s.threads| && pair !in s.rows
    requires Ahead(cfg, s.threads[t], push, pair) && Owes(cfg, pair)(s.threads[t]) == 0
    ensures WellFormed(cfg, next) && next == Run(cfg, s, [t]) && MovedOnly(s, next, t, pair)
    ensures Ahead(cfg, next.threads[t], push, pair) && StepsLeft(cfg, next.threads[t]) < StepsLeft(cfg, s.threads[t])
  {
    RunOne(cfg, s, t);
    next := Step(cfg, s, t);
    ActStaysAhead(cfg, s.threads[t], s.rows, push, pair);
    ActGetsOn(cfg, s.threads[t], s.rows);
    HooksOnLogged(s.log, t, ActOf(cfg, s.threads[t], s.rows).event, pair);
  }

  /** Some steps of thread t bring it to the brink of the pair's webhook. */
  lemma {:induction false} ReachBrink(cfg: Config, s: System, t: nat, push: Push, pair: Pair)
    returns (schedule: seq<nat>)
    requires ChainValid(cfg.rules, cfg.receivers) && Delivers(cfg, push, pair)
    requires WellFormed(cfg, s) && t < |s.threads| && pair !in s.rows && Ahead(cfg, s.threads[t], push, pair)
    ensures var s' := Run(cfg, s, schedule);
            MovedOnly(s, s', t, pair) && Ahead(cfg, s'.threads[t], push, pair) && Owes(cfg, pair)(s'.threads[t]) == 1
    decreases StepsLeft(cfg, s.threads[t])
  {
    schedule := [];
    if Owes(cfg, pair)(s.threads[t]) == 0 {
      var next := StepStaysAhead(cfg, s, t, push, pair);
      var rest := ReachBrink(cfg, next, t, push, pair);
      RunConcat(cfg, s, [t], rest);
      schedule := [t] + rest;
    }
  }

  // --- Some wait at the brink ---------------------------------------------

  /** The first n handlers are about to deliver, the others have not begun. */
  ghost predicate Waiting(cfg: Config, s: System, pushes: seq<Push>, n: nat, pair: Pair)
    requires n <= |pushes|
  {
    && pair !in s.rows && HooksOn(s.log, pair) == 0 && |s.threads| == |pushes|
    && (forall t :: 0 <= t < n ==> Ahead(cfg, s.threads[t], pushes[t], pair) && Owes(cfg, pair)(s.threads[t]) == 1)
    && (forall t :: n <= t < |pushes| ==> s.threads[t] == Thread([pushes[t]], 0, Next))
  }

  lemma OneMoreWaits(cfg: Config, s: System, schedule: seq<nat>, pushes: seq<Push>, n: nat, pair: Pair)
    returns (longer: seq<nat>)
    requires ChainValid(cfg.rules, cfg.receivers) && WellFormed(cfg, s) && n < |pushes|
             && Delivers(cfg, pushes[n], pair)
    requires Waiting(cfg, Run(cfg, s, schedule), pushes, n, pair)
    ensures Waiting(cfg, Run(cfg, s, longer), pushes, n + 1, pair)
  {
    var before := Run(cfg, s, schedule);
    assert Ahead(cfg, before.threads[n], pushes[n], pair);
    var more := ReachBrink(cfg, before, n, pushes[n], pair);
    RunConcat(cfg, s, schedule, more);
    longer := schedule + more;
  }

  lemma {:induction false} SomeWait(cfg: Config, s: System, pushes: seq<Push>, n: nat, pair: Pair)
    returns (schedule: seq<nat>)
    requires ChainValid(cfg.rules, cfg.receivers) && WellFormed(cfg, s) && Waiting(cfg, s, pushes, 0, pair)
    requires n <= |pushes| && forall p :: p in pushes ==> Delivers(cfg, p, pair)
    ensures Waiting(cfg, Run(cfg, s, schedule), pushes, n, pair)
  {
    schedule := [];
    if n > 0 {
      var before := SomeWait(cfg, s, pushes, n - 1, pair);
      assert pushes[n - 1] in pushes;
      schedule := OneMoreWaits(cfg, s, before, pushes, n - 1, pair);
    }
  }

  // --- Whoever waits delivers ---------------------------------------------

  /** Webhook calls made or about to be made on the pair. */
  function Due(cfg: Config, s: System, pair: Pair): nat
  {
    HooksOn(s.log, pair) + Sum(s.threads, Owes(cfg, pair))
  }

  lemma OwedIsCalled(cfg: Config, th: Thread, rows: Rows, pair: Pair)
    requires WellFormedThread(cfg, th)
    ensures var act := ActOf(cfg, th, rows);
            Owes(cfg, pair)(th) <= One(IsHookOn(act.event, pair)) + Owes(cfg, pair)(act.thread)
  {
  }

  lemma {:induction false} DebtsArePaid(cfg: Config, s: System, schedule: seq<nat>, pair: Pair)
    requires WellFormed(cfg, s)
    ensures Due(cfg, s, pair) <= Due(cfg, Run(cfg, s, schedule), pair)
    decreases |schedule|
  {
    if schedule != [] {
      var before, t := Run(cfg, s, schedule[..|schedule| - 1]), schedule[|schedule| - 1];
      DebtsArePaid(cfg, s, schedule[..|schedule| - 1], pair);
      if t < |before.threads| {
        var act := ActOf(cfg, before.threads[t], before.rows);
        OwedIsCalled(cfg, before.threads[t], before.rows, pair);
        SumUpdate(before.threads, t, act.thread, Owes(cfg, pair));
        HooksOnLogged(before.log, t, act.event, pair);
      }
    }
  }

  // --- Whoever reads later does not ---------------------------------------

  /** A step makes no new debt, unless it reads the pair's row and does not
      find firing-sent. */
  lemma NoNewDebt(cfg: Config, th: Thread, rows: Rows, pair: Pair)
    requires WellFormedThread(cfg, th) && FiresOnly(cfg, th.batch, pair.fingerprint)
    requires th.pc.Reading? ==> Settled(rows, pair, FiringSent)
    ensures var act := ActOf(cfg, th, rows);
            One(IsHookOn(act.event, pair)) + Owes(cfg, pair)(act.thread) <= Owes(cfg, pair)(th)
  {
  }

  lemma StepMakesNoDebt(cfg: Config, s: System, t: nat, pair: Pair)
    requires WellFormed(cfg, s) && t < |s.threads| && FiresOnly(cfg, s.threads[t].batch, pair.fingerprint)
    requires s.threads[t].pc.Reading? ==> Settled(s.rows, pair, FiringSent)
    ensures Due(cfg, Step(cfg, s, t), pair) <= Due(cfg, s, pair)
  {
    var act := ActOf(cfg, s.threads[t], s.rows);
    NoNewDebt(cfg, s.threads[t], s.rows, pair);
    SumUpdate(s.threads, t, act.thread, Owes(cfg, pair));
    HooksOnLogged(s.log, t, act.event, pair);
  }

  /** Some handlers that see the alert firing only are running, and the pair is
      settled. */
  ghost predicate SettledRun(cfg: Config, s: System, batches: seq<seq<Push>>, pair: Pair)
    requires WellFormed(cfg, s)
  {
    Carries(s, batches) && FiringThroughout(cfg, s, pair) && Settled(s.rows, pair, FiringSent)
  }

  lemma SettledStep(cfg: Config, s: System, t: nat, batches: seq<seq<Push>>, pair: Pair)
    requires ChainValid(cfg.rules, cfg.receivers) && WellFormed(cfg, s) && SettledRun(cfg, s, batches, pair)
    requires AllFireOnly(cfg, batches, pair.fingerprint)
    ensures SettledRun(cfg, Step(cfg, s, t), batches, pair) && Due(cfg, Step(cfg, s, t), pair) <= Due(cfg, s, pair)
  {
    StepCarries(cfg, s, t, batches);
    if t < |s.threads| {
      assert FiresOnly(cfg, batches[t], pair.fingerprint);
      StepFires(cfg, s, t, pair);
      ActFires(cfg, s.threads[t], s.rows, pair);
      FiringStays(s.rows, ActOf(cfg, s.threads[t], s.rows).event, pair);
      StepMakesNoDebt(cfg, s, t, pair);
    }
  }

  lemma {:induction false} SettledRunsOn(cfg: Config, s: System, schedule: seq<nat>, batches: seq<seq<Push>>,
                                         pair: Pair)
    requires ChainValid(cfg.rules, cfg.receivers) && WellFormed(cfg, s) && SettledRun(cfg, s, batches, pair)
    requires AllFireOnly(cfg, batches, pair.fingerprint)
    ensures SettledRun(cfg, Run(cfg, s, schedule), batches, pair)
            && Due(cfg, Run(cfg, s, schedule), pair) <= Due(cfg, s, pair)
    decreases |schedule|
  {
    if schedule != [] {
      SettledRunsOn(cfg, s, schedule[..|schedule| - 1], batches, pair);
      SettledStep(cfg, Run(cfg, s, schedule[..|schedule| - 1]), schedule[|schedule| - 1], batches, pair);
    }
  }

  /** A step of thread t that reads nothing. */
  lemma OneStepOn(cfg: Config, s: System, t: nat, pair: Pair) returns (next: System)
    requires WellFormed(cfg, s) && t < |s.threads| && FiresOnly(cfg, s.threads[t].batch, pair.fingerprint)
    requires !s.threads[t].pc.Reading?
    ensures WellFormed(cfg, next) && next == Run(cfg, s, [t]) && |next.threads| == |s.threads|
    ensures var act := ActOf(cfg, s.threads[t], s.rows);
            next.threads[t] == act.thread && next.rows == Applied(s.rows, act.event)
    ensures Due(cfg, next, pair) <= Due(cfg, s, pair)
  {
    RunOne(cfg, s, t);
    StepMakesNoDebt(cfg, s, t, pair);
    next := Step(cfg, s, t);
  }

  /** From the brink a thread calls the webhook, counts, and records. */
  lemma BrinkActs(cfg: Config, th: Thread, rows: Rows, pair: Pair)
    requires WellFormedThread(cfg, th) && FiresOnly(cfg, th.batch, pair.fingerprint) && Owes(cfg, pair)(th) == 1
    ensures var called := ActOf(cfg, th, rows).thread;
            var counted := ActOf(cfg, called, rows).thread;
            && !called.pc.Reading? && !counted.pc.Reading? && called.batch == counted.batch == th.batch
            && Applied(rows, ActOf(cfg, th, rows).event) == rows
            && Applied(rows, ActOf(cfg, called, rows).event) == rows
            && Settled(Applied(rows, ActOf(cfg, counted, rows).event), pair, FiringSent)
  {
    var push := th.batch[th.k];
    assert Faultless(push) && push.Desired() == FiringSent;
    assert push.At(th.pc.i).hookOk && push.At(th.pc.i).writeOk;
  }

  lemma FirstDelivers(cfg: Config, s: System, t: nat, pair: Pair) returns (called: System, counted: System, end: System)
    requires WellFormed(cfg, s) && t < |s.threads| && FiresOnly(cfg, s.threads[t].batch, pair.fingerprint)
    requires Owes(cfg, pair)(s.threads[t]) == 1
    ensures WellFormed(cfg, called) && called == Run(cfg, s, [t])
    ensures WellFormed(cfg, counted) && counted == Run(cfg, called, [t])
    ensures WellFormed(cfg, end) && end == Run(cfg, counted, [t])
    ensures Settled(end.rows, pair, FiringSent) && Due(cfg, end, pair) <= Due(cfg, s, pair)
  {
    BrinkActs(cfg, s.threads[t], s.rows, pair);
    called := OneStepOn(cfg, s, t, pair);
    counted := OneStepOn(cfg, called, t, pair);
    end := OneStepOn(cfg, counted, t, pair);
  }

  // --- Every count --------------------------------------------------------

  lemma {:induction false} SumOfSome(threads: seq<Thread>, f: Thread -> nat, n: nat)
    requires n <= |threads|
    requires forall t :: 0 <= t < |threads| ==> f(threads[t]) == if t < n then 1 else 0
    ensures Sum(threads, f) == n
  {
    if threads != [] {
      SumOfSome(threads[1..], f, if n > 0 then n - 1 else 0);
    }
  }

  lemma WaitingAreDue(cfg: Config, s: System, pushes: seq<Push>, n: nat, pair: Pair)
    requires n <= |pushes| && Waiting(cfg, s, pushes, n, pair)
    ensures Due(cfg, s, pair) == n
  {
    SumOfSome(s.threads, Owes(cfg, pair), n);
  }

  lemma NothingDueWhenComplete(cfg: Config, s: System, pair: Pair)
    requires Complete(s)
    ensures Due(cfg, s, pair) == HooksOn(s.log, pair)
  {
    SumOfNone(s.threads, Owes(cfg, pair));
  }

  /** The first handler at the brink delivers, then all run to their ends. */
  lemma TheRestFinds(cfg: Config, start: System, waiting: seq<nat>, batches: seq<seq<Push>>, pair: Pair)
    returns (schedule: seq<nat>, settled: System)
    requires ChainValid(cfg.rules, cfg.receivers) && WellFormed(cfg, start) && Carries(start, batches)
    requires AllFireOnly(cfg, batches, pair.fingerprint) && FiringThroughout(cfg, start, pair)
    requires |batches| > 0 && Owes(cfg, pair)(Run(cfg, start, waiting).threads[0]) == 1
    ensures WellFormed(cfg, settled) && settled == Run(cfg, start, schedule) && SettledRun(cfg, settled, batches, pair)
    ensures var mid := Run(cfg, start, waiting); Due(cfg, settled, pair) == Due(cfg, mid, pair)
  {
    var mid := Run(cfg, start, waiting);
    RunCarries(cfg, start, waiting, batches);
    assert FiresOnly(cfg, batches[0], pair.fingerprint);
    var called, counted;
    called, counted, settled := FirstDelivers(cfg, mid, 0, pair);
    RunConcat(cfg, mid, [0], [0]);
    RunConcat(cfg, mid, [0] + [0], [0]);
    var three := [0] + [0] + [0];
    DebtsArePaid(cfg, mid, three, pair);
    RunConcat(cfg, start, waiting, three);
    schedule := waiting + three;
    RunCarries(cfg, start, schedule, batches);
    RunFires(cfg, start, schedule, batches, pair);
  }

  lemma CountIsAttained(cfg: Config, pushes: seq<Push>, pair: Pair, k: nat) returns (schedule: seq<nat>)
    requires ChainValid(cfg.rules, cfg.receivers) && forall p :: p in pushes ==> Delivers(cfg, p, pair)
    requires 1 <= k <= |pushes| && AllFireOnly(cfg, Singly(pushes), pair.fingerprint)
    ensures var s := Run(cfg, Start(cfg, map[], Singly(pushes)), schedule);
            Complete(s) && HooksOn(s.log, pair) == k
  {
    var batches, start := Singly(pushes), Start(cfg, map[], Singly(pushes));
    var waiting := SomeWait(cfg, start, pushes, k, pair);
    WaitingAreDue(cfg, Run(cfg, start, waiting), pushes, k, pair);
    StartFires(cfg, map[], batches, pair);
    var first, settled := TheRestFinds(cfg, start, waiting, batches, pair);
    var turns := Turns(cfg, batches, |batches|);
    schedule := first + turns;
    RunConcat(cfg, start, first, turns);
    DebtsArePaid(cfg, settled, turns, pair);
    SettledRunsOn(cfg, settled, turns, batches, pair);
    TurnsComplete(cfg, batches, first);
    NothingDueWhenComplete(cfg, Run(cfg, start, schedule), pair);
  }

  /** The bounds of `OneAlertManyHandlers` are exact: for every matched rule,
      every number of handlers and every count from one to that number, some
      complete interleaving without faults delivers just so often. */
  lemma EveryCountIsAttained(cfg: Config, pushes: seq<Push>, labels: Labels, rule: Rule, k: nat)
    returns (schedule: seq<nat>)
    requires ChainValid(cfg.rules, cfg.receivers) && rule in Routed(cfg.rules, labels)
    requires forall p :: p in pushes ==>
               p.alert.labels == labels && p.mute == Clear && p.Desired() == FiringSent && Faultless(p)
    requires 1 <= k <= |pushes|
    ensures var s := Run(cfg, Start(cfg, map[], Singly(pushes)), schedule);
            Complete(s) && HooksOn(s.log, Pair(rule.name, cfg.Fingerprint(labels))) == k
  {
    var pair := Pair(rule.name, cfg.Fingerprint(labels));
    SinglesFireOnly(cfg, pushes, pair);
    forall p | p in pushes ensures Delivers(cfg, p, pair) {
      assert rule in Decided(cfg, p) && PairOf(cfg, rule, p) == pair;
    }
    schedule := CountIsAttained(cfg, pushes, pair, k);
  }

  lemma TurnsComplete(cfg: Config, batches: seq<seq<Push>>, first: seq<nat>)
    ensures Complete(Run(cfg, Start(cfg, map[], batches), first + Turns(cfg, batches, |batches|)))
  {
    var turns := Turns(cfg, batches, |batches|);
    TurnsSuffice(cfg, batches, |batches|);
    forall t | 0 <= t < |batches| ensures Count(first + turns, t) >= StepsFrom(cfg, batches[t], 0) {
      CountConcat(first, turns, t);
    }
    EveryHandlerAnswers(cfg, map[], batches, first + turns);
  }
}
