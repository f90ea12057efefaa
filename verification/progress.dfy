/** Every handler answers after a bounded number of its own steps, whatever
    the others do: nothing waits, and the loops end. */
module Progress {
  import opened Delivery
  import opened Handlers
  import opened Serializable

  /** Steps enough for the alerts from position k on, and the answer. */
  function StepsFrom(cfg: Config, batch: seq<Push>, k: nat): nat
    decreases if k < |batch| then |batch| - k else 0
  {
    if k >= |batch| then 1 else 5 * |Decided(cfg, batch[k])| + 3 + StepsFrom(cfg, batch, k + 1)
  }

  /** The decisions from position i on. */
  function DecisionsFrom(cfg: Config, th: Thread, i: nat): nat
  {
    if th.k < |th.batch| && i <= |Decided(cfg, th.batch[th.k])| then |Decided(cfg, th.batch[th.k])| - i else 0
  }

  /** A bound on the steps the thread has still to take. */
  function StepsLeft(cfg: Config, th: Thread): nat
    requires WellFormedThread(cfg, th)
  {
    var rest := StepsFrom(cfg, th.batch, th.k + 1);
    match th.pc
    case Next => StepsFrom(cfg, th.batch, th.k)
    case MuteRead => StepsFrom(cfg, th.batch, th.k) - 1
    case MuteFailed => 1
    case Reading(i) => 5 * DecisionsFrom(cfg, th, i) + 1 + rest
    case ReadFailed => 1
    case Notifying(i) => 5 * DecisionsFrom(cfg, th, i) + rest
    case Notified(i) => 5 * DecisionsFrom(cfg, th, i) - 1 + rest
    case Recording(i) => 5 * DecisionsFrom(cfg, th, i) - 2 + rest
    case WriteFailed(i) => 5 * DecisionsFrom(cfg, th, i) - 3 + rest
    case Stopped(_) => 0
  }

  lemma ReadingGetsOn(cfg: Config, th: Thread, rows: Rows)
    requires WellFormedThread(cfg, th) && th.pc.Reading?
    ensures StepsLeft(cfg, ActOf(cfg, th, rows).thread) < StepsLeft(cfg, th)
  {
  }

  lemma OthersGetOn(cfg: Config, th: Thread, rows: Rows)
    requires WellFormedThread(cfg, th) && !th.pc.Stopped? && !th.pc.Reading?
    ensures StepsLeft(cfg, ActOf(cfg, th, rows).thread) < StepsLeft(cfg, th)
  {
  }

  /** Every step leaves fewer. */
  lemma ActGetsOn(cfg: Config, th: Thread, rows: Rows)
    requires WellFormedThread(cfg, th) && !th.pc.Stopped?
    ensures StepsLeft(cfg, ActOf(cfg, th, rows).thread) < StepsLeft(cfg, th)
  {
    if th.pc.Reading? {
      ReadingGetsOn(cfg, th, rows);
    } else {
      OthersGetOn(cfg, th, rows);
    }
  }

  lemma NothingLeftIsStopped(cfg: Config, th: Thread)
    requires WellFormedThread(cfg, th)
    ensures StepsLeft(cfg, th) == 0 <==> th.pc.Stopped?
  {
  }

  lemma {:induction false} StepsUsed(cfg: Config, s: System, schedule: seq<nat>, t: nat)
    requires WellFormed(cfg, s) && t < |s.threads|
    ensures var left := StepsLeft(cfg, Run(cfg, s, schedule).threads[t]);
            left == 0 || left + Count(schedule, t) <= StepsLeft(cfg, s.threads[t])
    decreases |schedule|
  {
    if schedule != [] {
      var before, u := Run(cfg, s, schedule[..|schedule| - 1]), schedule[|schedule| - 1];
      StepsUsed(cfg, s, schedule[..|schedule| - 1], t);
      NothingLeftIsStopped(cfg, before.threads[t]);
      if u == t && !before.threads[t].pc.Stopped? {
        ActGetsOn(cfg, before.threads[t], before.rows);
      }
    }
  }

  /** Any schedule that lets each handler take its bounded number of steps
      completes, under every interleaving and any faults. */
  lemma EveryHandlerAnswers(cfg: Config, rows: Rows, batches: seq<seq<Push>>, schedule: seq<nat>)
    requires forall t :: 0 <= t < |batches| ==> Count(schedule, t) >= StepsFrom(cfg, batches[t], 0)
    ensures Complete(Run(cfg, Start(cfg, rows, batches), schedule))
  {
    var s := Start(cfg, rows, batches);
    forall t | 0 <= t < |s.threads| ensures Run(cfg, s, schedule).threads[t].pc.Stopped? {
      StepsUsed(cfg, s, schedule, t);
      NothingLeftIsStopped(cfg, Run(cfg, s, schedule).threads[t]);
      NothingLeftIsStopped(cfg, s.threads[t]);
      assert s.threads[t] == Thread(batches[t], 0, Next);
    }
  }
}
