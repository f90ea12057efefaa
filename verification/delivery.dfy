/** The delivery state machine behind `Chain.Process`, on values: what one
    call, one batch and any serial run of calls do to the `notifications`
    table and to the log of attempts. */
module Delivery {
  import opened Common
  import opened Routing

  // --- Alerts and statuses ------------------------------------------------

  /** `endsAt` is None for Go's zero time. */
  datatype Alert = Alert(labels: Labels, startsAt: Time, endsAt: Option<Time>)

  datatype Status = FiringSent | FiringFailed | ResolvedSent | ResolvedFailed {
    predicate IsSent() { FiringSent? || ResolvedSent? }

    function Failed(): Status
    {
      match this
      case FiringSent => FiringFailed
      case ResolvedSent => ResolvedFailed
      case _ => this
    }
  }

  /** The status to record if the coming attempt succeeds; `endsAt <= now`
      is resolved. */
  function DesiredStatus(alert: Alert, now: Time): Status
  {
    if alert.endsAt.Some? && !(now < alert.endsAt.value) then ResolvedSent else FiringSent
  }

  // --- Webhook payloads ---------------------------------------------------

  datatype PayloadStatus = Firing | Resolved

  /** `alertStatus`: recomputed from a fresh clock reading. */
  function AlertStatus(alert: Alert, now: Time): PayloadStatus
  {
    if alert.endsAt.Some? && !(now < alert.endsAt.value) then Resolved else Firing
  }

  datatype Payload = Payload(receiver: string, status: PayloadStatus, alertStatus: PayloadStatus, fingerprint: string)

  // --- The notifications table and the attempt log ------------------------

  datatype Pair = Pair(rule: string, fingerprint: string)

  datatype Row = Row(at: Time, status: Status)

  type Rows = map<Pair, Row>

  /** One webhook attempt: what was sent, whether it succeeded, and whether
      its `RecordAttempt` did. */
  datatype Attempt = Attempt(pair: Pair, payload: Payload, desired: Status, ok: bool, recorded: bool)
  {
    function Outcome(): Status
    {
      if ok then desired else desired.Failed()
    }
  }

  /** The attempts of one pair, in order. */
  function On(log: seq<Attempt>, pair: Pair): seq<Attempt>
  {
    if log == [] then []
    else if log[0].pair == pair then [log[0]] + On(log[1..], pair)
    else On(log[1..], pair)
  }

  lemma {:induction false} OnConcat(a: seq<Attempt>, b: seq<Attempt>, pair: Pair)
    ensures On(a + b, pair) == On(a, pair) + On(b, pair)
  {
    if a == [] {
      assert a + b == b;
    } else {
      OnConcat(a[1..], b, pair);
      assert (a + b)[1..] == a[1..] + b;
    }
  }

  // --- What a call depends on ---------------------------------------------

  /** The static configuration, and the fingerprint function: any function of
      the labels, tabulated on the label sets that occur. */
  datatype Config = Config(rules: seq<Rule>, receivers: map<string, Receiver>, fingerprints: map<Labels, string>)
  {
    function Fingerprint(labels: Labels): string
    {
      if labels in fingerprints then fingerprints[labels] else ""
    }
  }

  /** What the world answers at one decision: whether the history read, the
      webhook and the history write succeed, and the two clock readings the
      payload is stamped with. */
  datatype Outcome = Outcome(readOk: bool, hookOk: bool, writeOk: bool, statusAt: Time, stampAt: Time)

  datatype MuteAnswer = Clear | Muted | Unreadable

  /** One `Process` call: its alert, what the mute read answers, the clock
      reading `now`, and the outcomes by decision position. */
  datatype Push = Push(alert: Alert, mute: MuteAnswer, now: Time, outcomes: seq<Outcome>)
  {
    function Desired(): Status { DesiredStatus(alert, now) }

    /** The outcome at decision position `i`; past the recorded ones, success
        while the clock stands still. */
    function At(i: nat): Outcome
    {
      if i < |outcomes| then outcomes[i] else Outcome(true, true, true, LastReading(), LastReading())
    }

    function LastReading(): Time
    {
      if outcomes == [] then now else outcomes[|outcomes| - 1].stampAt
    }
  }

  function Fingerprint(cfg: Config, push: Push): string
  {
    cfg.Fingerprint(push.alert.labels)
  }

  function Decided(cfg: Config, push: Push): seq<Rule>
  {
    Routed(cfg.rules, push.alert.labels)
  }

  function PairOf(cfg: Config, rule: Rule, push: Push): Pair
  {
    Pair(rule.name, Fingerprint(cfg, push))
  }

  // --- One decision -------------------------------------------------------

  /** The desired status is already recorded, so nothing is sent. */
  predicate Settled(rows: Rows, pair: Pair, desired: Status)
  {
    pair in rows && rows[pair].status == desired
  }

  /** The attempt made for `rule` at decision position `i`. */
  function AttemptFor(cfg: Config, rule: Rule, push: Push, i: nat): Attempt
    requires rule.receiver in cfg.receivers
  {
    var o := push.At(i);
    var payload := Payload(cfg.receivers[rule.receiver].name,
                           AlertStatus(push.alert, o.statusAt), AlertStatus(push.alert, o.stampAt),
                           Fingerprint(cfg, push));
    Attempt(PairOf(cfg, rule, push), payload, push.Desired(), o.hookOk, o.writeOk)
  }

  /** `RecordAttempt`, which may fail without surfacing. */
  function Recorded(rows: Rows, attempt: Attempt, at: Time): Rows
  {
    if attempt.recorded then rows[attempt.pair := Row(at, attempt.Outcome())] else rows
  }

  // --- Process, a batch, a serial run -------------------------------------

  /** A table, the attempts made on the way to it, and whether an error
      surfaced. */
  datatype Dispatch = Dispatch(rows: Rows, log: seq<Attempt>, failed: bool)
  {
    function After(earlier: seq<Attempt>): Dispatch { this.(log := earlier + log) }
  }

  /** The decision loop of `Process`, from position `i` on. */
  function FannedOut(cfg: Config, rows: Rows, decisions: seq<Rule>, push: Push, i: nat): Dispatch
    requires i <= |decisions|
    decreases |decisions| - i
  {
    if i == |decisions| then Dispatch(rows, [], false)
    else
      var rule := decisions[i];
      if rule.receiver !in cfg.receivers then FannedOut(cfg, rows, decisions, push, i + 1)
      else if !push.At(i).readOk then Dispatch(rows, [], true)
      else if Settled(rows, PairOf(cfg, rule, push), push.Desired()) then FannedOut(cfg, rows, decisions, push, i + 1)
      else
        var attempt := AttemptFor(cfg, rule, push, i);
        FannedOut(cfg, Recorded(rows, attempt, push.now), decisions, push, i + 1).After([attempt])
  }

  function Processed(cfg: Config, rows: Rows, push: Push): Dispatch
  {
    match push.mute
    case Unreadable => Dispatch(rows, [], true)
    case Muted => Dispatch(rows, [], false)
    case Clear => FannedOut(cfg, rows, Decided(cfg, push), push, 0)
  }

  /** One POST: the batch loop stops at the first Process error. */
  function Posted(cfg: Config, rows: Rows, batch: seq<Push>): Dispatch
    decreases |batch|
  {
    if batch == [] then Dispatch(rows, [], false)
    else
      var first := Processed(cfg, rows, batch[0]);
      if first.failed then first else Posted(cfg, first.rows, batch[1..]).After(first.log)
  }

  /** A serial run: Process calls one after another, whatever they return. */
  function Served(cfg: Config, rows: Rows, pushes: seq<Push>): Dispatch
    decreases |pushes|
  {
    if pushes == [] then Dispatch(rows, [], false)
    else
      var first := Processed(cfg, rows, pushes[0]);
      var rest := Served(cfg, first.rows, pushes[1..]);
      Dispatch(rest.rows, first.log + rest.log, first.failed || rest.failed)
  }

  /** The first n calls, of which the last fails and no other, or all calls,
      of which none does. */
  ghost predicate StopsAfter(cfg: Config, rows: Rows, batch: seq<Push>, n: nat)
  {
    && n <= |batch|
    && if Served(cfg, rows, batch[..n]).failed then n > 0 && !Served(cfg, rows, batch[..n - 1]).failed else n == |batch|
  }

  lemma StopsAfterOneMore(cfg: Config, rows: Rows, batch: seq<Push>, n: nat)
    requires batch != [] && !Processed(cfg, rows, batch[0]).failed
    requires StopsAfter(cfg, Processed(cfg, rows, batch[0]).rows, batch[1..], n)
    ensures StopsAfter(cfg, rows, batch, n + 1)
  {
    assert batch[..n + 1][1..] == batch[1..][..n];
    if n > 0 {
      assert batch[..n][1..] == batch[1..][..n - 1];
    } else {
      assert batch[..0] == [];
    }
  }

  /** A POST is the serial run of the calls up to and including the first
      that fails. */
  lemma {:induction false} PostedIsServed(cfg: Config, rows: Rows, batch: seq<Push>)
    ensures exists n: nat :: StopsAfter(cfg, rows, batch, n)
                             && Posted(cfg, rows, batch) == Served(cfg, rows, batch[..n])
    decreases |batch|
  {
    if batch == [] {
      assert batch[..0] == [] && StopsAfter(cfg, rows, batch, 0);
    } else {
      var first := Processed(cfg, rows, batch[0]);
      if first.failed {
        assert batch[..1][1..] == [] && batch[..0] == [];
        assert StopsAfter(cfg, rows, batch, 1);
        assert Posted(cfg, rows, batch) == Served(cfg, rows, batch[..1]);
      } else {
        PostedIsServed(cfg, first.rows, batch[1..]);
        var n: nat :| StopsAfter(cfg, first.rows, batch[1..], n)
                      && Posted(cfg, first.rows, batch[1..]) == Served(cfg, first.rows, batch[1..][..n]);
        StopsAfterOneMore(cfg, rows, batch, n);
        assert batch[..n + 1][1..] == batch[1..][..n];
        assert Posted(cfg, rows, batch) == Served(cfg, rows, batch[..n + 1]);
      }
    }
  }

  // --- Fan-out independence and the error prefix --------------------------

  /** The first decision position whose history read fails; decisions whose
      receiver is unknown never read. */
  function FirstFailedRead(cfg: Config, decisions: seq<Rule>, push: Push, i: nat): nat
    requires i <= |decisions|
    decreases |decisions| - i
  {
    if i == |decisions| then i
    else if decisions[i].receiver in cfg.receivers && !push.At(i).readOk then i
    else FirstFailedRead(cfg, decisions, push, i + 1)
  }

  /** What decision `j` alone does to its own row, whatever the others do. */
  ghost predicate OwnEffect(cfg: Config, rows: Rows, decisions: seq<Rule>, push: Push, j: nat, result: Dispatch)
    requires j < |decisions|
  {
    var pair := PairOf(cfg, decisions[j], push);
    if decisions[j].receiver !in cfg.receivers || Settled(rows, pair, push.Desired()) then
      Untouched(rows, pair, result)
    else
      var attempt := AttemptFor(cfg, decisions[j], push, j);
      && On(result.log, pair) == [attempt]
      && (attempt.recorded ==> pair in result.rows && result.rows[pair] == Row(push.now, attempt.Outcome()))
      && (!attempt.recorded ==> SameRow(rows, result.rows, pair))
  }

  predicate SameRow(rows: Rows, rows': Rows, pair: Pair)
  {
    (pair in rows <==> pair in rows') && (pair in rows ==> rows[pair] == rows'[pair])
  }

  predicate Untouched(rows: Rows, pair: Pair, result: Dispatch)
  {
    On(result.log, pair) == [] && SameRow(rows, result.rows, pair)
  }

  /** Pairs other than those of decisions i, i+1, ... are framed. */
  lemma {:induction false} FanOutFrame(cfg: Config, rows: Rows, decisions: seq<Rule>, push: Push, i: nat, pair: Pair)
    requires i <= |decisions|
    requires forall j :: i <= j < |decisions| ==> PairOf(cfg, decisions[j], push) != pair
    ensures Untouched(rows, pair, FannedOut(cfg, rows, decisions, push, i))
    decreases |decisions| - i
  {
    if i < |decisions| {
      FanOutFrame(cfg, rows, decisions, push, i + 1, pair);
      if decisions[i].receiver in cfg.receivers {
        FanOutFrame(cfg, Recorded(rows, AttemptFor(cfg, decisions[i], push, i), push.now), decisions, push, i + 1,
                    pair);
      }
    }
  }

  lemma {:induction false} FanOutOwnEffect(cfg: Config, rows: Rows, decisions: seq<Rule>, push: Push, i: nat, j: nat)
    requires i <= j < |decisions| && DistinctNames(decisions)
    ensures var result := FannedOut(cfg, rows, decisions, push, i);
            if j < FirstFailedRead(cfg, decisions, push, i)
            then OwnEffect(cfg, rows, decisions, push, j, result)
            else Untouched(rows, PairOf(cfg, decisions[j], push), result)
    decreases |decisions| - i
  {
    var pair := PairOf(cfg, decisions[j], push);
    if decisions[i].receiver in cfg.receivers && !push.At(i).readOk {
    } else if i == j {
      forall k | i < k < |decisions| ensures PairOf(cfg, decisions[k], push) != pair {
      }
      FanOutFrame(cfg, rows, decisions, push, i + 1, pair);
      if decisions[i].receiver in cfg.receivers {
        var attempt := AttemptFor(cfg, decisions[i], push, i);
        FanOutFrame(cfg, Recorded(rows, attempt, push.now), decisions, push, i + 1, pair);
      }
      FirstFailedReadBound(cfg, decisions, push, i + 1);
    } else {
      assert PairOf(cfg, decisions[i], push) != pair;
      FanOutOwnEffect(cfg, rows, decisions, push, i + 1, j);
      if decisions[i].receiver in cfg.receivers {
        var attempt := AttemptFor(cfg, decisions[i], push, i);
        FanOutOwnEffect(cfg, Recorded(rows, attempt, push.now), decisions, push, i + 1, j);
      }
    }
  }

  lemma {:induction false} FirstFailedReadBound(cfg: Config, decisions: seq<Rule>, push: Push, i: nat)
    requires i <= |decisions|
    ensures i <= FirstFailedRead(cfg, decisions, push, i) <= |decisions|
    ensures forall rows :: FannedOut(cfg, rows, decisions, push, i).failed
                      <==> FirstFailedRead(cfg, decisions, push, i) < |decisions|
    decreases |decisions| - i
  {
    if i < |decisions| {
      FirstFailedReadBound(cfg, decisions, push, i + 1);
      forall rows ensures FannedOut(cfg, rows, decisions, push, i).failed
                     <==> FirstFailedRead(cfg, decisions, push, i) < |decisions| {
      }
    }
  }

  /** Fan-out independence and error prefix. On a chain `Validate` accepts,
      one unmuted call fails exactly when a reached history read fails; it
      has then applied exactly the decisions before the failure, each on its
      own row alone, and it frames every other row. */
  lemma FanOutIndependence(cfg: Config, rows: Rows, push: Push)
    requires ChainValid(cfg.rules, cfg.receivers) && push.mute == Clear
    ensures var decisions := Decided(cfg, push);
            var result := Processed(cfg, rows, push);
            var stop := FirstFailedRead(cfg, decisions, push, 0);
            && (forall r :: r in decisions ==> r.receiver in cfg.receivers)
            && (result.failed <==> exists j :: 0 <= j < |decisions| && !push.At(j).readOk)
            && (result.failed <==> stop < |decisions|)
            && (result.failed ==> !push.At(stop).readOk)
            && (forall j :: 0 <= j < stop ==> push.At(j).readOk)
            && (forall j: nat :: j < |decisions| ==>
                  if j < stop then OwnEffect(cfg, rows, decisions, push, j, result)
                  else Untouched(rows, PairOf(cfg, decisions[j], push), result))
            && (forall pair :: (forall j: nat :: j < |decisions| ==> pair != PairOf(cfg, decisions[j], push))
                  ==> Untouched(rows, pair, result))
  {
    var decisions := Decided(cfg, push);
    var result := Processed(cfg, rows, push);
    ValidChainFansOutDistinctly(cfg.rules, cfg.receivers, push.alert.labels);
    FirstFailedReadBound(cfg, decisions, push, 0);
    FirstFailedReadIsFirst(cfg, decisions, push, 0);
    forall j: nat | j < |decisions|
      ensures if j < FirstFailedRead(cfg, decisions, push, 0) then OwnEffect(cfg, rows, decisions, push, j, result)
              else Untouched(rows, PairOf(cfg, decisions[j], push), result)
    {
      FanOutOwnEffect(cfg, rows, decisions, push, 0, j);
    }
    forall pair | forall j: nat :: j < |decisions| ==> pair != PairOf(cfg, decisions[j], push)
      ensures Untouched(rows, pair, result)
    {
      FanOutFrame(cfg, rows, decisions, push, 0, pair);
    }
  }

  lemma {:induction false} FirstFailedReadIsFirst(cfg: Config, decisions: seq<Rule>, push: Push, i: nat)
    requires i <= |decisions|
    requires forall r :: r in decisions ==> r.receiver in cfg.receivers
    ensures var stop := FirstFailedRead(cfg, decisions, push, i);
            && i <= stop <= |decisions|
            && (stop < |decisions| ==> !push.At(stop).readOk)
            && (forall j :: i <= j < stop ==> push.At(j).readOk)
    decreases |decisions| - i
  {
    if i < |decisions| {
      assert decisions[i] in decisions;
      FirstFailedReadIsFirst(cfg, decisions, push, i + 1);
    }
  }

  // --- The sequential delivery law ----------------------------------------

  /** The status left in the table by the last recorded attempt, if any. */
  function Left(attempts: seq<Attempt>): Option<Status>
  {
    if attempts == [] then None
    else
      var last := attempts[|attempts| - 1];
      if last.recorded then Some(last.Outcome()) else Left(attempts[..|attempts| - 1])
  }

  /** No attempt wants the status that the attempts before it left behind. */
  ghost predicate Lawful(attempts: seq<Attempt>)
  {
    forall j :: 0 <= j < |attempts| ==> Left(attempts[..j]) != Some(attempts[j].desired)
  }

  /** The log of a run explains the table: what its attempts on a pair left
      behind is what the row says. */
  ghost predicate Explains(log: seq<Attempt>, rows: Rows, pair: Pair)
  {
    var left := Left(On(log, pair));
    && Lawful(On(log, pair))
    && (left.Some? ==> pair in rows && rows[pair].status == left.value)
  }

  lemma ExtendLawful(before: seq<Attempt>, attempt: Attempt)
    requires Lawful(before) && Left(before) != Some(attempt.desired)
    ensures Lawful(before + [attempt])
  {
    var after := before + [attempt];
    forall j | 0 <= j < |after| ensures Left(after[..j]) != Some(after[j].desired) {
      assert after[..j] == before[..j];
      assert before[..|before|] == before;
    }
  }

  lemma ExtendExplanation(log: seq<Attempt>, rows: Rows, attempt: Attempt, at: Time, pair: Pair)
    requires Explains(log, rows, pair)
    requires !Settled(rows, attempt.pair, attempt.desired)
    ensures Explains(log + [attempt], Recorded(rows, attempt, at), pair)
  {
    OnConcat(log, [attempt], pair);
    var before, after := On(log, pair), On(log + [attempt], pair);
    assert On([attempt], pair) == if attempt.pair == pair then [attempt] else [];
    if attempt.pair != pair {
      assert after == before;
    } else {
      ExtendLawful(before, attempt);
      assert after == before + [attempt] && after[..|before|] == before;
    }
  }

  lemma {:induction false} FanOutLaw(cfg: Config, rows: Rows, decisions: seq<Rule>, push: Push, i: nat,
                                     log: seq<Attempt>, pair: Pair)
    requires i <= |decisions| && Explains(log, rows, pair)
    ensures var result := FannedOut(cfg, rows, decisions, push, i);
            Explains(log + result.log, result.rows, pair)
    decreases |decisions| - i
  {
    var result := FannedOut(cfg, rows, decisions, push, i);
    if result.log == [] && result.rows == rows {
      assert log + result.log == log;
    } else if decisions[i].receiver !in cfg.receivers
              || Settled(rows, PairOf(cfg, decisions[i], push), push.Desired()) {
      FanOutLaw(cfg, rows, decisions, push, i + 1, log, pair);
    } else {
      var attempt := AttemptFor(cfg, decisions[i], push, i);
      ExtendExplanation(log, rows, attempt, push.now, pair);
      var rest := FannedOut(cfg, Recorded(rows, attempt, push.now), decisions, push, i + 1);
      FanOutLaw(cfg, Recorded(rows, attempt, push.now), decisions, push, i + 1, log + [attempt], pair);
      assert log + [attempt] + rest.log == log + result.log;
    }
  }

  lemma ProcessLaw(cfg: Config, rows: Rows, push: Push, log: seq<Attempt>, pair: Pair)
    requires Explains(log, rows, pair)
    ensures var result := Processed(cfg, rows, push); Explains(log + result.log, result.rows, pair)
  {
    if push.mute == Clear {
      FanOutLaw(cfg, rows, Decided(cfg, push), push, 0, log, pair);
    } else {
      assert log + [] == log;
    }
  }

  lemma {:induction false} ServedLaw(cfg: Config, rows: Rows, pushes: seq<Push>, log: seq<Attempt>, pair: Pair)
    requires Explains(log, rows, pair)
    ensures var result := Served(cfg, rows, pushes); Explains(log + result.log, result.rows, pair)
    decreases |pushes|
  {
    if pushes == [] {
      assert log + [] == log;
    } else {
      var first := Processed(cfg, rows, pushes[0]);
      ProcessLaw(cfg, rows, pushes[0], log, pair);
      ServedLaw(cfg, first.rows, pushes[1..], log + first.log, pair);
      Associates(log, first.log, Served(cfg, first.rows, pushes[1..]).log);
    }
  }

  lemma Associates(a: seq<Attempt>, b: seq<Attempt>, c: seq<Attempt>)
    ensures (a + b) + c == a + (b + c)
  {
  }

  /** What a recorded attempt left behind stays until another is recorded. */
  lemma {:induction false} LeftUntilRecorded(attempts: seq<Attempt>, i: nat, j: nat)
    requires i < j <= |attempts| && attempts[i].recorded
    ensures Left(attempts[..j]) == Some(attempts[i].Outcome()) || exists k :: i < k < j && attempts[k].recorded
    decreases j
  {
    assert attempts[..j][..j - 1] == attempts[..j - 1];
    if j > i + 1 && !attempts[j - 1].recorded {
      LeftUntilRecorded(attempts, i, j - 1);
    }
  }

  /** The attempt recorded first after `i` wants another kind than `i` left. */
  lemma {:induction false} OppositeInBetween(attempts: seq<Attempt>, i: nat, j: nat)
    requires Lawful(attempts) && i < j < |attempts| && attempts[i].recorded
    requires attempts[j].desired == attempts[i].Outcome()
    ensures exists k :: i < k < j && attempts[k].recorded && attempts[k].desired != attempts[i].Outcome()
    decreases j
  {
    LeftUntilRecorded(attempts, i, j);
    var k :| i < k < j && attempts[k].recorded;
    if attempts[k].desired == attempts[i].Outcome() {
      OppositeInBetween(attempts, i, k);
    }
  }

  /** Sequential delivery law, from any table and under any faults. Once an
      attempt has succeeded and been recorded, another of its kind is made on
      the pair only after one of the opposite kind was recorded in between;
      in particular never directly after it. */
  lemma DeliveryLaw(cfg: Config, rows: Rows, pushes: seq<Push>, pair: Pair, i: nat, j: nat)
    requires i < j < |On(Served(cfg, rows, pushes).log, pair)|
    ensures var attempts := On(Served(cfg, rows, pushes).log, pair);
            attempts[i].ok && attempts[i].recorded && attempts[j].desired == attempts[i].desired ==>
              exists k :: i < k < j && attempts[k].recorded && attempts[k].desired != attempts[i].desired
  {
    ServedLaw(cfg, rows, pushes, [], pair);
    assert [] + Served(cfg, rows, pushes).log == Served(cfg, rows, pushes).log;
    var attempts := On(Served(cfg, rows, pushes).log, pair);
    if attempts[i].ok && attempts[i].recorded {
      if attempts[j].desired == attempts[i].desired {
        OppositeInBetween(attempts, i, j);
      }
    }
  }

  ghost predicate HooksAndWritesSucceed(push: Push)
  {
    forall i: nat :: push.At(i).hookOk && push.At(i).writeOk
  }

  lemma {:induction false} FaultlessAttempts(cfg: Config, rows: Rows, decisions: seq<Rule>, push: Push, i: nat)
    requires i <= |decisions| && HooksAndWritesSucceed(push)
    ensures forall a :: a in FannedOut(cfg, rows, decisions, push, i).log ==>
                          a.ok && a.recorded && a.desired == push.Desired()
    decreases |decisions| - i
  {
    if i < |decisions| {
      FaultlessAttempts(cfg, rows, decisions, push, i + 1);
      if decisions[i].receiver in cfg.receivers {
        FaultlessAttempts(cfg, Recorded(rows, AttemptFor(cfg, decisions[i], push, i), push.now), decisions, push,
                          i + 1);
      }
    }
  }

  lemma {:induction false} FaultlessRun(cfg: Config, rows: Rows, pushes: seq<Push>)
    requires forall p :: p in pushes ==> HooksAndWritesSucceed(p)
    ensures forall a :: a in Served(cfg, rows, pushes).log ==> a.ok && a.recorded && a.desired.IsSent()
    decreases |pushes|
  {
    if pushes != [] {
      assert pushes[0] in pushes;
      FaultlessAttempts(cfg, rows, Decided(cfg, pushes[0]), pushes[0], 0);
      FaultlessRun(cfg, Processed(cfg, rows, pushes[0]).rows, pushes[1..]);
    }
  }

  lemma {:induction false} OnMembers(log: seq<Attempt>, pair: Pair)
    ensures forall a :: a in On(log, pair) <==> a in log && a.pair == pair
  {
    if log != [] {
      OnMembers(log[1..], pair);
    }
  }

  /** Both deliver, and one is of each kind. */
  predicate Opposite(first: Attempt, second: Attempt)
  {
    first.ok && second.ok && first.desired.IsSent() && second.desired.IsSent() && first.desired != second.desired
  }

  /** What an attempt left behind, the next one does not want. */
  lemma NextIsOpposite(attempts: seq<Attempt>, k: nat)
    requires Lawful(attempts) && k + 1 < |attempts| && attempts[k].ok && attempts[k].recorded
    ensures attempts[k + 1].desired != attempts[k].desired
  {
    var before := attempts[..k + 1];
    assert before[|before| - 1] == attempts[k];
    assert Left(before) == Some(attempts[k].desired);
  }

  /** With no webhook or write failure the deliveries of a pair strictly
      alternate between firing and resolved. */
  lemma DeliveriesAlternate(cfg: Config, rows: Rows, pushes: seq<Push>, pair: Pair)
    requires forall p :: p in pushes ==> HooksAndWritesSucceed(p)
    ensures var attempts := On(Served(cfg, rows, pushes).log, pair);
            forall k :: 0 <= k < |attempts| - 1 ==> Opposite(attempts[k], attempts[k + 1])
  {
    var log := Served(cfg, rows, pushes).log;
    ServedLaw(cfg, rows, pushes, [], pair);
    assert [] + log == log;
    FaultlessRun(cfg, rows, pushes);
    OnMembers(log, pair);
    var attempts := On(log, pair);
    forall k | 0 <= k < |attempts| - 1 ensures Opposite(attempts[k], attempts[k + 1]) {
      assert attempts[k] in attempts && attempts[k + 1] in attempts;
      NextIsOpposite(attempts, k);
    }
  }

  // --- Convergence --------------------------------------------------------

  /** The calls of a run up to and including the first whose webhook and
      write at decision `j` both succeed; all of them if there is none. */
  function AttemptsNeeded(pushes: seq<Push>, j: nat): nat
  {
    if pushes == [] then 0
    else if pushes[0].At(j).hookOk && pushes[0].At(j).writeOk then 1
    else 1 + AttemptsNeeded(pushes[1..], j)
  }

  /** All pushes carry this alert and want this status, unmuted and readable. */
  ghost predicate SteadyRun(pushes: seq<Push>, alert: Alert, desired: Status)
  {
    forall p :: p in pushes ==>
                  && p.alert == alert && p.mute == Clear && p.Desired() == desired
                  && forall i: nat :: p.At(i).readOk
  }

  /** Exact convergence, firing or resolved: from a row that is not the
      desired one, the attempts on decision `j`'s pair number exactly up to
      the first push whose webhook and write both succeed, and from then on
      nothing is delivered. */
  lemma {:induction false} Convergence(cfg: Config, rows: Rows, pushes: seq<Push>, alert: Alert, desired: Status,
                                       j: nat)
    requires ChainValid(cfg.rules, cfg.receivers) && SteadyRun(pushes, alert, desired)
    requires j < |Routed(cfg.rules, alert.labels)|
    ensures var pair := Pair(Routed(cfg.rules, alert.labels)[j].name, cfg.Fingerprint(alert.labels));
            |On(Served(cfg, rows, pushes).log, pair)|
            == if Settled(rows, pair, desired) then 0 else AttemptsNeeded(pushes, j)
    decreases |pushes|
  {
    if pushes != [] {
      var push := pushes[0];
      assert push in pushes;
      var pair := PairOf(cfg, Decided(cfg, push)[j], push);
      var first := Processed(cfg, rows, push);
      FanOutIndependence(cfg, rows, push);
      assert OwnEffect(cfg, rows, Decided(cfg, push), push, j, first);
      Convergence(cfg, first.rows, pushes[1..], alert, desired, j);
      OnConcat(first.log, Served(cfg, first.rows, pushes[1..]).log, pair);
    }
  }

  /** `AttemptsNeeded` is min(n, position of the first full success). */
  lemma {:induction false} AttemptsNeededIsFirstSuccess(pushes: seq<Push>, j: nat)
    ensures var n := AttemptsNeeded(pushes, j);
            && n <= |pushes|
            && (forall k :: 0 <= k < n - 1 ==> !(pushes[k].At(j).hookOk && pushes[k].At(j).writeOk))
            && (n < |pushes| ==> n > 0 && pushes[n - 1].At(j).hookOk && pushes[n - 1].At(j).writeOk)
  {
    if pushes != [] {
      AttemptsNeededIsFirstSuccess(pushes[1..], j);
      var n := AttemptsNeeded(pushes, j);
      forall k | 0 <= k < n - 1
        ensures !(pushes[k].At(j).hookOk && pushes[k].At(j).writeOk)
      {
        if k > 0 {
          assert pushes[k] == pushes[1..][k - 1];
        }
      }
    }
  }

  // --- The smallest chain -------------------------------------------------

  /** One catch-all rule; where a single input settles a question, it is asked
      of this chain. */
  const ONE_RULE := Rule("all", map[], "hook", false)

  const ONE_RULE_CHAIN := Config([ONE_RULE], map["hook" := Receiver("hook")],
                                 map[map["id" := "a"] := "a", map["id" := "b"] := "b"])
}
