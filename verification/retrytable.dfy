/** Retries and the notifications table itself, timestamps included: which
    time each row keeps, and exactly when the table ends as one uninterrupted
    POST leaves it. */
module RetryTable {
  import opened Common
  import opened Routing
  import opened Delivery
  import opened Retry

  /** A delivery of a plan and the row that records it. */
  datatype Pending = Pending(pair: Pair, row: Row)

  /** The deliveries decisions i, i+1, ... stand for when the call reads `now`. */
  function PendingFrom(cfg: Config, decisions: seq<Rule>, push: Push, now: Time, i: nat): seq<Pending>
    requires i <= |decisions|
    decreases |decisions| - i
  {
    if i == |decisions| then []
    else if decisions[i].receiver !in cfg.receivers then PendingFrom(cfg, decisions, push, now, i + 1)
    else
      [Pending(PairOf(cfg, decisions[i], push), Row(now, push.Desired()))]
      + PendingFrom(cfg, decisions, push, now, i + 1)
  }

  function PendingOf(cfg: Config, push: Push, now: Time): seq<Pending>
  {
    if push.mute == Clear then PendingFrom(cfg, Decided(cfg, push), push, now, 0) else []
  }

  /** The plan of a batch at the clock readings of the POST that carries it. */
  function PendingOfAll(cfg: Config, batch: seq<Push>, post: seq<Push>): seq<Pending>
    requires |post| == |batch|
  {
    if batch == [] then [] else PendingOf(cfg, batch[0], post[0].now) + PendingOfAll(cfg, batch[1..], post[1..])
  }

  // --- Running a plan on the table ----------------------------------------

  /** The table after one delivery, or its skip. */
  function Noted(rows: Rows, p: Pending): Rows
  {
    if Settled(rows, p.pair, p.row.status) then rows else rows[p.pair := p.row]
  }

  function NotedAll(rows: Rows, plan: seq<Pending>): Rows
    decreases |plan|
  {
    if plan == [] then rows else NotedAll(Noted(rows, plan[0]), plan[1..])
  }

  lemma {:induction false} NotedConcat(rows: Rows, a: seq<Pending>, b: seq<Pending>)
    ensures NotedAll(rows, a + b) == NotedAll(NotedAll(rows, a), b)
    decreases |a|
  {
    if a == [] {
      assert a + b == b;
    } else {
      NotedConcat(Noted(rows, a[0]), a[1..], b);
      assert (a + b)[1..] == a[1..] + b;
    }
  }

  lemma {:induction false} SameRowStaysSame(rows: Rows, rows': Rows, plan: seq<Pending>, pair: Pair)
    requires SameRow(rows, rows', pair)
    ensures SameRow(NotedAll(rows, plan), NotedAll(rows', plan), pair)
    decreases |plan|
  {
    if plan != [] {
      SameRowStaysSame(Noted(rows, plan[0]), Noted(rows', plan[0]), plan[1..], pair);
    }
  }

  /** All the plan asks of the pair is this status. */
  predicate AsksOnly(plan: seq<Pending>, pair: Pair, status: Status)
  {
    forall p | p in plan && p.pair == pair :: p.row.status == status
  }

  lemma {:induction false} SettledRowStays(rows: Rows, plan: seq<Pending>, pair: Pair, status: Status)
    requires AsksOnly(plan, pair, status) && Settled(rows, pair, status)
    ensures SameRow(NotedAll(rows, plan), rows, pair)
    decreases |plan|
  {
    if plan != [] {
      assert plan[0] in plan;
      SettledRowStays(Noted(rows, plan[0]), plan[1..], pair, status);
    }
  }

  lemma {:induction false} UnaskedRowStays(rows: Rows, plan: seq<Pending>, pair: Pair)
    requires forall p :: p in plan ==> p.pair != pair
    ensures SameRow(NotedAll(rows, plan), rows, pair)
    decreases |plan|
  {
    if plan != [] {
      assert plan[0] in plan;
      UnaskedRowStays(Noted(rows, plan[0]), plan[1..], pair);
    }
  }

  /** A change of status erases when the row was written before. */
  lemma {:induction false} ChangeErasesTime(rows: Rows, rows': Rows, plan: seq<Pending>, pair: Pair, status: Status,
                                            j: nat)
    requires Settled(rows, pair, status) && Settled(rows', pair, status)
    requires j < |plan| && plan[j].pair == pair && plan[j].row.status != status
    ensures SameRow(NotedAll(rows, plan), NotedAll(rows', plan), pair)
    decreases |plan|
  {
    if plan[0].pair == pair && plan[0].row.status != status {
      SameRowStaysSame(Noted(rows, plan[0]), Noted(rows', plan[0]), plan[1..], pair);
    } else {
      ChangeErasesTime(Noted(rows, plan[0]), Noted(rows', plan[0]), plan[1..], pair, status, j - 1);
    }
  }

  lemma AfterEntry(rows: Rows, plan: seq<Pending>, i: nat)
    requires i < |plan|
    ensures Settled(NotedAll(rows, plan[..i + 1]), plan[i].pair, plan[i].row.status)
    ensures NotedAll(rows, plan) == NotedAll(NotedAll(rows, plan[..i + 1]), plan[i + 1..])
  {
    assert plan[..i + 1] == plan[..i] + [plan[i]];
    NotedConcat(rows, plan[..i], [plan[i]]);
    assert plan == plan[..i + 1] + plan[i + 1..];
    NotedConcat(rows, plan[..i + 1], plan[i + 1..]);
  }

  /** A plan that asks the pair for two statuses decides its row alone. */
  lemma MixedPlanDecidesRow(rows: Rows, rows': Rows, plan: seq<Pending>, pair: Pair, i: nat, j: nat)
    requires i < j < |plan| && plan[i].pair == plan[j].pair == pair && plan[i].row.status != plan[j].row.status
    ensures SameRow(NotedAll(rows, plan), NotedAll(rows', plan), pair)
  {
    AfterEntry(rows, plan, i);
    AfterEntry(rows', plan, i);
    assert plan[i + 1..][j - i - 1] == plan[j];
    ChangeErasesTime(NotedAll(rows, plan[..i + 1]), NotedAll(rows', plan[..i + 1]), plan[i + 1..], pair,
                     plan[i].row.status, j - i - 1);
  }

  /** A plan that asks for one only keeps what its prefix, which asked for it
      already, has put there. */
  lemma UniformPlanKeepsRow(rows: Rows, plan: seq<Pending>, k: nat, pair: Pair, i: nat)
    requires i < k <= |plan| && plan[i].pair == pair && AsksOnly(plan, pair, plan[i].row.status)
    ensures SameRow(NotedAll(NotedAll(rows, plan[..k]), plan), NotedAll(rows, plan), pair)
  {
    var status, mid := plan[i].row.status, NotedAll(rows, plan[..k]);
    AfterEntry(rows, plan[..k], i);
    assert plan[..k][..i + 1] == plan[..i + 1];
    SettledRowStays(NotedAll(rows, plan[..i + 1]), plan[..k][i + 1..], pair, status);
    assert Settled(mid, pair, status);
    SettledRowStays(mid, plan, pair, status);
    assert plan == plan[..k] + plan[k..];
    NotedConcat(rows, plan[..k], plan[k..]);
    SettledRowStays(mid, plan[k..], pair, status);
  }

  lemma TwoStatusesDecide(rows: Rows, rows': Rows, plan: seq<Pending>, pair: Pair, row: Row)
    requires Pending(pair, row) in plan && !AsksOnly(plan, pair, row.status)
    ensures SameRow(NotedAll(rows, plan), NotedAll(rows', plan), pair)
  {
    var p :| p in plan && p.pair == pair && p.row.status != row.status;
    var i: nat :| i < |plan| && plan[i] == Pending(pair, row);
    var j: nat :| j < |plan| && plan[j] == p;
    if i < j {
      MixedPlanDecidesRow(rows, rows', plan, pair, i, j);
    } else {
      MixedPlanDecidesRow(rows, rows', plan, pair, j, i);
    }
  }

  lemma RowAbsorbsPrefix(rows: Rows, plan: seq<Pending>, k: nat, pair: Pair)
    requires k <= |plan|
    ensures SameRow(NotedAll(NotedAll(rows, plan[..k]), plan), NotedAll(rows, plan), pair)
  {
    var mid := NotedAll(rows, plan[..k]);
    if i: nat :| i < k && plan[i].pair == pair {
      assert plan[i] == Pending(pair, plan[i].row) && plan[i] in plan;
      if AsksOnly(plan, pair, plan[i].row.status) {
        UniformPlanKeepsRow(rows, plan, k, pair, i);
      } else {
        TwoStatusesDecide(mid, rows, plan, pair, plan[i].row);
      }
    } else {
      forall p | p in plan[..k] ensures p.pair != pair {
      }
      UnaskedRowStays(rows, plan[..k], pair);
      SameRowStaysSame(mid, rows, plan, pair);
    }
  }

  lemma SameTable(rows: Rows, rows': Rows)
    ensures rows == rows' <==> forall pair :: SameRow(rows, rows', pair)
  {
    if forall pair :: SameRow(rows, rows', pair) {
      assert forall pair :: SameRow(rows, rows', pair) ==> (pair in rows <==> pair in rows');
      assert rows.Keys == rows'.Keys;
      assert forall pair :: pair in rows ==> SameRow(rows, rows', pair);
    }
  }

  /** Running a plan again leaves the same table, from anywhere on the way. */
  lemma TableAbsorbsPrefix(rows: Rows, plan: seq<Pending>, k: nat)
    requires k <= |plan|
    ensures NotedAll(NotedAll(rows, plan[..k]), plan) == NotedAll(rows, plan)
  {
    forall pair ensures SameRow(NotedAll(NotedAll(rows, plan[..k]), plan), NotedAll(rows, plan), pair) {
      RowAbsorbsPrefix(rows, plan, k, pair);
    }
    SameTable(NotedAll(NotedAll(rows, plan[..k]), plan), NotedAll(rows, plan));
  }

  // --- Which row a plan leaves --------------------------------------------

  /** The row the plan's first delivery for the pair would write. */
  function FirstRow(plan: seq<Pending>, pair: Pair): Option<Row>
  {
    if plan == [] then None
    else if plan[0].pair == pair then Some(plan[0].row)
    else FirstRow(plan[1..], pair)
  }

  lemma {:induction false} FirstRowConcat(a: seq<Pending>, b: seq<Pending>, pair: Pair)
    ensures FirstRow(a + b, pair) == if FirstRow(a, pair).Some? then FirstRow(a, pair) else FirstRow(b, pair)
  {
    if a == [] {
      assert a + b == b;
    } else {
      FirstRowConcat(a[1..], b, pair);
      assert (a + b)[1..] == a[1..] + b;
    }
  }

  lemma {:induction false} FirstRowAsked(plan: seq<Pending>, pair: Pair)
    ensures var first := FirstRow(plan, pair);
            if first.Some? then Pending(pair, first.value) in plan else forall p :: p in plan ==> p.pair != pair
  {
    if plan != [] {
      FirstRowAsked(plan[1..], pair);
    }
  }

  /** A plan that asks a pair for one status, not there yet, leaves its first
      row. */
  lemma {:induction false} FirstRowStays(rows: Rows, plan: seq<Pending>, pair: Pair, status: Status)
    requires AsksOnly(plan, pair, status) && !Settled(rows, pair, status) && FirstRow(plan, pair).Some?
    ensures pair in NotedAll(rows, plan) && NotedAll(rows, plan)[pair] == FirstRow(plan, pair).value
    decreases |plan|
  {
    assert plan[0] in plan;
    var next := Noted(rows, plan[0]);
    if plan[0].pair == pair {
      SettledRowStays(next, plan[1..], pair, status);
    } else {
      FirstRowStays(next, plan[1..], pair, status);
    }
  }

  // --- Batches run plans --------------------------------------------------

  /** `result` has the table that the first k entries of `plan` leave. */
  ghost predicate Leaves(rows: Rows, plan: seq<Pending>, k: nat, result: Dispatch)
  {
    k <= |plan| && (!result.failed ==> k == |plan|) && result.rows == NotedAll(rows, plan[..k])
  }

  lemma LeavesThen(rows: Rows, plan: seq<Pending>, first: Dispatch, more: seq<Pending>, k: nat, second: Dispatch)
    requires Leaves(rows, plan, |plan|, first) && Leaves(first.rows, more, k, second)
    ensures Leaves(rows, plan + more, |plan| + k, second)
  {
    assert plan[..|plan|] == plan && (plan + more)[..|plan| + k] == plan + more[..k];
    NotedConcat(rows, plan, more[..k]);
  }

  lemma EntryLeaves(rows: Rows, p: Pending)
    ensures NotedAll(rows, [p]) == Noted(rows, p)
  {
    assert [p][1..] == [];
  }

  lemma {:induction false} FanOutLeaves(cfg: Config, rows: Rows, decisions: seq<Rule>, attempt: Push, final: Push,
                                        i: nat)
    requires i <= |decisions| && SamePush(attempt, final)
    ensures Leaves(rows, PendingFrom(cfg, decisions, final, attempt.now, i),
                   EntriesReachedFrom(cfg, decisions, attempt, i), FannedOut(cfg, rows, decisions, attempt, i))
    decreases |decisions| - i
  {
    if i == |decisions| {
    } else if decisions[i].receiver !in cfg.receivers {
      FanOutLeaves(cfg, rows, decisions, attempt, final, i + 1);
    } else if attempt.At(i).readOk {
      var p := Pending(PairOf(cfg, decisions[i], final), Row(attempt.now, final.Desired()));
      var next := EntryResult(rows, AttemptFor(cfg, decisions[i], attempt, i), attempt.now).rows;
      FanOutEntry(cfg, rows, decisions, attempt, i);
      assert attempt.At(i).hookOk && attempt.At(i).writeOk;
      EntryLeaves(rows, p);
      assert next == Noted(rows, p);
      FanOutLeaves(cfg, next, decisions, attempt, final, i + 1);
      assert [p][..1] == [p];
      LeavesThen(rows, [p], Dispatch(next, [], false), PendingFrom(cfg, decisions, final, attempt.now, i + 1),
                 EntriesReachedFrom(cfg, decisions, attempt, i + 1), FannedOut(cfg, next, decisions, attempt, i + 1));
    }
  }

  lemma ProcessLeaves(cfg: Config, rows: Rows, attempt: Push, final: Push)
    requires SamePush(attempt, final)
    ensures Leaves(rows, PendingOf(cfg, final, attempt.now), EntriesReached(cfg, attempt),
                   Processed(cfg, rows, attempt))
  {
    if attempt.mute == Clear {
      FanOutLeaves(cfg, rows, Decided(cfg, attempt), attempt, final, 0);
    }
  }

  lemma {:induction false} PostLeaves(cfg: Config, rows: Rows, attempt: seq<Push>, final: seq<Push>)
    requires SameBatch(attempt, final)
    ensures Leaves(rows, PendingOfAll(cfg, final, attempt), Progress(cfg, attempt), Posted(cfg, rows, attempt))
    decreases |attempt|
  {
    if attempt != [] {
      var first, k := Processed(cfg, rows, attempt[0]), EntriesReached(cfg, attempt[0]);
      var plan, rest := PendingOf(cfg, final[0], attempt[0].now), PendingOfAll(cfg, final[1..], attempt[1..]);
      ProcessLeaves(cfg, rows, attempt[0], final[0]);
      FailureIgnoresRows(cfg, rows, map[], attempt[0]);
      if first.failed {
        assert (plan + rest)[..k] == plan[..k];
      } else {
        PostLeaves(cfg, first.rows, attempt[1..], final[1..]);
        LeavesThen(rows, plan, first, rest, Progress(cfg, attempt[1..]), Posted(cfg, first.rows, attempt[1..]));
      }
    }
  }

  lemma FinalLeaves(cfg: Config, rows: Rows, final: seq<Push>)
    requires AllFaultless(final)
    ensures Posted(cfg, rows, final).rows == NotedAll(rows, PendingOfAll(cfg, final, final))
  {
    var plan := PendingOfAll(cfg, final, final);
    PostLeaves(cfg, rows, final, final);
    FaultlessPostCompletes(cfg, rows, final);
    assert plan[..|plan|] == plan;
  }

  // --- Retries run one merged plan ----------------------------------------

  /** What the aborted POST had reached of the plan, at its clock readings. */
  function ReachedPart(cfg: Config, attempt: seq<Push>, final: seq<Push>): seq<Pending>
    requires |attempt| == |final|
  {
    var plan, k := PendingOfAll(cfg, final, attempt), Progress(cfg, attempt);
    if k <= |plan| then plan[..k] else plan
  }

  /** What all aborted POSTs had reached, in turn. */
  function Earlier(cfg: Config, tries: seq<seq<Push>>, final: seq<Push>): seq<Pending>
    requires forall i :: 0 <= i < |tries| ==> |tries[i]| == |final|
  {
    if tries == [] then [] else ReachedPart(cfg, tries[0], final) + Earlier(cfg, tries[1..], final)
  }

  /** The aborted parts, and then the whole plan. */
  function Merged(cfg: Config, tries: seq<seq<Push>>, final: seq<Push>): seq<Pending>
    requires forall i :: 0 <= i < |tries| ==> |tries[i]| == |final|
  {
    Earlier(cfg, tries, final) + PendingOfAll(cfg, final, final)
  }

  /** At any clock readings the retries leave what the merged plan leaves. */
  lemma {:induction false} RetriesLeaveMerged(cfg: Config, rows: Rows, tries: seq<seq<Push>>, final: seq<Push>)
    requires AllSameBatch(tries, final) && AllFaultless(final)
    ensures PostedInTurn(cfg, rows, tries + [final]).0 == NotedAll(rows, Merged(cfg, tries, final))
    decreases |tries|
  {
    var all, plan := tries + [final], PendingOfAll(cfg, final, final);
    if tries == [] {
      assert all[1..] == [] && [] + plan == plan;
      FinalLeaves(cfg, rows, final);
    } else {
      var first, part := Posted(cfg, rows, tries[0]), ReachedPart(cfg, tries[0], final);
      assert all[0] == tries[0] && all[1..] == tries[1..] + [final];
      PostLeaves(cfg, rows, tries[0], final);
      RetriesLeaveMerged(cfg, first.rows, tries[1..], final);
      NotedConcat(rows, part, Merged(cfg, tries[1..], final));
      assert part + (Earlier(cfg, tries[1..], final) + plan) == (part + Earlier(cfg, tries[1..], final)) + plan;
    }
  }

  /** What is asked at some clock readings is asked at all. */
  ghost predicate AskedIn(p: Pending, plan: seq<Pending>)
  {
    exists q :: q in plan && q.pair == p.pair && q.row.status == p.row.status
  }

  lemma {:induction false} SameAskedFrom(cfg: Config, decisions: seq<Rule>, push: Push, now: Time, now': Time, i: nat)
    requires i <= |decisions|
    ensures forall p :: p in PendingFrom(cfg, decisions, push, now, i)
              ==> AskedIn(p, PendingFrom(cfg, decisions, push, now', i))
    decreases |decisions| - i
  {
    if i < |decisions| {
      SameAskedFrom(cfg, decisions, push, now, now', i + 1);
      if decisions[i].receiver in cfg.receivers {
        var pair, desired := PairOf(cfg, decisions[i], push), push.Desired();
        AskedInConcat([Pending(pair, Row(now, desired))], PendingFrom(cfg, decisions, push, now, i + 1),
                      [Pending(pair, Row(now', desired))], PendingFrom(cfg, decisions, push, now', i + 1));
      }
    }
  }

  lemma AskedInConcat(a: seq<Pending>, b: seq<Pending>, a': seq<Pending>, b': seq<Pending>)
    requires (forall p :: p in a ==> AskedIn(p, a')) || (|a| == |a'| == 1 && AskedIn(a[0], a'))
    requires forall p :: p in b ==> AskedIn(p, b')
    ensures forall p :: p in a + b ==> AskedIn(p, a' + b')
  {
    forall p | p in a + b ensures AskedIn(p, a' + b') {
      if p in a {
        var q :| q in a' && q.pair == p.pair && q.row.status == p.row.status;
        assert q in a' + b';
      } else {
        var q :| q in b' && q.pair == p.pair && q.row.status == p.row.status;
        assert q in a' + b';
      }
    }
  }

  lemma {:induction false} SameAsked(cfg: Config, batch: seq<Push>, post: seq<Push>, post': seq<Push>)
    requires |post| == |post'| == |batch|
    ensures forall p :: p in PendingOfAll(cfg, batch, post) ==> AskedIn(p, PendingOfAll(cfg, batch, post'))
  {
    if batch != [] {
      SameAskedFrom(cfg, Decided(cfg, batch[0]), batch[0], post[0].now, post'[0].now, 0);
      SameAsked(cfg, batch[1..], post[1..], post'[1..]);
      AskedInConcat(PendingOf(cfg, batch[0], post[0].now), PendingOfAll(cfg, batch[1..], post[1..]),
                    PendingOf(cfg, batch[0], post'[0].now), PendingOfAll(cfg, batch[1..], post'[1..]));
    }
  }

  lemma {:induction false} EarlierIsAsked(cfg: Config, tries: seq<seq<Push>>, final: seq<Push>)
    requires forall i :: 0 <= i < |tries| ==> |tries[i]| == |final|
    ensures forall p :: p in Earlier(cfg, tries, final) ==> AskedIn(p, PendingOfAll(cfg, final, final))
  {
    if tries != [] {
      SameAsked(cfg, final, tries[0], final);
      EarlierIsAsked(cfg, tries[1..], final);
      forall p | p in ReachedPart(cfg, tries[0], final) ensures AskedIn(p, PendingOfAll(cfg, final, final)) {
        assert p in PendingOfAll(cfg, final, tries[0]);
      }
    }
  }

  // --- Which time survives ------------------------------------------------

  /** The plan asks this pair, whose row does not say so yet, for one status. */
  predicate AsksAnew(rows: Rows, plan: seq<Pending>, pair: Pair)
  {
    var first := FirstRow(plan, pair);
    first.Some? && AsksOnly(plan, pair, first.value.status) && !Settled(rows, pair, first.value.status)
  }

  /** Such a pair's row keeps the clock reading of the first POST that reached
      it, however late the retries come. */
  lemma FirstTimeSurvives(cfg: Config, rows: Rows, tries: seq<seq<Push>>, final: seq<Push>, pair: Pair)
    requires AllSameBatch(tries, final) && AllFaultless(final)
    requires AsksAnew(rows, PendingOfAll(cfg, final, final), pair)
    ensures var rows', merged := PostedInTurn(cfg, rows, tries + [final]).0, Merged(cfg, tries, final);
            pair in rows' && FirstRow(merged, pair) == Some(rows'[pair])
  {
    var plan, earlier := PendingOfAll(cfg, final, final), Earlier(cfg, tries, final);
    var status := FirstRow(plan, pair).value.status;
    RetriesLeaveMerged(cfg, rows, tries, final);
    EarlierIsAsked(cfg, tries, final);
    FirstRowConcat(earlier, plan, pair);
    assert AsksOnly(earlier + plan, pair, status);
    FirstRowStays(rows, earlier + plan, pair, status);
  }

  /** Every other pair's row is that of one uninterrupted POST. */
  lemma OthersAgree(cfg: Config, rows: Rows, tries: seq<seq<Push>>, final: seq<Push>, pair: Pair)
    requires AllSameBatch(tries, final) && AllFaultless(final)
    requires !AsksAnew(rows, PendingOfAll(cfg, final, final), pair)
    ensures SameRow(PostedInTurn(cfg, rows, tries + [final]).0, Posted(cfg, rows, final).rows, pair)
  {
    var plan, earlier := PendingOfAll(cfg, final, final), Earlier(cfg, tries, final);
    var first, mid := FirstRow(plan, pair), NotedAll(rows, earlier);
    RetriesLeaveMerged(cfg, rows, tries, final);
    FinalLeaves(cfg, rows, final);
    NotedConcat(rows, earlier, plan);
    EarlierIsAsked(cfg, tries, final);
    FirstRowAsked(plan, pair);
    if first.None? {
      UnaskedRowStays(rows, earlier, pair);
      SameRowStaysSame(mid, rows, plan, pair);
    } else if AsksOnly(plan, pair, first.value.status) {
      SettledRowStays(rows, earlier, pair, first.value.status);
      SameRowStaysSame(mid, rows, plan, pair);
    } else {
      TwoStatusesDecide(mid, rows, plan, pair, first.value);
    }
  }

  /** For every pair asked anew, the first POST that reached it read the clock
      as the final one does for its first delivery. */
  ghost predicate FirstTimesAgree(cfg: Config, rows: Rows, tries: seq<seq<Push>>, final: seq<Push>)
    requires forall i :: 0 <= i < |tries| ==> |tries[i]| == |final|
  {
    var plan := PendingOfAll(cfg, final, final);
    forall pair :: AsksAnew(rows, plan, pair) ==> FirstRow(Merged(cfg, tries, final), pair) == FirstRow(plan, pair)
  }

  lemma NoTriesMerge(cfg: Config, rows: Rows, final: seq<Push>, pair: Pair)
    requires AllFaultless(final) && AsksAnew(rows, PendingOfAll(cfg, final, final), pair)
    ensures pair in Posted(cfg, rows, final).rows
    ensures FirstRow(PendingOfAll(cfg, final, final), pair) == Some(Posted(cfg, rows, final).rows[pair])
  {
    var plan := PendingOfAll(cfg, final, final);
    FinalLeaves(cfg, rows, final);
    FirstRowStays(rows, plan, pair, FirstRow(plan, pair).value.status);
  }

  /** Retries, at whatever clock readings and for mixed batches too, leave the
      very table of one uninterrupted POST, timestamps included, if and only
      if those first times agree. */
  lemma RetriesLeaveTableExactly(cfg: Config, rows: Rows, tries: seq<seq<Push>>, final: seq<Push>)
    requires AllSameBatch(tries, final) && AllFaultless(final)
    ensures PostedInTurn(cfg, rows, tries + [final]).0 == Posted(cfg, rows, final).rows
       <==> FirstTimesAgree(cfg, rows, tries, final)
  {
    var retried, once := PostedInTurn(cfg, rows, tries + [final]).0, Posted(cfg, rows, final).rows;
    var plan := PendingOfAll(cfg, final, final);
    forall pair ensures SameRow(retried, once, pair) <==>
        (AsksAnew(rows, plan, pair) ==> FirstRow(Merged(cfg, tries, final), pair) == FirstRow(plan, pair))
    {
      if AsksAnew(rows, plan, pair) {
        FirstTimeSurvives(cfg, rows, tries, final, pair);
        NoTriesMerge(cfg, rows, final, pair);
      } else {
        OthersAgree(cfg, rows, tries, final, pair);
      }
    }
    SameTable(retried, once);
  }

  // --- At the same clock readings -----------------------------------------

  /** The same alerts sent again, at the same clock readings. */
  ghost predicate AllSameTimes(tries: seq<seq<Push>>, final: seq<Push>)
  {
    && AllSameBatch(tries, final)
    && forall i, j :: 0 <= i < |tries| && 0 <= j < |final| ==> tries[i][j].now == final[j].now
  }

  lemma {:induction false} SameClockSamePlan(cfg: Config, batch: seq<Push>, post: seq<Push>, post': seq<Push>)
    requires |post| == |post'| == |batch| && forall j :: 0 <= j < |batch| ==> post[j].now == post'[j].now
    ensures PendingOfAll(cfg, batch, post) == PendingOfAll(cfg, batch, post')
  {
    if batch != [] {
      SameClockSamePlan(cfg, batch[1..], post[1..], post'[1..]);
    }
  }

  /** In particular they leave it when the clock readings are the same. */
  lemma {:induction false} RetriesLeaveSameTable(cfg: Config, rows: Rows, tries: seq<seq<Push>>, final: seq<Push>)
    requires AllSameTimes(tries, final) && AllFaultless(final)
    ensures PostedInTurn(cfg, rows, tries + [final]).0 == Posted(cfg, rows, final).rows
    ensures FirstTimesAgree(cfg, rows, tries, final)
    decreases |tries|
  {
    var all := tries + [final];
    FinalLeaves(cfg, rows, final);
    if tries == [] {
      assert all[1..] == [];
    } else {
      var first := Posted(cfg, rows, tries[0]);
      assert all[0] == tries[0] && all[1..] == tries[1..] + [final];
      PostLeaves(cfg, rows, tries[0], final);
      SameClockSamePlan(cfg, final, tries[0], final);
      RetriesLeaveSameTable(cfg, first.rows, tries[1..], final);
      FinalLeaves(cfg, first.rows, final);
      TableAbsorbsPrefix(rows, PendingOfAll(cfg, final, final), Progress(cfg, tries[0]));
    }
    RetriesLeaveTableExactly(cfg, rows, tries, final);
  }

  // --- At later ones ------------------------------------------------------

  /** A firing alert processed at this clock reading. */
  function FiringAt(id: string, now: Time, mute: MuteAnswer): Push
  {
    Push(Alert(map["id" := id], 0, None), mute, now, [])
  }

  lemma OneRuleNotes(rows: Rows, push: Push)
    requires push.mute == Clear && Faultless(push)
    ensures var p := Pending(PairOf(ONE_RULE_CHAIN, ONE_RULE, push), Row(push.now, push.Desired()));
            var result := Processed(ONE_RULE_CHAIN, rows, push);
            !result.failed && result.rows == Noted(rows, p)
  {
    var decisions := Decided(ONE_RULE_CHAIN, push);
    assert decisions == [ONE_RULE];
    var attempt := AttemptFor(ONE_RULE_CHAIN, ONE_RULE, push, 0);
    assert push.At(0).readOk && attempt.ok && attempt.recorded;
    FanOutEntry(ONE_RULE_CHAIN, rows, decisions, push, 0);
    var next := EntryResult(rows, attempt, push.now).rows;
    assert FannedOut(ONE_RULE_CHAIN, next, decisions, push, 1) == Dispatch(next, [], false);
  }

  lemma OneAlertPosts(rows: Rows, push: Push)
    ensures Posted(ONE_RULE_CHAIN, rows, [push]).rows == Processed(ONE_RULE_CHAIN, rows, push).rows
  {
    var first := Processed(ONE_RULE_CHAIN, rows, push);
    assert [push][1..] == [] && Posted(ONE_RULE_CHAIN, first.rows, []) == Dispatch(first.rows, [], false);
  }

  lemma TwoAlertsPost(rows: Rows, first: Push, second: Push, noted: Rows)
    requires Faultless(first) && first.mute == Clear
    requires noted == Noted(rows, Pending(PairOf(ONE_RULE_CHAIN, ONE_RULE, first), Row(first.now, first.Desired())))
    ensures Posted(ONE_RULE_CHAIN, rows, [first, second]).rows == Processed(ONE_RULE_CHAIN, noted, second).rows
  {
    OneRuleNotes(rows, first);
    assert [first, second][1..] == [second];
    OneAlertPosts(noted, second);
  }

  /** A POST that delivers alert a at 5 and is aborted at alert b, sent again
      at 9, leaves a's row at 5; one POST at 9 leaves it at 9. */
  lemma LaterRetryKeepsEarlierTime()
    ensures var aborted := [FiringAt("a", 5, Clear), FiringAt("b", 5, Unreadable)];
            var final := [FiringAt("a", 9, Clear), FiringAt("b", 9, Clear)];
            var retried, once := PostedInTurn(ONE_RULE_CHAIN, map[], [aborted] + [final]).0,
                                 Posted(ONE_RULE_CHAIN, map[], final).rows;
            var a := Pair("all", "a");
            AllSameBatch([aborted], final) && AllFaultless(final)
            && a in retried && retried[a] == Row(5, FiringSent) && a in once && once[a] == Row(9, FiringSent)
  {
    var aborted := [FiringAt("a", 5, Clear), FiringAt("b", 5, Unreadable)];
    var final := [FiringAt("a", 9, Clear), FiringAt("b", 9, Clear)];
    var a := Pair("all", "a");
    OneRulePairs(5, Clear, 5, Unreadable);
    OneRulePairs(9, Clear, 9, Clear);
    var early: Rows, late: Rows := map[a := Row(5, FiringSent)], map[a := Row(9, FiringSent)];
    TwoAlertsPost(map[], aborted[0], aborted[1], early);
    TwoAlertsPost(early, final[0], final[1], early);
    OneRuleNotes(early, final[1]);
    TwoAlertsPost(map[], final[0], final[1], late);
    OneRuleNotes(late, final[1]);
    TwoInTurn(map[], aborted, final);
    assert forall i :: 0 <= i < 2 ==> SamePush(aborted[i], final[i]);
  }

  lemma TwoInTurn(rows: Rows, aborted: seq<Push>, final: seq<Push>)
    ensures PostedInTurn(ONE_RULE_CHAIN, rows, [aborted] + [final]).0
         == Posted(ONE_RULE_CHAIN, Posted(ONE_RULE_CHAIN, rows, aborted).rows, final).rows
  {
    var mid := Posted(ONE_RULE_CHAIN, rows, aborted).rows;
    var end := Posted(ONE_RULE_CHAIN, mid, final).rows;
    assert ([aborted] + [final])[0] == aborted && ([aborted] + [final])[1..] == [final] && [final][1..] == [];
    assert PostedInTurn(ONE_RULE_CHAIN, end, []).0 == end;
    assert PostedInTurn(ONE_RULE_CHAIN, mid, [final]).0 == end;
  }

  lemma OneRulePairs(now: Time, mute: MuteAnswer, now': Time, mute': MuteAnswer)
    ensures PairOf(ONE_RULE_CHAIN, ONE_RULE, FiringAt("a", now, mute)) == Pair("all", "a")
    ensures PairOf(ONE_RULE_CHAIN, ONE_RULE, FiringAt("b", now', mute')) == Pair("all", "b")
  {
    assert map["id" := "a"]["id"] != map["id" := "b"]["id"];
    assert ONE_RULE_CHAIN.Fingerprint(map["id" := "a"]) == "a" && ONE_RULE_CHAIN.Fingerprint(map["id" := "b"]) == "b";
  }
}
