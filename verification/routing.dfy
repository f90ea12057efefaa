/** The routing function of internal/alertchain: `MatchAll`, `Evaluate`,
    its second implementation in `Trace`, `Validate`, and the rule-list
    warnings of `Check`. */
module Routing {
  import opened Common

  /** One row of the chain. `conditions` is the source's `Match` map. */
  datatype Rule = Rule(name: string, conditions: Labels, receiver: string, continues: bool)

  datatype Receiver = Receiver(name: string)

  // --- Matching -----------------------------------------------------------

  /** Every condition equals the label it names; a missing label is "". */
  predicate Matches(conditions: Labels, labels: Labels)
  {
    forall name | name in conditions :: Lookup(labels, name) == conditions[name]
  }

  method MatchAll(conditions: Labels, labels: Labels) returns (ok: bool)
    ensures ok <==> Matches(conditions, labels)
  {
    var unseen := conditions.Keys;
    while unseen != {}
      invariant unseen <= conditions.Keys
      invariant forall name :: name in conditions && name !in unseen ==> Lookup(labels, name) == conditions[name]
      decreases unseen
    {
      var name :| name in unseen;
      if Lookup(labels, name) != conditions[name] {
        return false;
      }
      unseen := unseen - {name};
    }
    return true;
  }

  /** Every entry of `weaker` is an entry of `stronger`. */
  predicate Subsumes(weaker: Labels, stronger: Labels)
  {
    forall name | name in weaker :: name in stronger && stronger[name] == weaker[name]
  }

  /** Inclusion of the match maps is exactly inclusion of what they match. */
  lemma SubsumesIffMatchesMore(weaker: Labels, stronger: Labels)
    ensures Subsumes(weaker, stronger)
       <==> forall labels: Labels :: Matches(stronger, labels) ==> Matches(weaker, labels)
  {
    if Subsumes(weaker, stronger) {
      forall labels: Labels | Matches(stronger, labels) ensures Matches(weaker, labels) {
      }
    } else {
      var name :| name in weaker && !(name in stronger && stronger[name] == weaker[name]);
      var labels := if name in stronger then stronger else stronger[name := weaker[name] + "x"];
      assert Matches(stronger, labels);
      assert Lookup(labels, name) != weaker[name];
    }
  }

  // --- Evaluate -----------------------------------------------------------

  /** The rules an alert with these labels is dispatched under, in order. */
  function Routed(rules: seq<Rule>, labels: Labels): seq<Rule>
  {
    if rules == [] then []
    else if !Matches(rules[0].conditions, labels) then Routed(rules[1..], labels)
    else if rules[0].continues then [rules[0]] + Routed(rules[1..], labels)
    else [rules[0]]
  }

  /** Rule `i` is matched, and no matching rule before it stops the chain. */
  ghost predicate Reached(rules: seq<Rule>, labels: Labels, i: nat)
    requires i < |rules|
  {
    && Matches(rules[i].conditions, labels)
    && forall j | 0 <= j < i && Matches(rules[j].conditions, labels) :: rules[j].continues
  }

  /** In order, once each, and all within from..|rules|. */
  predicate Increasing(ps: seq<nat>, from: nat, limit: nat)
  {
    && (forall k | 0 <= k < |ps| :: from <= ps[k] < limit)
    && (forall k, l | 0 <= k < l < |ps| :: ps[k] < ps[l])
  }

  /** `positions` lists, in order and once each, the reached rules. */
  ghost predicate ListsReached(rules: seq<Rule>, labels: Labels, positions: seq<nat>)
  {
    && Increasing(positions, 0, |rules|)
    && (forall i: nat | i < |rules| :: i in positions <==> Reached(rules, labels, i))
  }

  /** `decisions` are the rules at exactly the reached positions. */
  ghost predicate IsEvaluation(rules: seq<Rule>, labels: Labels, decisions: seq<Rule>)
  {
    exists positions: seq<nat> ::
      && ListsReached(rules, labels, positions)
      && |positions| == |decisions|
      && forall k | 0 <= k < |decisions| :: decisions[k] == rules[positions[k]]
  }

  /** The positions `Evaluate` keeps, from position `from` on. */
  function Positions(rules: seq<Rule>, labels: Labels, from: nat): seq<nat>
    requires from <= |rules|
    decreases |rules| - from
  {
    if from == |rules| then []
    else if !Matches(rules[from].conditions, labels) then Positions(rules, labels, from + 1)
    else if rules[from].continues then [from] + Positions(rules, labels, from + 1)
    else [from]
  }

  /** Rule `i` is matched, and no matching rule in from..i stops the chain. */
  ghost predicate ReachedFrom(rules: seq<Rule>, labels: Labels, from: nat, i: nat)
    requires i < |rules|
  {
    && from <= i && Matches(rules[i].conditions, labels)
    && forall j | from <= j < i && Matches(rules[j].conditions, labels) :: rules[j].continues
  }

  lemma {:induction false} PositionsAreReached(rules: seq<Rule>, labels: Labels, from: nat)
    requires from <= |rules|
    ensures forall i: nat :: i in Positions(rules, labels, from) <==> i < |rules| && ReachedFrom(rules, labels, from, i)
    decreases |rules| - from
  {
    if from < |rules| {
      PositionsAreReached(rules, labels, from + 1);
      forall i: nat | i < |rules|
        ensures ReachedFrom(rules, labels, from, i) <==>
                  (i == from && Matches(rules[from].conditions, labels))
                  || (ReachedFrom(rules, labels, from + 1, i)
                      && (Matches(rules[from].conditions, labels) ==> rules[from].continues))
      {
      }
    }
  }

  lemma {:induction false} PositionsIncrease(rules: seq<Rule>, labels: Labels, from: nat)
    requires from <= |rules|
    ensures Increasing(Positions(rules, labels, from), from, |rules|)
    decreases |rules| - from
  {
    if from < |rules| {
      PositionsIncrease(rules, labels, from + 1);
      IncreasingFromEarlier(Positions(rules, labels, from + 1), from, |rules|);
    }
  }

  lemma IncreasingFromEarlier(rest: seq<nat>, from: nat, limit: nat)
    requires from < limit && Increasing(rest, from + 1, limit)
    ensures Increasing(rest, from, limit) && Increasing([from] + rest, from, limit) && Increasing([from], from, limit)
  {
  }

  lemma {:induction false} RoutedAtPositions(rules: seq<Rule>, labels: Labels, from: nat)
    requires from <= |rules|
    ensures var ps, routed := Positions(rules, labels, from), Routed(rules[from..], labels);
            && |ps| == |routed|
            && forall k :: 0 <= k < |ps| ==> ps[k] < |rules| && routed[k] == rules[ps[k]]
    decreases |rules| - from
  {
    if from < |rules| {
      RoutedAtPositions(rules, labels, from + 1);
      assert rules[from..][1..] == rules[from + 1..];
    }
  }

  lemma RoutedIsEvaluation(rules: seq<Rule>, labels: Labels)
    ensures IsEvaluation(rules, labels, Routed(rules, labels))
  {
    var positions := Positions(rules, labels, 0);
    PositionsAreReached(rules, labels, 0);
    PositionsIncrease(rules, labels, 0);
    RoutedAtPositions(rules, labels, 0);
    assert rules[0..] == rules;
    forall i: nat | i < |rules| ensures i in positions <==> Reached(rules, labels, i) {
      assert ReachedFrom(rules, labels, 0, i) <==> Reached(rules, labels, i);
    }
    assert ListsReached(rules, labels, positions);
  }

  method Evaluate(rules: seq<Rule>, labels: Labels) returns (decisions: seq<Rule>)
    ensures decisions == Routed(rules, labels)
    ensures IsEvaluation(rules, labels, decisions)
  {
    decisions := [];
    for i := 0 to |rules|
      invariant Routed(rules, labels) == decisions + Routed(rules[i..], labels)
    {
      assert rules[i..][1..] == rules[i + 1..];
      var matched := MatchAll(rules[i].conditions, labels);
      if !matched {
        continue;
      }
      decisions := decisions + [rules[i]];
      if !rules[i].continues {
        break;
      }
    }
    RoutedIsEvaluation(rules, labels);
  }

  lemma {:induction false} RoutedEmptyIffNoMatch(rules: seq<Rule>, labels: Labels)
    ensures Routed(rules, labels) == []
       <==> forall i :: 0 <= i < |rules| ==> !Matches(rules[i].conditions, labels)
  {
    if rules != [] {
      RoutedEmptyIffNoMatch(rules[1..], labels);
      assert forall i :: 0 < i < |rules| ==> rules[i] == rules[1..][i - 1];
    }
  }

  lemma {:induction false} RoutedFromRules(rules: seq<Rule>, labels: Labels)
    ensures forall r :: r in Routed(rules, labels) ==> r in rules && Matches(r.conditions, labels)
  {
    if rules != [] {
      RoutedFromRules(rules[1..], labels);
    }
  }

  // --- Shadowing ----------------------------------------------------------

  lemma {:induction false} DropUnmatched(rules: seq<Rule>, labels: Labels, j: nat)
    requires j < |rules| && !Matches(rules[j].conditions, labels)
    ensures Routed(rules[..j] + rules[j + 1..], labels) == Routed(rules, labels)
  {
    var rest := rules[..j] + rules[j + 1..];
    if j == 0 {
      assert rest == rules[1..];
    } else {
      DropUnmatched(rules[1..], labels, j - 1);
      assert rest[1..] == rules[1..][..j - 1] + rules[1..][j..];
    }
  }

  /** A rule behind a non-continue rule whose match map is contained in its
      own never executes: deleting it changes no routing decision. */
  lemma {:induction false} ShadowedRuleIsDead(rules: seq<Rule>, labels: Labels, i: nat, j: nat)
    requires i < j < |rules|
    requires !rules[i].continues && Subsumes(rules[i].conditions, rules[j].conditions)
    ensures Routed(rules[..j] + rules[j + 1..], labels) == Routed(rules, labels)
    ensures !Reached(rules, labels, j)
  {
    var rest := rules[..j] + rules[j + 1..];
    if !Matches(rules[j].conditions, labels) {
      DropUnmatched(rules, labels, j);
    } else if i > 0 {
      ShadowedRuleIsDead(rules[1..], labels, i - 1, j - 1);
      assert rest[1..] == rules[1..][..j - 1] + rules[1..][j..];
    } else {
      assert rest[0] == rules[0];
    }
  }

  // --- Check --------------------------------------------------------------

  datatype Warning = NoRules | LastNotCatchAll | NeverExecutesAfter(position: nat)

  /** The order warnings are written in: the last-rule one, then by position. */
  predicate Precedes(first: Warning, second: Warning)
  {
    second.NeverExecutesAfter? && (first.NeverExecutesAfter? ==> first.position < second.position)
  }

  predicate IsCatchAll(rule: Rule)
  {
    |rule.conditions| == 0
  }

  /** `Check`: the warnings it writes, in the order it writes them. */
  method Check(rules: seq<Rule>) returns (warnings: seq<Warning>)
    ensures rules == [] ==> warnings == [NoRules]
    ensures NoRules in warnings ==> rules == []
    ensures rules != [] ==> (LastNotCatchAll in warnings <==> !IsCatchAll(rules[|rules| - 1]))
    ensures forall i: nat :: NeverExecutesAfter(i) in warnings
                        <==> i + 1 < |rules| && IsCatchAll(rules[i]) && !rules[i].continues
    ensures forall k, l :: 0 <= k < l < |warnings| ==> Precedes(warnings[k], warnings[l])
  {
    if |rules| == 0 {
      return [NoRules];
    }
    warnings := [];
    if !IsCatchAll(rules[|rules| - 1]) {
      warnings := warnings + [LastNotCatchAll];
    }
    for i := 0 to |rules| - 1
      invariant NoRules !in warnings
      invariant LastNotCatchAll in warnings <==> !IsCatchAll(rules[|rules| - 1])
      invariant forall j: nat :: NeverExecutesAfter(j) in warnings
                            <==> j < i && IsCatchAll(rules[j]) && !rules[j].continues
      invariant forall k, l :: 0 <= k < l < |warnings| ==> Precedes(warnings[k], warnings[l])
      invariant forall k :: 0 <= k < |warnings| ==> Precedes(warnings[k], NeverExecutesAfter(i))
    {
      if IsCatchAll(rules[i]) && !rules[i].continues {
        warnings := warnings + [NeverExecutesAfter(i)];
      }
    }
  }

  /** A rule is a catch-all exactly when it matches every alert. */
  lemma CatchAllExactly(rule: Rule)
    ensures IsCatchAll(rule) <==> forall labels: Labels :: Matches(rule.conditions, labels)
  {
    if IsCatchAll(rule) {
      assert rule.conditions == map[];
    } else {
      assert rule.conditions != map[];
      var name :| name in rule.conditions;
      var labels: Labels := map[name := rule.conditions[name] + "x"];
      assert Lookup(labels, name) != rule.conditions[name];
      assert !Matches(rule.conditions, labels);
    }
  }

  lemma CatchAllMatches(rule: Rule, labels: Labels)
    requires IsCatchAll(rule)
    ensures Matches(rule.conditions, labels)
  {
    assert rule.conditions == map[];
  }

  /** What the absence of the last-rule warning buys: no alert is dropped. */
  lemma CatchAllLastRoutesEverything(rules: seq<Rule>, labels: Labels)
    requires rules != [] && IsCatchAll(rules[|rules| - 1])
    ensures Routed(rules, labels) != []
  {
    RoutedEmptyIffNoMatch(rules, labels);
    CatchAllMatches(rules[|rules| - 1], labels);
  }

  /** What the other warning means: every rule behind the reported position
      can be deleted at once. */
  lemma {:induction false} NeverExecutes(rules: seq<Rule>, labels: Labels, i: nat)
    requires i < |rules| && IsCatchAll(rules[i]) && !rules[i].continues
    ensures Routed(rules[..i + 1], labels) == Routed(rules, labels)
    ensures forall j: nat :: i < j < |rules| ==> !Reached(rules, labels, j)
  {
    CatchAllMatches(rules[i], labels);
    if i > 0 {
      NeverExecutes(rules[1..], labels, i - 1);
      assert rules[..i + 1][1..] == rules[1..][..i];
    }
  }

  // --- Trace --------------------------------------------------------------

  datatype MuteCheck = CheckSkipped | CheckFailed | CheckMatched | CheckNotMatched

  datatype TraceReport = TraceError | WouldBeMuted | Report(matched: bool, finals: seq<Rule>)

  /** `Trace`: reports the same final list that `Evaluate` dispatches. */
  method Trace(rules: seq<Rule>, labels: Labels, mute: MuteCheck) returns (report: TraceReport)
    ensures report.TraceError? <==> mute.CheckFailed?
    ensures report.WouldBeMuted? <==> mute.CheckMatched?
    ensures report.Report? ==> report.finals == Routed(rules, labels)
    ensures report.Report? ==>
              (report.matched <==> exists i :: 0 <= i < |rules| && Matches(rules[i].conditions, labels))
  {
    if mute.CheckFailed? {
      return TraceError;
    }
    if mute.CheckMatched? {
      return WouldBeMuted;
    }
    var matched, finals := false, [];
    var i := 0;
    while i < |rules|
      invariant 0 <= i <= |rules|
      invariant Routed(rules, labels) == finals + Routed(rules[i..], labels)
      invariant matched <==> finals != []
    {
      assert rules[i..][1..] == rules[i + 1..];
      var ok := MatchAll(rules[i].conditions, labels);
      if !ok {
        i := i + 1;
        continue;
      }
      matched := true;
      finals := finals + [rules[i]];
      if !rules[i].continues {
        break;
      }
      i := i + 1;
    }
    RoutedEmptyIffNoMatch(rules, labels);
    return Report(matched, finals);
  }

  // --- Validate -----------------------------------------------------------

  datatype Invalid =
    | NameRequired(position: nat)
    | DuplicateName(position: nat)
    | ReceiverRequired(position: nat)
    | UndefinedReceiver(position: nat)

  /** Rule `i` breaks none of the invariants, given the rules before it. */
  predicate RuleValid(rules: seq<Rule>, receivers: map<string, Receiver>, i: nat)
    requires i < |rules|
  {
    && rules[i].name != ""
    && (forall j | 0 <= j < i :: rules[j].name != rules[i].name)
    && rules[i].receiver != ""
    && rules[i].receiver in receivers
  }

  predicate ChainValid(rules: seq<Rule>, receivers: map<string, Receiver>)
  {
    forall i: nat | i < |rules| :: RuleValid(rules, receivers, i)
  }

  lemma ChainValidExactly(rules: seq<Rule>, receivers: map<string, Receiver>)
    ensures ChainValid(rules, receivers) <==>
              && (forall i :: 0 <= i < |rules| ==> rules[i].name != "" && rules[i].receiver != "")
              && (forall i :: 0 <= i < |rules| ==> rules[i].receiver in receivers)
              && (forall i, j :: 0 <= i < j < |rules| ==> rules[i].name != rules[j].name)
  {
    if ChainValid(rules, receivers) {
      forall i | 0 <= i < |rules|
        ensures rules[i].name != "" && rules[i].receiver != "" && rules[i].receiver in receivers
        ensures forall j :: 0 <= j < i ==> rules[j].name != rules[i].name
      {
        assert RuleValid(rules, receivers, i);
      }
    }
  }

  /** `Validate`: accepts exactly the valid chains, and otherwise names the
      first offending rule and its first broken invariant. */
  method Validate(rules: seq<Rule>, receivers: map<string, Receiver>) returns (err: Option<Invalid>)
    ensures err.None? <==> ChainValid(rules, receivers)
    ensures err.None? <==>
              && (forall i :: 0 <= i < |rules| ==> rules[i].name != "" && rules[i].receiver != "")
              && (forall i :: 0 <= i < |rules| ==> rules[i].receiver in receivers)
              && (forall i, j :: 0 <= i < j < |rules| ==> rules[i].name != rules[j].name)
    ensures err.Some? ==>
              var i := err.value.position;
              && i < |rules|
              && (forall j: nat :: j < i ==> RuleValid(rules, receivers, j))
              && match err.value {
                case NameRequired(_) => rules[i].name == ""
                case DuplicateName(_) => rules[i].name != "" && exists j :: 0 <= j < i && rules[j].name == rules[i].name
                case ReceiverRequired(_) => rules[i].receiver == "" && rules[i].name != ""
                                            && forall j :: 0 <= j < i ==> rules[j].name != rules[i].name
                case UndefinedReceiver(_) => rules[i].receiver != "" && rules[i].receiver !in receivers
                                             && rules[i].name != ""
                                             && forall j :: 0 <= j < i ==> rules[j].name != rules[i].name
              }
  {
    ChainValidExactly(rules, receivers);
    var seenNames: set<string> := {};
    for i := 0 to |rules|
      invariant forall j: nat :: j < i ==> RuleValid(rules, receivers, j)
      invariant forall name :: name in seenNames <==> exists j :: 0 <= j < i && rules[j].name == name
    {
      var r := rules[i];
      if r.name == "" {
        assert !RuleValid(rules, receivers, i);
        return Some(NameRequired(i));
      }
      if r.name in seenNames {
        assert !RuleValid(rules, receivers, i);
        return Some(DuplicateName(i));
      }
      seenNames := seenNames + {r.name};
      if r.receiver == "" {
        assert !RuleValid(rules, receivers, i);
        return Some(ReceiverRequired(i));
      }
      if r.receiver !in receivers {
        assert !RuleValid(rules, receivers, i);
        return Some(UndefinedReceiver(i));
      }
    }
    return None;
  }

  predicate DistinctNames(rules: seq<Rule>)
  {
    forall i, j | 0 <= i < j < |rules| :: rules[i].name != rules[j].name
  }

  lemma {:induction false} RoutedKeepsNamesDistinct(rules: seq<Rule>, labels: Labels)
    requires DistinctNames(rules)
    ensures DistinctNames(Routed(rules, labels))
  {
    if rules != [] {
      RoutedKeepsNamesDistinct(rules[1..], labels);
      RoutedFromRules(rules[1..], labels);
      var tail := Routed(rules[1..], labels);
      forall k | 0 <= k < |tail| ensures tail[k].name != rules[0].name {
        assert tail[k] in rules[1..];
      }
    }
  }

  /** On a valid chain the decided rules have distinct names and every
      receiver they reference exists. */
  lemma ValidChainFansOutDistinctly(rules: seq<Rule>, receivers: map<string, Receiver>, labels: Labels)
    requires ChainValid(rules, receivers)
    ensures DistinctNames(Routed(rules, labels))
    ensures forall r :: r in Routed(rules, labels) ==> r.receiver in receivers
  {
    forall i, j | 0 <= i < j < |rules| ensures rules[i].name != rules[j].name {
      assert RuleValid(rules, receivers, j);
    }
    RoutedKeepsNamesDistinct(rules, labels);
    RoutedFromRules(rules, labels);
    forall r | r in Routed(rules, labels) ensures r.receiver in receivers {
      var i: nat :| i < |rules| && rules[i] == r;
      assert RuleValid(rules, receivers, i);
    }
  }
}
