/** `Verify`: routing expectations compared as multisets by sorting. */
module Expectations {
  import opened Common
  import opened Routing

  datatype Expectation = Expectation(rules: seq<string>, receivers: seq<string>)

  datatype Case = Case(name: string, labels: Labels, expected: Expectation)

  datatype Mismatch = WrongRules(wanted: seq<string>, got: seq<string>)
                    | WrongReceivers(wanted: seq<string>, got: seq<string>)

  function RuleNames(decisions: seq<Rule>): (r: seq<string>)
    ensures |r| == |decisions| && forall i :: 0 <= i < |r| ==> r[i] == decisions[i].name
  {
    seq(|decisions|, i requires 0 <= i < |decisions| => decisions[i].name)
  }

  function ReceiverNames(decisions: seq<Rule>): (r: seq<string>)
    ensures |r| == |decisions| && forall i :: 0 <= i < |r| ==> r[i] == decisions[i].receiver
  {
    seq(|decisions|, i requires 0 <= i < |decisions| => decisions[i].receiver)
  }

  /** Both lists are the expected ones, as multisets. */
  ghost predicate Passes(rules: seq<Rule>, c: Case)
  {
    var decisions := Routed(rules, c.labels);
    && multiset(RuleNames(decisions)) == multiset(c.expected.rules)
    && multiset(ReceiverNames(decisions)) == multiset(c.expected.receivers)
  }

  method SortedCopy(s: seq<string>) returns (out: seq<string>)
    ensures Sorted(out) && multiset(out) == multiset(s)
  {
    out := Sort(s);
  }

  /** True exactly when the two are equal as multisets. */
  method SameSet(a: seq<string>, b: seq<string>) returns (same: bool)
    ensures same <==> multiset(a) == multiset(b)
  {
    if |a| != |b| {
      assert |multiset(a)| != |multiset(b)|;
      return false;
    }
    var ca := SortedCopy(a);
    var cb := SortedCopy(b);
    assert |ca| == |multiset(ca)| == |multiset(a)| == |a|;
    assert |cb| == |multiset(cb)| == |multiset(b)| == |b|;
    for i := 0 to |ca|
      invariant ca[..i] == cb[..i]
    {
      if ca[i] != cb[i] {
        if multiset(a) == multiset(b) {
          SortedIsCanonical(ca, cb);
        }
        return false;
      }
    }
    assert ca == ca[..|ca|] == cb[..|cb|] == cb;
    return true;
  }

  /** One message per list that differs, rules first, each showing the two
      lists in sorted order. */
  method CompareExpectations(expected: Expectation, gotRules: seq<string>, gotReceivers: seq<string>)
    returns (mismatches: seq<Mismatch>)
    ensures var rules := multiset(expected.rules) == multiset(gotRules);
            var receivers := multiset(expected.receivers) == multiset(gotReceivers);
            && |mismatches| == (if rules then 0 else 1) + (if receivers then 0 else 1)
            && (!rules ==> mismatches[0] == WrongRules(Sort(expected.rules), Sort(gotRules)))
            && (!receivers ==>
                  mismatches[|mismatches| - 1] == WrongReceivers(Sort(expected.receivers), Sort(gotReceivers)))
  {
    mismatches := [];
    var sameRules := SameSet(expected.rules, gotRules);
    if !sameRules {
      mismatches := mismatches + [WrongRules(Sort(expected.rules), Sort(gotRules))];
    }
    var sameReceivers := SameSet(expected.receivers, gotReceivers);
    if !sameReceivers {
      mismatches := mismatches + [WrongReceivers(Sort(expected.receivers), Sort(gotReceivers))];
    }
  }

  /** The cases among the first n that meet the verdict. */
  ghost function CountMeeting(verdict: Case -> bool, cases: seq<Case>, n: nat): nat
    requires n <= |cases|
  {
    if n == 0 then 0 else CountMeeting(verdict, cases, n - 1) + (if verdict(cases[n - 1]) then 1 else 0)
  }

  lemma {:induction false} CountedAll(verdict: Case -> bool, cases: seq<Case>, n: nat)
    requires n <= |cases|
    ensures CountMeeting(verdict, cases, n) <= n
    ensures CountMeeting(verdict, cases, n) == n <==> forall k :: 0 <= k < n ==> verdict(cases[k])
  {
    if n > 0 {
      CountedAll(verdict, cases, n - 1);
    }
  }

  ghost function PassesUnder(rules: seq<Rule>): Case -> bool
  {
    (c: Case) => Passes(rules, c)
  }

  /** The rule names and the receivers of the decisions, side by side. */
  method Collect(decisions: seq<Rule>) returns (gotRules: seq<string>, gotReceivers: seq<string>)
    ensures gotRules == RuleNames(decisions) && gotReceivers == ReceiverNames(decisions)
  {
    gotRules, gotReceivers := [], [];
    for i := 0 to |decisions|
      invariant gotRules == RuleNames(decisions)[..i]
      invariant gotReceivers == ReceiverNames(decisions)[..i]
    {
      gotRules := gotRules + [decisions[i].name];
      gotReceivers := gotReceivers + [decisions[i].receiver];
    }
  }

  method RunCase(rules: seq<Rule>, c: Case) returns (mismatches: seq<Mismatch>)
    ensures |mismatches| == 0 <==> PassesUnder(rules)(c)
  {
    var decisions := Evaluate(rules, c.labels);
    var gotRules, gotReceivers := Collect(decisions);
    mismatches := CompareExpectations(c.expected, gotRules, gotReceivers);
  }

  /** True exactly when every case passes; the two counts are those of the
      passing cases and of the others. */
  method Verify(rules: seq<Rule>, cases: seq<Case>) returns (allPass: bool, pass: nat, fail: nat)
    ensures allPass <==> forall c :: c in cases ==> PassesUnder(rules)(c)
    ensures pass == CountMeeting(PassesUnder(rules), cases, |cases|)
    ensures pass + fail == |cases|
    ensures allPass <==> fail == 0
  {
    allPass, pass, fail := true, 0, 0;
    for i := 0 to |cases|
      invariant pass == CountMeeting(PassesUnder(rules), cases, i)
      invariant pass + fail == i
      invariant allPass <==> fail == 0
    {
      var mismatches := RunCase(rules, cases[i]);
      if |mismatches| == 0 {
        pass := pass + 1;
        continue;
      }
      allPass := false;
      fail := fail + 1;
    }
    CountedAll(PassesUnder(rules), cases, |cases|);
  }

  /** A case file cannot tell a chain from the one without its dead rules. */
  lemma DeadRuleChangesNoVerdict(rules: seq<Rule>, c: Case, i: nat, j: nat)
    requires i < j < |rules| && !rules[i].continues && Subsumes(rules[i].conditions, rules[j].conditions)
    ensures Passes(rules[..j] + rules[j + 1..], c) <==> Passes(rules, c)
  {
    ShadowedRuleIsDead(rules, c.labels, i, j);
  }
}
