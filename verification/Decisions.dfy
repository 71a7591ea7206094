/** From an evaluation to an alert and a decision, and what the decision depends on. */
module Decisions {
  import opened Basics
  import opened Rules
  import opened Evaluator

  datatype Decision = ALLOW | FLAG | BLOCK

  function Level(d: Decision): nat {
    match d
    case ALLOW => 0
    case FLAG => 1
    case BLOCK => 2
  }

  datatype FraudAlert = FraudAlert(transactionId: Value, accountId: Value, ruleNames: seq<string>, severity: Severity,
                                   time: int)
  datatype FraudDecision = FraudDecision(transactionId: Value, decision: Decision, score: real, triggers: seq<string>,
                                         time: int)

  function TextOr(txn: Txn, f: Field): Value { if f in txn then txn[f] else Text("") }

  function BuildFraudDecision(txn: Txn, result: EvaluationResult, now: int): FraudDecision {
    var severity := if result.highest.Some? then result.highest.value else Low;
    var decision := if !result.suspicious then ALLOW else if severity in {High, Critical} then BLOCK else FLAG;
    var score := if !result.suspicious then 0.0 else if decision == FLAG then 0.3 else 0.8;
    var triggers := if result.suspicious then result.matchedRules else [];
    FraudDecision(TextOr(txn, TransactionId), decision, score, triggers, now)
  }

  /** What a caller can observe of the verdict on one transaction: decision, score, and the alert's severity if any. */
  datatype Judgement = Judgement(decision: Decision, score: real, alert: Option<Severity>)

  function Judge(rules: seq<Rule>, txn: Txn): Judgement {
    if AnyRaises(rules, txn) then Judgement(ALLOW, 0.0, None)
    else
      var r := Result(rules, txn);
      var d := BuildFraudDecision(txn, r, 0);
      Judgement(d.decision, d.score, r.highest)
  }

  /** Evaluates one transaction; an evaluation that raises yields ALLOW and no alert. */
  method EvaluateTransaction(rules: seq<Rule>, txn: Txn, now: int)
      returns (alert: Option<FraudAlert>, decision: FraudDecision)
    ensures Judge(rules, txn) ==
            Judgement(decision.decision, decision.score, if alert.Some? then Some(alert.value.severity) else None)
    ensures decision.triggers == if alert.Some? then alert.value.ruleNames else []
    ensures alert.Some? ==>
              && alert.value.ruleNames == Result(rules, txn).matchedRules && alert.value.time == now
              && alert.value.transactionId == (if TransactionId in txn then txn[TransactionId] else Text(""))
              && alert.value.accountId == (if AccountId in txn then txn[AccountId] else Text(""))
    ensures decision.transactionId == if TransactionId in txn then txn[TransactionId] else Text("")
    ensures decision.time == (if AnyRaises(rules, txn) then 0 else now)
  {
    hide Evaluate, HitsOf;
    var result := Dispatch(rules, txn);
    alert := None;
    if result.None? {
      decision := FraudDecision(TextOr(txn, TransactionId), ALLOW, 0.0, [], 0);
    } else {
      if result.value.suspicious {
        var severity := if result.value.highest.Some? then result.value.highest.value else Low;
        var names := result.value.matchedRules;
        alert := Some(FraudAlert(TextOr(txn, TransactionId), TextOr(txn, AccountId), names, severity, now));
      }
      decision := BuildFraudDecision(txn, result.value, now);
    }
  }

  // ----- what a judgement means

  ghost predicate Fires(rules: seq<Rule>, txn: Txn, least: Severity) {
    exists r :: r in rules && Hits(r, txn, Active) && Rank(least) <= Rank(r.severity)
  }

  /** ALLOW when a rule raises or no active rule matches; BLOCK when a high one matches; the alert is the highest. */
  lemma {:induction false} JudgeMeaning(rules: seq<Rule>, txn: Txn)
    ensures var j := Judge(rules, txn);
            && (j.decision == BLOCK <==> !AnyRaises(rules, txn) && Fires(rules, txn, High))
            && (j.decision == FLAG <==> !AnyRaises(rules, txn) && Fires(rules, txn, Low) && !Fires(rules, txn, High))
            && j.score == (match j.decision case ALLOW => 0.0 case FLAG => 0.3 case BLOCK => 0.8)
            && (j.alert.Some? <==> j.decision != ALLOW)
            && (forall s :: j.alert == Some(s) ==> Fires(rules, txn, s))
            && (forall s :: !AnyRaises(rules, txn) && Fires(rules, txn, s) ==>
                              j.alert.Some? && Rank(s) <= Rank(j.alert.value))
  {
    hide Evaluate, AnyRaises;
    var hits := HitsOf(rules, txn, Active);
    HitsOfMembers(rules, txn, Active);
    var highest := Highest(hits);
    if hits != [] {
      var r :| r in hits && r.severity == highest.value;
      assert Fires(rules, txn, highest.value) && Fires(rules, txn, Low);
      assert Rank(High) <= Rank(highest.value) ==> Fires(rules, txn, High);
    }
    forall s | Fires(rules, txn, s)
      ensures highest.Some? && Rank(s) <= Rank(highest.value)
    {
      var r :| r in rules && Hits(r, txn, Active) && Rank(s) <= Rank(r.severity);
      assert r in hits;
    }
  }

  /** The judgement, from the severities at or above which an active rule fires. */
  lemma {:induction false} JudgeByFiring(rules: seq<Rule>, txn: Txn)
    ensures Judge(rules, txn) ==
            if AnyRaises(rules, txn) || !Fires(rules, txn, Low) then Judgement(ALLOW, 0.0, None)
            else if Fires(rules, txn, Critical) then Judgement(BLOCK, 0.8, Some(Critical))
            else if Fires(rules, txn, High) then Judgement(BLOCK, 0.8, Some(High))
            else if Fires(rules, txn, Medium) then Judgement(FLAG, 0.3, Some(Medium))
            else Judgement(FLAG, 0.3, Some(Low))
  {
    JudgeMeaning(rules, txn);
    FiresBelow(rules, txn);
    hide Judge, Fires, AnyRaises;
    var j := Judge(rules, txn);
    assert j.alert.Some? ==> Fires(rules, txn, j.alert.value);
  }

  lemma {:induction false} FiresBelow(rules: seq<Rule>, txn: Txn)
    ensures forall s, t :: Fires(rules, txn, s) && Rank(t) <= Rank(s) ==> Fires(rules, txn, t)
  {
    hide Evaluate;
  }

  /** Two rule sets judge alike when the same severities fire and both or neither raise. */
  lemma {:induction false} JudgeDependsOnFiring(rules: seq<Rule>, others: seq<Rule>, txn: Txn)
    requires AnyRaises(rules, txn) == AnyRaises(others, txn)
    requires !AnyRaises(rules, txn) ==> forall s :: Fires(rules, txn, s) <==> Fires(others, txn, s)
    ensures Judge(rules, txn) == Judge(others, txn)
  {
    JudgeMeaning(rules, txn);
    JudgeMeaning(others, txn);
    hide AnyRaises, Fires, Judge;
    var a, b := Judge(rules, txn), Judge(others, txn);
    assert a.decision == b.decision;
    if a.alert.Some? {
      assert Fires(rules, txn, a.alert.value) && Fires(others, txn, b.alert.value);
      assert Rank(a.alert.value) == Rank(b.alert.value);
    }
  }

  /** The hits are as many as the matching rules of the mode, so they depend on the rules' multiset only. */
  lemma {:induction false} HitsCount(rules: seq<Rule>, txn: Txn, mode: Mode, r: Rule)
    ensures multiset(HitsOf(rules, txn, mode))[r] == if Hits(r, txn, mode) then multiset(rules)[r] else 0
  {
    if rules != [] {
      hide Hits;
      var n := |rules| - 1;
      HitsCount(rules[..n], txn, mode, r);
      assert rules == rules[..n] + [rules[n]];
    }
  }

  lemma {:induction false} SameHits(rules: seq<Rule>, others: seq<Rule>, txn: Txn, mode: Mode)
    requires multiset(rules) == multiset(others)
    ensures multiset(HitsOf(rules, txn, mode)) == multiset(HitsOf(others, txn, mode))
  {
    hide HitsOf, Hits;
    forall r
      ensures multiset(HitsOf(rules, txn, mode))[r] == multiset(HitsOf(others, txn, mode))[r]
    {
      HitsCount(rules, txn, mode, r);
      HitsCount(others, txn, mode, r);
    }
  }

  lemma {:induction false} SameIds(a: seq<Rule>, b: seq<Rule>)
    requires multiset(a) == multiset(b)
    ensures multiset(Ids(a)) == multiset(Ids(b)) && multiset(Tag(Ids(a))) == multiset(Tag(Ids(b)))
  {
    if a == [] {
      assert |multiset(b)| == |b|;
    } else {
      var n := |a| - 1;
      assert a[n] in multiset(b);
      var k :| 0 <= k < |b| && b[k] == a[n];
      WithoutMultiset(a, n);
      WithoutMultiset(b, k);
      assert Without(a, n) == a[..n];
      SubMultisetRest(multiset(a[..n]), multiset(Without(b, k)), a[n]);
      SubMultisetRest(multiset(Without(b, k)), multiset(a[..n]), a[n]);
      SameIds(a[..n], Without(b, k));
      IdsWithout(a, n);
      IdsWithout(b, k);
    }
  }

  lemma {:induction false} IdsWithout(rules: seq<Rule>, k: nat)
    requires k < |rules|
    ensures multiset(Ids(rules)) == multiset(Ids(Without(rules, k))) + multiset{rules[k].id}
    ensures multiset(Tag(Ids(rules))) == multiset(Tag(Ids(Without(rules, k)))) + multiset{rules[k].id + SHADOW_TAG}
  {
    WithoutMultiset(Ids(rules), k);
    WithoutMultiset(Tag(Ids(rules)), k);
    assert Ids(Without(rules, k)) == Without(Ids(rules), k);
    assert Tag(Ids(Without(rules, k))) == Without(Tag(Ids(rules)), k);
  }

  /** The order of the rules decides nothing but the order of the matched names. */
  lemma {:induction false} RuleOrderIsIrrelevant(rules: seq<Rule>, others: seq<Rule>, txn: Txn)
    requires multiset(rules) == multiset(others)
    ensures Judge(rules, txn) == Judge(others, txn)
    ensures multiset(Result(rules, txn).matchedRules) == multiset(Result(others, txn).matchedRules)
  {
    SameMatches(rules, others, txn);
    forall r
      ensures r in rules <==> r in others
    {
      assert r in rules <==> r in multiset(rules);
      assert r in others <==> r in multiset(others);
    }
    JudgeDependsOnFiring(rules, others, txn);
  }

  lemma {:induction false} SameMatches(rules: seq<Rule>, others: seq<Rule>, txn: Txn)
    requires multiset(rules) == multiset(others)
    ensures multiset(Result(rules, txn).matchedRules) == multiset(Result(others, txn).matchedRules)
  {
    SameHits(rules, others, txn, Active);
    SameHits(rules, others, txn, Shadow);
    hide HitsOf;
    SameIds(HitsOf(rules, txn, Active), HitsOf(others, txn, Active));
    SameIds(HitsOf(rules, txn, Shadow), HitsOf(others, txn, Shadow));
  }

  // ----- shadow rules

  function ActiveOnly(rules: seq<Rule>): seq<Rule> {
    if rules == [] then []
    else var n := |rules| - 1; ActiveOnly(rules[..n]) + if rules[n].mode == Active then [rules[n]] else []
  }

  lemma {:induction false} ActiveOnlyMembers(rules: seq<Rule>)
    ensures forall r :: r in ActiveOnly(rules) <==> r in rules && r.mode == Active
  {
    if rules != [] {
      ActiveOnlyMembers(rules[..|rules| - 1]);
      assert rules == rules[..|rules| - 1] + [rules[|rules| - 1]];
    }
  }

  ghost predicate ShadowRaises(rules: seq<Rule>, txn: Txn) {
    exists r :: r in rules && r.enabled && r.mode == Shadow && Evaluate(r, txn).Raised?
  }

  /** Shadow rules leave the judgement alone unless one raises, no active rule raises, and some active rule matches. */
  lemma {:induction false} NonInterferenceIsExact(rules: seq<Rule>, txn: Txn)
    ensures Judge(rules, txn) == Judge(ActiveOnly(rules), txn) <==>
            !(ShadowRaises(rules, txn) && !AnyRaises(ActiveOnly(rules), txn) && Fires(rules, txn, Low))
  {
    hide Evaluate;
    var active := ActiveOnly(rules);
    ActiveOnlyMembers(rules);
    JudgeMeaning(active, txn);
    JudgeMeaning(rules, txn);
    assert forall s :: Fires(rules, txn, s) <==> Fires(active, txn, s);
    if AnyRaises(rules, txn) == AnyRaises(active, txn) {
      JudgeDependsOnFiring(rules, active, txn);
    }
    assert AnyRaises(rules, txn) <==> AnyRaises(active, txn) || ShadowRaises(rules, txn);
  }

  lemma {:induction false} ActiveHitsOfActive(rules: seq<Rule>, txn: Txn)
    ensures HitsOf(ActiveOnly(rules), txn, Active) == HitsOf(rules, txn, Active)
  {
    if rules != [] {
      var n := |rules| - 1;
      ActiveHitsOfActive(rules[..n], txn);
      HitsOfSnoc(ActiveOnly(rules[..n]), rules[n], txn, Active);
      assert rules[n].mode != Active ==> ActiveOnly(rules) == ActiveOnly(rules[..n]);
    }
  }

  /** Adding, removing, permuting or editing shadow rules that do not raise changes no judgement and no active match. */
  lemma {:induction false} ShadowRulesDoNotInterfere(rules: seq<Rule>, others: seq<Rule>, txn: Txn)
    requires multiset(ActiveOnly(rules)) == multiset(ActiveOnly(others))
    requires !ShadowRaises(rules, txn) && !ShadowRaises(others, txn)
    ensures Judge(rules, txn) == Judge(others, txn)
    ensures multiset(HitsOf(rules, txn, Active)) == multiset(HitsOf(others, txn, Active))
  {
    ActiveHitsOfActive(rules, txn);
    ActiveHitsOfActive(others, txn);
    SameHits(ActiveOnly(rules), ActiveOnly(others), txn, Active);
    NonInterferenceIsExact(rules, txn);
    NonInterferenceIsExact(others, txn);
    RuleOrderIsIrrelevant(ActiveOnly(rules), ActiveOnly(others), txn);
  }

  /** Demoting a rule to shadow never raises the decision or the score, whether or not rules raise. */
  lemma {:induction false} DemotionNeverRaises(rules: seq<Rule>, k: nat, txn: Txn)
    requires k < |rules|
    ensures var before, after := Judge(rules, txn), Judge(rules[k := rules[k].(mode := Shadow)], txn);
            Level(after.decision) <= Level(before.decision) && after.score <= before.score
  {
    var demoted := rules[k := rules[k].(mode := Shadow)];
    JudgeMeaning(rules, txn);
    JudgeMeaning(demoted, txn);
    assert Evaluate(demoted[k], txn) == Evaluate(rules[k], txn);
    hide Evaluate, Judge;
    forall i | 0 <= i < |rules|
      ensures demoted[i].enabled == rules[i].enabled && Evaluate(demoted[i], txn) == Evaluate(rules[i], txn)
    {
    }
    RaisesPointwise(rules, demoted, txn);
    forall s | Fires(demoted, txn, s)
      ensures Fires(rules, txn, s)
    {
      var r :| r in demoted && Hits(r, txn, Active) && Rank(s) <= Rank(r.severity);
      var i :| 0 <= i < |demoted| && demoted[i] == r;
      assert rules[i] in rules;
    }
  }

  lemma {:induction false} RaisesPointwise(rules: seq<Rule>, others: seq<Rule>, txn: Txn)
    requires |rules| == |others|
    requires forall i | 0 <= i < |rules| ::
               rules[i].enabled == others[i].enabled && Evaluate(rules[i], txn) == Evaluate(others[i], txn)
    ensures AnyRaises(rules, txn) == AnyRaises(others, txn)
  {
    hide Evaluate;
    if r :| r in rules && r.enabled && Evaluate(r, txn).Raised? {
      var i :| 0 <= i < |rules| && rules[i] == r;
      assert others[i] in others;
    }
    if r :| r in others && r.enabled && Evaluate(r, txn).Raised? {
      var i :| 0 <= i < |others| && others[i] == r;
      assert rules[i] in rules;
    }
  }
}
