/** The evaluators: one pass over the enabled rules, with active and shadow matches collected side by side. */
module Evaluator {
  import opened Basics
  import opened Rules

  datatype EvaluationResult = EvaluationResult(suspicious: bool, matchedRules: seq<string>, highest: Option<Severity>)

  predicate Hits(r: Rule, txn: Txn, mode: Mode) { r.enabled && r.mode == mode && Evaluate(r, txn) == Verdict(true) }

  /** The enabled rules of one mode that match, in rule order. */
  function HitsOf(rules: seq<Rule>, txn: Txn, mode: Mode): seq<Rule> {
    if rules == [] then []
    else
      var n := |rules| - 1;
      HitsOf(rules[..n], txn, mode) + if Hits(rules[n], txn, mode) then [rules[n]] else []
  }

  function Ids(rules: seq<Rule>): (ids: seq<string>)
    ensures |ids| == |rules| && forall i | 0 <= i < |ids| :: ids[i] == rules[i].id
  {
    seq(|rules|, i requires 0 <= i < |rules| => rules[i].id)
  }

  function Severities(rules: seq<Rule>): (s: seq<Severity>)
    ensures |s| == |rules| && forall i | 0 <= i < |s| :: s[i] == rules[i].severity
  {
    seq(|rules|, i requires 0 <= i < |rules| => rules[i].severity)
  }

  function Tag(ids: seq<string>): (tagged: seq<string>)
    ensures |tagged| == |ids| && forall i | 0 <= i < |ids| :: tagged[i] == ids[i] + SHADOW_TAG
  {
    seq(|ids|, i requires 0 <= i < |ids| => ids[i] + SHADOW_TAG)
  }

  predicate AnyRaises(rules: seq<Rule>, txn: Txn) {
    exists r :: r in rules && r.enabled && Evaluate(r, txn).Raised?
  }

  /** `s` is the severity of one of the rules, and no rule is more severe. */
  ghost predicate IsHighest(s: Severity, rules: seq<Rule>) {
    (exists r :: r in rules && r.severity == s) && forall r | r in rules :: Rank(r.severity) <= Rank(s)
  }

  function Highest(rules: seq<Rule>): (s: Option<Severity>)
    ensures s.None? <==> rules == []
    ensures s.Some? ==> IsHighest(s.value, rules)
  {
    if rules == [] then None
    else
      var n := |rules| - 1;
      var before, last := Highest(rules[..n]), rules[n].severity;
      assert rules[n] in rules && forall r | r in rules :: r in rules[..n] || r == rules[n];
      if before.None? || Rank(before.value) < Rank(last) then Some(last) else before
  }

  /** The result of an evaluation that does not raise. */
  function Result(rules: seq<Rule>, txn: Txn): EvaluationResult {
    var active, shadow := HitsOf(rules, txn, Active), HitsOf(rules, txn, Shadow);
    EvaluationResult(active != [], Ids(active) + Tag(Ids(shadow)), Highest(active))
  }

  lemma {:induction false} HitsOfMembers(rules: seq<Rule>, txn: Txn, mode: Mode)
    ensures forall r :: r in HitsOf(rules, txn, mode) <==> r in rules && Hits(r, txn, mode)
  {
    if rules != [] {
      var n := |rules| - 1;
      HitsOfMembers(rules[..n], txn, mode);
      assert rules == rules[..n] + [rules[n]];
    }
  }

  lemma {:induction false} HitsOfSnoc(rules: seq<Rule>, r: Rule, txn: Txn, mode: Mode)
    ensures HitsOf(rules + [r], txn, mode) == HitsOf(rules, txn, mode) + if Hits(r, txn, mode) then [r] else []
  {
    assert (rules + [r])[..|rules|] == rules;
  }

  /** The hits of two lists of rules, one after the other, are the hits of each in turn. */
  lemma {:induction false} HitsOfAppend(a: seq<Rule>, b: seq<Rule>, txn: Txn, mode: Mode)
    ensures HitsOf(a + b, txn, mode) == HitsOf(a, txn, mode) + HitsOf(b, txn, mode)
  {
    if b == [] {
      assert a + b == a;
    } else {
      var init, last := b[..|b| - 1], b[|b| - 1];
      HitsOfAppend(a, init, txn, mode);
      AppendAssoc(a, init, [last]);
      assert b == init + [last];
      HitsOfSnoc(a + init, last, txn, mode);
      HitsOfSnoc(init, last, txn, mode);
      AppendAssoc(HitsOf(a, txn, mode), HitsOf(init, txn, mode), if Hits(last, txn, mode) then [last] else []);
      hide HitsOf, Hits;
    }
  }

  lemma {:induction false} HitsOfOne(r: Rule, txn: Txn, mode: Mode)
    ensures HitsOf([r], txn, mode) ==
            if r.enabled && r.mode == mode && Evaluate(r, txn) == Verdict(true) then [r] else []
  {
    assert [r][..0] == [];
    hide Evaluate;
  }

  /** How one more rule extends the collected ids and severities. */
  lemma {:induction false} CollectedStep(rules: seq<Rule>, i: nat, txn: Txn, mode: Mode)
    requires i < |rules|
    ensures var before, after := HitsOf(rules[..i], txn, mode), HitsOf(rules[..i + 1], txn, mode);
            && Ids(after) == Ids(before) + (if Hits(rules[i], txn, mode) then [rules[i].id] else [])
            && Severities(after) == Severities(before) + (if Hits(rules[i], txn, mode) then [rules[i].severity] else [])
  {
    hide Hits, HitsOf;
    assert rules[..i + 1] == rules[..i] + [rules[i]];
    HitsOfSnoc(rules[..i], rules[i], txn, mode);
  }

  /** Disabled rules neither match nor raise. */
  lemma {:induction false} DisabledRulesAreInert(rules: seq<Rule>, txn: Txn, mode: Mode)
    ensures HitsOf(EnabledOf(rules), txn, mode) == HitsOf(rules, txn, mode)
    ensures AnyRaises(EnabledOf(rules), txn) == AnyRaises(rules, txn)
  {
    hide Evaluate;
    EnabledMembers(rules);
    if rules != [] {
      var n := |rules| - 1;
      DisabledRulesAreInert(rules[..n], txn, mode);
      HitsOfSnoc(EnabledOf(rules[..n]), rules[n], txn, mode);
      assert !rules[n].enabled ==> EnabledOf(rules) == EnabledOf(rules[..n]);
    }
  }

  function EnabledOf(rules: seq<Rule>): seq<Rule> {
    if rules == [] then []
    else var n := |rules| - 1; EnabledOf(rules[..n]) + if rules[n].enabled then [rules[n]] else []
  }

  lemma {:induction false} EnabledMembers(rules: seq<Rule>)
    ensures forall r :: r in EnabledOf(rules) <==> r in rules && r.enabled
  {
    if rules != [] {
      var n := |rules| - 1;
      EnabledMembers(rules[..n]);
      assert rules == rules[..n] + [rules[n]];
    }
  }

  /** The production evaluator. A raising rule ends the evaluation with no result. */
  method Dispatch(rules: seq<Rule>, txn: Txn) returns (r: Option<EvaluationResult>)
    ensures r == if AnyRaises(rules, txn) then None else Some(Result(rules, txn))
  {
    var kept := SelectEnabled(rules);
    DisabledRulesAreInert(rules, txn, Active);
    DisabledRulesAreInert(rules, txn, Shadow);
    EnabledMembers(rules);
    var completed, active, shadow, severities := CollectMatches(kept, txn);
    if !completed {
      return None;
    }
    var highest := MaxSeverity(severities, HitsOf(kept, txn, Active));
    var tagged := TagAll(shadow);
    return Some(EvaluationResult(active != [], active + tagged, highest));
  }

  /** The evaluation loop: matches of both modes, and the severities of the active ones. */
  method CollectMatches(kept: seq<Rule>, txn: Txn)
      returns (completed: bool, active: seq<string>, shadow: seq<string>, severities: seq<Severity>)
    requires forall r | r in kept :: r.enabled
    ensures completed <==> !AnyRaises(kept, txn)
    ensures completed ==> active == Ids(HitsOf(kept, txn, Active)) && shadow == Ids(HitsOf(kept, txn, Shadow))
    ensures completed ==> Severities(HitsOf(kept, txn, Active)) == severities
  {
    assert HitsOf([], txn, Active) == [] && HitsOf([], txn, Shadow) == [];
    hide Evaluate, HitsOf, Ids, Severities;
    active, shadow, severities := [], [], [];
    for i := 0 to |kept|
      invariant active == Ids(HitsOf(kept[..i], txn, Active)) && shadow == Ids(HitsOf(kept[..i], txn, Shadow))
      invariant severities == Severities(HitsOf(kept[..i], txn, Active))
      invariant forall j | 0 <= j < i :: Evaluate(kept[j], txn).Verdict?
    {
      CollectedStep(kept, i, txn, Active);
      CollectedStep(kept, i, txn, Shadow);
      var outcome := Evaluate(kept[i], txn);
      if outcome.Raised? {
        assert kept[i] in kept;
        return false, [], [], [];
      }
      if outcome.matched {
        if kept[i].mode == Shadow {
          shadow := shadow + [kept[i].id];
        } else {
          active := active + [kept[i].id];
          severities := severities + [kept[i].severity];
        }
      }
    }
    assert kept[..|kept|] == kept;
    completed := true;
  }

  method TagAll(ids: seq<string>) returns (tagged: seq<string>)
    ensures tagged == Tag(ids)
  {
    tagged := [];
    for i := 0 to |ids|
      invariant tagged == Tag(ids)[..i]
    {
      tagged := tagged + [ids[i] + SHADOW_TAG];
    }
  }

  method SelectEnabled(rules: seq<Rule>) returns (kept: seq<Rule>)
    ensures kept == EnabledOf(rules)
  {
    kept := [];
    for i := 0 to |rules|
      invariant kept == EnabledOf(rules[..i])
    {
      assert rules[..i + 1][..i] == rules[..i];
      if rules[i].enabled {
        kept := kept + [rules[i]];
      }
    }
    assert rules[..|rules|] == rules;
  }

  /** The largest collected severity, which the hits they were collected from determine. */
  method MaxSeverity(severities: seq<Severity>, ghost hits: seq<Rule>) returns (s: Option<Severity>)
    requires severities == Severities(hits)
    ensures s == Highest(hits)
  {
    s := None;
    for i := 0 to |severities|
      invariant s == Highest(hits[..i])
    {
      assert hits[..i + 1][..i] == hits[..i];
      if s.None? || Rank(s.value) < Rank(severities[i]) {
        s := Some(severities[i]);
      }
    }
    assert hits[..|hits|] == hits;
  }

  /** The shadow evaluator: the same families over the enabled shadow rules alone. */
  method ShadowDispatch(rules: seq<Rule>, txn: Txn) returns (r: Option<EvaluationResult>)
    ensures r.None? <==> exists x :: x in rules && x.enabled && x.mode == Shadow && Evaluate(x, txn).Raised?
    ensures r.Some? ==> var hits := HitsOf(rules, txn, Shadow);
              r.value == EvaluationResult(hits != [], Ids(hits), Highest(hits))
  {
    assert HitsOf([], txn, Shadow) == [];
    hide Evaluate, HitsOf, Ids, Severities;
    var matched, severities := [], [];
    for i := 0 to |rules|
      invariant matched == Ids(HitsOf(rules[..i], txn, Shadow))
      invariant severities == Severities(HitsOf(rules[..i], txn, Shadow))
      invariant forall j | 0 <= j < i && rules[j].enabled && rules[j].mode == Shadow :: Evaluate(rules[j], txn).Verdict?
    {
      CollectedStep(rules, i, txn, Shadow);
      if rules[i].enabled && rules[i].mode == Shadow {
        var outcome := Evaluate(rules[i], txn);
        if outcome.Raised? {
          assert rules[i] in rules;
          return None;
        }
        if outcome.matched {
          matched := matched + [rules[i].id];
          severities := severities + [rules[i].severity];
        }
      }
    }
    assert rules[..|rules|] == rules;
    var highest := MaxSeverity(severities, HitsOf(rules, txn, Shadow));
    return Some(EvaluationResult(matched != [], matched, highest));
  }

  // ----- reading the tagged list back

  function Untagged(names: seq<string>): seq<string> {
    if names == [] then []
    else var n := |names| - 1; Untagged(names[..n]) + if IsTagged(names[n]) then [] else [names[n]]
  }

  function Stripped(names: seq<string>): seq<string> {
    if names == [] then []
    else
      var n := |names| - 1;
      Stripped(names[..n]) + if IsTagged(names[n]) then [names[n][..|names[n]| - |SHADOW_TAG|]] else []
  }

  /** The metrics bridge: names with the shadow suffix are skipped, the others are counted in order. */
  method BridgeFlags(names: seq<string>) returns (flagged: seq<string>)
    ensures flagged == Untagged(names)
  {
    flagged := [];
    for i := 0 to |names|
      invariant flagged == Untagged(names[..i])
    {
      assert names[..i + 1][..i] == names[..i];
      if IsTagged(names[i]) {
        continue;
      }
      flagged := flagged + [names[i]];
    }
    assert names[..|names|] == names;
  }

  /** Reading the list goes name by name: a tagged one is skipped or stripped, any other counted or skipped. */
  lemma {:induction false} ReadingIsPointwise(names: seq<string>, name: string)
    ensures Untagged([]) == Stripped([]) == []
    ensures Untagged(names + [name]) == Untagged(names) + if IsTagged(name) then [] else [name]
    ensures forall plain :: name == plain + ":shadow" ==> Stripped(names + [name]) == Stripped(names) + [plain]
    ensures !IsTagged(name) ==> Stripped(names + [name]) == Stripped(names)
  {
    assert (names + [name])[..|names|] == names;
    forall plain | name == plain + ":shadow"
      ensures Stripped(names + [name]) == Stripped(names) + [plain]
    {
      TaggedMeaning(name);
      assert name[..|name| - 7] == plain;
    }
  }

  lemma {:induction false} SplitPlain(names: seq<string>)
    ensures |Untagged(names)| <= |names|
    ensures (forall s | s in names :: !IsTagged(s)) ==> Untagged(names) == names && Stripped(names) == []
    ensures (exists s :: s in names && IsTagged(s)) ==> |Untagged(names)| < |names|
  {
    if names != [] {
      var n := |names| - 1;
      SplitPlain(names[..n]);
      assert names == names[..n] + [names[n]];
    }
  }

  lemma {:induction false} TagReads(id: string)
    ensures IsTagged(id + SHADOW_TAG) && (id + SHADOW_TAG)[..|id|] == id
  {
    assert (id + SHADOW_TAG)[|id|..] == SHADOW_TAG;
  }

  lemma {:induction false} SplitOneTagged(names: seq<string>, id: string)
    ensures Untagged(names + [id + SHADOW_TAG]) == Untagged(names)
    ensures Stripped(names + [id + SHADOW_TAG]) == Stripped(names) + [id]
  {
    TagReads(id);
    hide IsTagged;
    assert (names + [id + SHADOW_TAG])[..|names|] == names;
  }

  lemma {:induction false} TagSnoc(ids: seq<string>)
    requires ids != []
    ensures Tag(ids) == Tag(ids[..|ids| - 1]) + [ids[|ids| - 1] + SHADOW_TAG]
  {
  }

  lemma {:induction false} SplitTagged(names: seq<string>, ids: seq<string>)
    ensures Untagged(names + Tag(ids)) == Untagged(names)
    ensures Stripped(names + Tag(ids)) == Stripped(names) + ids
  {
    if ids == [] {
      assert Tag(ids) == [] && names + [] == names;
    } else {
      hide Untagged, Stripped, IsTagged;
      var init, last := ids[..|ids| - 1], ids[|ids| - 1];
      TagSnoc(ids);
      hide Tag;
      SplitTagged(names, init);
      SplitOneTagged(names + Tag(init), last);
      AppendAssoc(names, Tag(init), [last + SHADOW_TAG]);
      AppendAssoc(Stripped(names), init, [last]);
      assert ids == init + [last];
    }
  }

  /** Dropping tagged names recovers the active matches exactly when no active match already looks tagged. */
  lemma {:induction false} TaggingIsInvertibleExactly(rules: seq<Rule>, txn: Txn)
    ensures var active, names := Ids(HitsOf(rules, txn, Active)), Result(rules, txn).matchedRules;
            Untagged(names) == active <==> forall r | r in HitsOf(rules, txn, Active) :: !IsTagged(r.id)
  {
    var hits := HitsOf(rules, txn, Active);
    var active := Ids(hits);
    SplitTagged(active, Ids(HitsOf(rules, txn, Shadow)));
    SplitPlain(active);
    if forall r | r in hits :: !IsTagged(r.id) {
      assert forall s | s in active :: !IsTagged(s);
    } else {
      var k :| 0 <= k < |hits| && IsTagged(hits[k].id);
      assert active[k] in active;
    }
  }

  /** The matched names: the active matches' ids, then the shadow matches' ids with the suffix, each in rule order. */
  lemma {:induction false} MatchedNames(rules: seq<Rule>, txn: Txn)
    ensures var names := Result(rules, txn).matchedRules;
            var active, shadow := HitsOf(rules, txn, Active), HitsOf(rules, txn, Shadow);
            && |names| == |active| + |shadow| && (forall i | 0 <= i < |active| :: names[i] == active[i].id)
            && (forall i | 0 <= i < |shadow| :: names[|active| + i] == shadow[i].id + ":shadow")
  {
    hide HitsOf;
  }

  /** With valid ids the tagged list splits into the active matches and the shadow evaluator's matches, in order. */
  lemma {:induction false} TaggingSplits(rules: seq<Rule>, txn: Txn)
    requires forall r | r in rules :: ValidId(r.id)
    ensures Untagged(Result(rules, txn).matchedRules) == Ids(HitsOf(rules, txn, Active))
    ensures Stripped(Result(rules, txn).matchedRules) == Ids(HitsOf(rules, txn, Shadow))
  {
    var hits := HitsOf(rules, txn, Active);
    HitsOfMembers(rules, txn, Active);
    forall s | s in Ids(hits)
      ensures !IsTagged(s)
    {
      var k :| 0 <= k < |hits| && s == hits[k].id;
      assert hits[k] in hits;
      ValidIdIsUntagged(s);
    }
    SplitTagged(Ids(hits), Ids(HitsOf(rules, txn, Shadow)));
    SplitPlain(Ids(hits));
  }
}
