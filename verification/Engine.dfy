/** The engine: every rule evaluated, panics discarded, the findings converged. */
module Engines {
  import opened Orders
  import opened Evidences
  import opened Graphs
  import opened Findings
  import opened FindingOrders
  import opened Merging
  import opened Convergence
  import opened ConvergedReadings
  import opened ConvergenceLaws
  import opened Converging

  datatype RuleContext = RuleContext(graph: Graph, incomplete: bool)

  /** What running a rule comes to: its findings, or a recovered panic. */
  datatype Verdict = Returned(findings: seq<Finding>) | Panicked

  datatype RegisteredRule = RegisteredRule(id: RuleID, eval: RuleContext -> Verdict)

  datatype EngineOutcome = EngineOutcome(findings: seq<Finding>, failures: seq<RuleID>)

  const CONVERGENCE_FAILURE: RuleID := "diag/convergence"

  function Attribute(rule: RuleID, fs: seq<Finding>): seq<AttributedFinding> {
    seq(|fs|, i requires 0 <= i < |fs| => AttributedFinding(rule, fs[i]))
  }

  /** What one rule contributes: all it returned, or nothing at all. */
  function Contribution(rule: RegisteredRule, ctx: RuleContext): seq<Finding> {
    match rule.eval(ctx)
    case Returned(findings) => findings
    case Panicked => []
  }

  function Produced(rules: seq<RegisteredRule>, ctx: RuleContext): seq<AttributedFinding> {
    if rules == [] then []
    else
      var last := rules[|rules| - 1];
      Produced(rules[..|rules| - 1], ctx) + Attribute(last.id, Contribution(last, ctx))
  }

  function Failures(rules: seq<RegisteredRule>, ctx: RuleContext): seq<RuleID> {
    if rules == [] then []
    else
      var last := rules[|rules| - 1];
      Failures(rules[..|rules| - 1], ctx) + if last.eval(ctx).Panicked? then [last.id] else []
  }

  ghost predicate Registered(rules: seq<RegisteredRule>) {
    forall k :: 0 <= k < |rules| ==> ValidRuleID(rules[k].id)
  }

  ghost predicate NoZero(fs: seq<Finding>) {
    forall f :: f in fs ==> !f.IsZero()
  }

  /** The outcome of an evaluation, stated over what the rules returned. */
  ghost predicate IsOutcome(rules: seq<RegisteredRule>, ctx: RuleContext, o: EngineOutcome) {
    var raw := FindingsOf(Produced(rules, ctx));
    if NoZero(raw)
    then IsConverged(raw, o.findings) && o.failures == Failures(rules, ctx)
    else o.findings == [] && o.failures == Failures(rules, ctx) + [CONVERGENCE_FAILURE]
  }

  lemma {:induction false} ProducedIsAttributed(rules: seq<RegisteredRule>, ctx: RuleContext)
    requires Registered(rules)
    ensures forall k :: 0 <= k < |Produced(rules, ctx)| ==> ValidRuleID(Produced(rules, ctx)[k].rule)
  {
    hide ValidRuleID;
    if rules != [] {
      ProducedIsAttributed(rules[..|rules| - 1], ctx);
    }
  }

  // ---- nothing a rule returned is lost ----

  /** Where each produced finding came from: at[i] is its rule and its place among what
  that rule returned. Every finding of every rule that returned has exactly one place, the
  places come in the order of registration, and there are no others. */
  ghost predicate Sourced(
    rules: seq<RegisteredRule>, ctx: RuleContext, produced: seq<AttributedFinding>, at: seq<(nat, nat)>)
  {
    && |at| == |produced|
    && (forall i :: 0 <= i < |at| ==> IsFrom(rules, ctx, produced[i], at[i].0, at[i].1))
    && (forall i, j :: 0 <= i < j < |at| ==> at[i].0 < at[j].0 || (at[i].0 == at[j].0 && at[i].1 < at[j].1))
    && (forall k: nat, n: nat :: k < |rules| && rules[k].eval(ctx).Returned? && n < |rules[k].eval(ctx).findings| ==>
      (k, n) in at)
  }

  /** What rule k returned at place n, under the rule's identity. */
  ghost predicate IsFrom(rules: seq<RegisteredRule>, ctx: RuleContext, f: AttributedFinding, k: nat, n: nat) {
    && k < |rules| && rules[k].eval(ctx).Returned? && n < |rules[k].eval(ctx).findings|
    && f == AttributedFinding(rules[k].id, rules[k].eval(ctx).findings[n])
  }

  lemma {:induction false} EveryFindingIsProduced(rules: seq<RegisteredRule>, ctx: RuleContext)
    returns (at: seq<(nat, nat)>)
    ensures Sourced(rules, ctx, Produced(rules, ctx), at)
  {
    if rules == [] {
      at := [];
    } else {
      hide Sourced, Contribution, Attribute;
      var k := |rules| - 1;
      var before := EveryFindingIsProduced(rules[..k], ctx);
      at := SourcedNext(rules[..k], ctx, Produced(rules[..k], ctx), before, rules[k]);
      assert rules[..k] + [rules[k]] == rules;
    }
  }

  /** The places of n findings of rule k. */
  ghost function PlacesOf(k: nat, n: nat): (at: seq<(nat, nat)>)
    ensures |at| == n && forall i: nat :: i < n ==> at[i] == (k, i)
  {
    seq(n, i requires 0 <= i < n => (k, i))
  }

  lemma SourcedNext(
    front: seq<RegisteredRule>, ctx: RuleContext, produced: seq<AttributedFinding>, before: seq<(nat, nat)>,
    last: RegisteredRule)
    returns (at: seq<(nat, nat)>)
    requires Sourced(front, ctx, produced, before)
    ensures Sourced(front + [last], ctx, produced + Attribute(last.id, Contribution(last, ctx)), at)
  {
    hide IsFrom, PlacesOf;
    var k, n := |front|, |Contribution(last, ctx)|;
    var rules, more := front + [last], produced + Attribute(last.id, Contribution(last, ctx));
    at := before + PlacesOf(k, n);
    forall i | 0 <= i < |at| ensures IsFrom(rules, ctx, more[i], at[i].0, at[i].1) {
      if i < |before| {
        StillFrom(front, ctx, last, produced[i], before[i].0, before[i].1);
      } else {
        LastFrom(front, ctx, last, i - |before|);
      }
    }
    forall i | 0 <= i < |before| ensures before[i].0 < k {
      FromRule(front, ctx, produced[i], before[i].0, before[i].1);
    }
    forall j: nat, m: nat | j < |rules| && rules[j].eval(ctx).Returned? && m < |rules[j].eval(ctx).findings|
      ensures (j, m) in at
    {
      if j < k {
        assert front[j] == rules[j] && (j, m) in before;
      } else {
        assert PlacesOf(k, n)[m] == (j, m);
      }
    }
  }

  lemma FromRule(rules: seq<RegisteredRule>, ctx: RuleContext, f: AttributedFinding, k: nat, n: nat)
    requires IsFrom(rules, ctx, f, k, n)
    ensures k < |rules|
  {
  }

  lemma StillFrom(
    front: seq<RegisteredRule>, ctx: RuleContext, last: RegisteredRule, f: AttributedFinding, k: nat, n: nat)
    requires IsFrom(front, ctx, f, k, n)
    ensures IsFrom(front + [last], ctx, f, k, n)
  {
  }

  lemma LastFrom(front: seq<RegisteredRule>, ctx: RuleContext, last: RegisteredRule, m: nat)
    requires m < |Contribution(last, ctx)|
    ensures IsFrom(
      front + [last], ctx, Attribute(last.id, Contribution(last, ctx))[m], |front|, m)
  {
  }

  /** f is among what some rule returned. */
  ghost predicate Raised(rules: seq<RegisteredRule>, ctx: RuleContext, f: Finding) {
    exists k :: 0 <= k < |rules| && rules[k].eval(ctx).Returned? && f in rules[k].eval(ctx).findings
  }

  lemma RaisedIsRaw(rules: seq<RegisteredRule>, ctx: RuleContext)
    ensures forall f :: f in FindingsOf(Produced(rules, ctx)) <==> Raised(rules, ctx, f)
  {
    hide Contribution, Produced;
    var at := EveryFindingIsProduced(rules, ctx);
    var raw := FindingsOf(Produced(rules, ctx));
    forall f ensures f in raw <==> Raised(rules, ctx, f) {
      if f in raw {
        var i :| 0 <= i < |raw| && raw[i] == f;
        assert IsFrom(rules, ctx, Produced(rules, ctx)[i], at[i].0, at[i].1);
      }
      if Raised(rules, ctx, f) {
        var k :| 0 <= k < |rules| && rules[k].eval(ctx).Returned? && f in rules[k].eval(ctx).findings;
        var n: nat :| n < |rules[k].eval(ctx).findings| && rules[k].eval(ctx).findings[n] == f;
        assert (k, n) in at;
        var i :| 0 <= i < |at| && at[i] == (k, n);
        assert IsFrom(rules, ctx, Produced(rules, ctx)[i], k, n);
        assert raw[i] == f;
      }
    }
  }

  /** o makes f's claim, cites everything f cites, gives all its advice, and is no less
  severe and no less sure. */
  ghost predicate Keeps(o: Finding, f: Finding) {
    && SameClaim(f, o) && NoLessSevere(o.severity, f.severity) && NoLessSure(o.confidence, f.confidence)
    && (forall ref :: ref in f.evidenceRefs ==> ref in o.evidenceRefs)
    && (forall r :: r in f.recommendations ==> r in o.recommendations)
    && (f.kind == Confirmed ==> o.kind == Confirmed) && (f.vantageDependent ==> o.vantageDependent)
  }

  /** Everything raised is kept by some finding of the outcome, and a finding of the outcome
  makes a claim that was raised and cites nothing that was not. */
  ghost predicate KeepsAll(rules: seq<RegisteredRule>, ctx: RuleContext, out: seq<Finding>) {
    && (forall f :: Raised(rules, ctx, f) ==> KeptIn(out, f))
    && (forall o :: o in out ==> OnlyRaised(rules, ctx, o))
  }

  ghost predicate KeptIn(out: seq<Finding>, f: Finding) {
    exists o :: o in out && Keeps(o, f)
  }

  ghost predicate OnlyRaised(rules: seq<RegisteredRule>, ctx: RuleContext, o: Finding) {
    && (exists f :: Raised(rules, ctx, f) && SameClaim(f, o))
    && (forall ref :: ref in o.evidenceRefs ==>
      exists f :: Raised(rules, ctx, f) && SameClaim(f, o) && ref in f.evidenceRefs)
  }

  lemma SpeakerKeeps(s: seq<Finding>, f: Finding, o: Finding)
    requires f in s && SpeaksFor(s, f, o)
    ensures Keeps(o, f)
  {
    hide NoLessSevere, NoLessSure;
    assert Together(s, f, f);
  }

  lemma SpeakerCites(s: seq<Finding>, f: Finding, o: Finding, ref: EvidenceID)
    requires f in s && SpeaksFor(s, f, o) && ref in o.evidenceRefs
    ensures exists x :: x in s && SameClaim(x, o) && ref in x.evidenceRefs
  {
    hide OneQuestionAsked, RanksForAll, AsksForAll;
    var x :| x in s && Together(s, f, x) && ref in x.evidenceRefs;
    assert SameClaim(x, o);
  }

  /** Every claim and every reference of an output was raised. */
  lemma OutputWasRaised(rules: seq<RegisteredRule>, ctx: RuleContext, s: seq<Finding>, f: Finding, o: Finding)
    requires f in s && SpeaksFor(s, f, o) && forall x :: x in s ==> Raised(rules, ctx, x)
    ensures OnlyRaised(rules, ctx, o)
  {
    hide Raised, SpeaksFor, SameClaim;
    SpeaksSame(s, f, o);
    forall ref | ref in o.evidenceRefs
      ensures exists x :: Raised(rules, ctx, x) && SameClaim(x, o) && ref in x.evidenceRefs
    {
      SpeakerCites(s, f, o, ref);
      var x :| x in s && SameClaim(x, o) && ref in x.evidenceRefs;
      assert Raised(rules, ctx, x);
    }
  }

  lemma Kept(rules: seq<RegisteredRule>, ctx: RuleContext, s: seq<Finding>, out: seq<Finding>)
    requires SpeaksForAll(s, out) && forall f :: f in s <==> Raised(rules, ctx, f)
    ensures KeepsAll(rules, ctx, out)
  {
    hide SpeaksFor, SpeaksForAll, Raised, Keeps, OnlyRaised;
    forall f | f in s ensures KeptIn(out, f) {
      var o := SpeakerOf(s, out, f);
      SpeakerKeeps(s, f, o);
    }
    forall o | o in out ensures OnlyRaised(rules, ctx, o) {
      var f := SpokenFor(s, out, o);
      OutputWasRaised(rules, ctx, s, f, o);
    }
  }

  lemma SpeakerOf(s: seq<Finding>, out: seq<Finding>, f: Finding) returns (o: Finding)
    requires SpeaksForAll(s, out) && f in s
    ensures o in out && SpeaksFor(s, f, o)
  {
    hide SpeaksFor;
    o :| o in out && SpeaksFor(s, f, o);
  }

  lemma SpokenFor(s: seq<Finding>, out: seq<Finding>, o: Finding) returns (f: Finding)
    requires SpeaksForAll(s, out) && o in out
    ensures f in s && SpeaksFor(s, f, o)
  {
    hide SpeaksFor;
    f :| f in s && SpeaksFor(s, f, o);
  }

  lemma OutcomeKeepsAll(rules: seq<RegisteredRule>, ctx: RuleContext, o: EngineOutcome)
    requires FromConstructors(Produced(rules, ctx)) && IsOutcome(rules, ctx, o)
    requires forall f :: Raised(rules, ctx, f) ==> !f.IsZero()
    ensures KeepsAll(rules, ctx, o.findings)
  {
    hide FromConstructors, IsConverged, Finding.IsZero, Raised, SpeaksForAll, KeepsAll;
    var s := FindingsOf(Produced(rules, ctx));
    RaisedIsRaw(rules, ctx);
    BuiltRaw(Produced(rules, ctx));
    ConvergedSpeaks(s, o.findings);
    Kept(rules, ctx, s, o.findings);
  }

  lemma SpeaksSame(s: seq<Finding>, f: Finding, o: Finding)
    requires SpeaksFor(s, f, o)
    ensures SameClaim(f, o)
  {
  }

  /** The failures are the identities of exactly the rules that panicked, in order. */
  lemma {:induction false} FailuresArePanics(rules: seq<RegisteredRule>, ctx: RuleContext) returns (at: seq<nat>)
    ensures |at| == |Failures(rules, ctx)|
    ensures forall i, j :: 0 <= i < j < |at| ==> at[i] < at[j]
    ensures forall k: nat :: k in at <==> k < |rules| && rules[k].eval(ctx).Panicked?
    ensures forall i :: 0 <= i < |at| ==> at[i] < |rules| && Failures(rules, ctx)[i] == rules[at[i]].id
  {
    if rules == [] {
      at := [];
    } else {
      var k := |rules| - 1;
      var before := FailuresArePanics(rules[..k], ctx);
      assert forall i :: 0 <= i < |before| ==> before[i] in before;
      at := before + if rules[k].eval(ctx).Panicked? then [k] else [];
    }
  }

  method Evaluate(rules: seq<RegisteredRule>, ctx: RuleContext) returns (o: EngineOutcome)
    requires Registered(rules) && FromConstructors(Produced(rules, ctx))
    ensures IsOutcome(rules, ctx, o)
    ensures (forall f :: Raised(rules, ctx, f) ==> !f.IsZero()) ==> KeepsAll(rules, ctx, o.findings)
    ensures ZeroRaised(rules, ctx) ==>
      o.findings == [] && o.failures == Failures(rules, ctx) + ["diag/convergence"]
  {
    hide Registered, FromConstructors, IsOutcome, Raised, KeepsAll, Finding.IsZero, ZeroRaised, Produced, Failures,
      Contribution;
    NoRules(ctx);
    var failures: seq<RuleID> := [];
    var produced: seq<AttributedFinding> := [];
    var i := 0;
    while i < |rules|
      invariant 0 <= i <= |rules|
      invariant produced == Produced(rules[..i], ctx)
      invariant failures == Failures(rules[..i], ctx)
    {
      var rule := rules[i];
      OneMoreRule(rules, ctx, i);
      var verdict := rule.eval(ctx);
      i := i + 1;
      if verdict.Panicked? {
        failures := failures + [rule.id];
        continue;
      }
      var findings := verdict.findings;
      var attributed: seq<AttributedFinding> := [];
      var j := 0;
      while j < |findings|
        invariant 0 <= j <= |findings|
        invariant attributed == Attribute(rule.id, findings)[..j]
      {
        attributed := attributed + [AttributedFinding(rule.id, findings[j])];
        j := j + 1;
      }
      produced := produced + attributed;
    }
    assert rules[..i] == rules;
    o := Settle(rules, ctx, produced, failures);
    WhenNoZero(rules, ctx, o);
  }

  /** What was produced is converged and sorted; when convergence refuses it, it is lost. */
  method Settle(rules: seq<RegisteredRule>, ctx: RuleContext, produced: seq<AttributedFinding>, failures: seq<RuleID>)
    returns (o: EngineOutcome)
    requires Registered(rules) && FromConstructors(produced)
    requires produced == Produced(rules, ctx) && failures == Failures(rules, ctx)
    ensures IsOutcome(rules, ctx, o)
  {
    hide Registered, FromConstructors, IsConverged, NoZero, IsOutcome, WellAttributed, Produced, Failures,
      Finding.IsZero;
    if |produced| == 0 {
      o := EngineOutcome([], failures);
      QuietOutcome(rules, ctx, o);
      return;
    }
    var merged := Converge(produced);
    AttributionHolds(rules, ctx);
    if merged.Err? {
      o := EngineOutcome([], failures + [CONVERGENCE_FAILURE]);
      OutcomeOf(rules, ctx, o);
      return;
    }
    var out := new Finding[|merged.value|](k requires 0 <= k < |merged.value| => merged.value[k]);
    assert out[..] == merged.value;
    SortFindings(out);
    ConvergedIsReportSorted(FindingsOf(produced), merged.value);
    o := EngineOutcome(out[..], failures);
    OutcomeOf(rules, ctx, o);
  }

  ghost predicate ZeroRaised(rules: seq<RegisteredRule>, ctx: RuleContext) {
    exists f :: Raised(rules, ctx, f) && f.code == "" && f.summary == ""
  }

  /** One zero finding loses every finding of the run, and the loss is among the failures. */
  lemma ZeroLosesAll(rules: seq<RegisteredRule>, ctx: RuleContext, o: EngineOutcome)
    requires IsOutcome(rules, ctx, o)
    ensures ZeroRaised(rules, ctx) ==>
      o.findings == [] && o.failures == Failures(rules, ctx) + ["diag/convergence"]
  {
    hide IsConverged, Raised, Failures, Produced;
    RaisedIsRaw(rules, ctx);
  }

  lemma NoRules(ctx: RuleContext)
    ensures Produced([], ctx) == [] && Failures([], ctx) == []
  {
  }

  lemma OneMoreRule(rules: seq<RegisteredRule>, ctx: RuleContext, i: nat)
    requires i < |rules|
    ensures Produced(rules[..i + 1], ctx) ==
      Produced(rules[..i], ctx) + Attribute(rules[i].id, Contribution(rules[i], ctx))
    ensures Failures(rules[..i + 1], ctx) ==
      Failures(rules[..i], ctx) + if rules[i].eval(ctx).Panicked? then [rules[i].id] else []
    ensures Contribution(rules[i], ctx) ==
      match rules[i].eval(ctx) { case Returned(findings) => findings case Panicked => [] }
  {
    assert rules[..i + 1][..i] == rules[..i];
  }

  lemma WhenNoZero(rules: seq<RegisteredRule>, ctx: RuleContext, o: EngineOutcome)
    requires FromConstructors(Produced(rules, ctx)) && IsOutcome(rules, ctx, o)
    ensures (forall f :: Raised(rules, ctx, f) ==> !f.IsZero()) ==> KeepsAll(rules, ctx, o.findings)
    ensures ZeroRaised(rules, ctx) ==>
      o.findings == [] && o.failures == Failures(rules, ctx) + ["diag/convergence"]
  {
    hide *;
    ZeroLosesAll(rules, ctx, o);
    if forall f :: Raised(rules, ctx, f) ==> !f.IsZero() {
      OutcomeKeepsAll(rules, ctx, o);
    }
  }

  /** Registered rules leave one way for convergence to refuse: a zero finding. */
  lemma AttributionHolds(rules: seq<RegisteredRule>, ctx: RuleContext)
    requires Registered(rules)
    ensures WellAttributed(Produced(rules, ctx)) <==> NoZero(FindingsOf(Produced(rules, ctx)))
  {
    hide Registered, ValidRuleID, Finding.IsZero;
    ProducedIsAttributed(rules, ctx);
    var produced := Produced(rules, ctx);
    var raw := FindingsOf(produced);
    if NoZero(raw) {
      forall k | 0 <= k < |produced| ensures !produced[k].finding.IsZero() {
        assert raw[k] in raw;
      }
    }
  }

  lemma OutcomeOf(rules: seq<RegisteredRule>, ctx: RuleContext, o: EngineOutcome)
    requires var raw := FindingsOf(Produced(rules, ctx));
      if NoZero(raw)
      then IsConverged(raw, o.findings) && o.failures == Failures(rules, ctx)
      else o.findings == [] && o.failures == Failures(rules, ctx) + [CONVERGENCE_FAILURE]
    ensures IsOutcome(rules, ctx, o)
  {
  }

  lemma QuietOutcome(rules: seq<RegisteredRule>, ctx: RuleContext, o: EngineOutcome)
    requires Produced(rules, ctx) == [] && o == EngineOutcome([], Failures(rules, ctx))
    ensures IsOutcome(rules, ctx, o)
  {
    NothingConverges([]);
  }

  // ---- how the engine was assembled cannot show ----

  lemma {:induction false} RawSplits(rules: seq<RegisteredRule>, more: seq<RegisteredRule>, ctx: RuleContext)
    ensures
      FindingsOf(Produced(rules + more, ctx)) == FindingsOf(Produced(rules, ctx)) + FindingsOf(Produced(more, ctx))
  {
    hide Attribute, Contribution, FindingsOf;
    if more == [] {
      assert rules + more == rules;
      NoFindings();
    } else {
      var front, last := more[..|more| - 1], more[|more| - 1];
      RawSplits(rules, front, ctx);
      assert (rules + more)[..|rules + more| - 1] == rules + front;
      var a := Attribute(last.id, Contribution(last, ctx));
      FindingsJoin(Produced(rules + front, ctx), a);
      FindingsJoin(Produced(front, ctx), a);
    }
  }

  lemma NoFindings()
    ensures FindingsOf([]) == []
  {
  }

  lemma FindingsJoin(a: seq<AttributedFinding>, b: seq<AttributedFinding>)
    ensures FindingsOf(a + b) == FindingsOf(a) + FindingsOf(b)
  {
  }

  lemma RawOfOne(rule: RegisteredRule, ctx: RuleContext)
    ensures FindingsOf(Produced([rule], ctx)) == Contribution(rule, ctx)
  {
    assert [rule][..0] == [];
  }

  /** Two assemblies of the same rules, in any order and under any identities,
  produce the same raw findings with the same multiplicity. */
  lemma {:induction false} ReorderingKeepsRaw(rules: seq<RegisteredRule>, other: seq<RegisteredRule>, ctx: RuleContext)
    requires SameRules(rules, other, ctx)
    ensures multiset(FindingsOf(Produced(rules, ctx))) == multiset(FindingsOf(Produced(other, ctx)))
    decreases |rules|
  {
    hide Contribution, Produced, FindingsOf;
    if rules == [] {
      SameElements(Contributions(rules, ctx), Contributions(other, ctx));
    } else {
      var i := MatchFirst(rules, other, ctx);
      var rest := other[..i] + other[i + 1..];
      ReorderingKeepsRaw(rules[1..], rest, ctx);
      assert rules == [rules[0]] + rules[1..];
      assert other == other[..i] + ([other[i]] + other[i + 1..]);
      RawSplits([rules[0]], rules[1..], ctx);
      RawSplits(other[..i], [other[i]] + other[i + 1..], ctx);
      RawSplits([other[i]], other[i + 1..], ctx);
      RawSplits(other[..i], other[i + 1..], ctx);
      RawOfOne(rules[0], ctx);
      RawOfOne(other[i], ctx);
    }
  }

  /** The same contributions, up to order; the rules' identities are not compared. */
  ghost predicate SameRules(rules: seq<RegisteredRule>, other: seq<RegisteredRule>, ctx: RuleContext) {
    multiset(Contributions(rules, ctx)) == multiset(Contributions(other, ctx))
  }

  ghost function Contributions(rules: seq<RegisteredRule>, ctx: RuleContext): (cs: seq<seq<Finding>>)
    ensures |cs| == |rules|
    ensures forall i :: 0 <= i < |rules| ==> cs[i] == Contribution(rules[i], ctx)
  {
    seq(|rules|, i requires 0 <= i < |rules| => Contribution(rules[i], ctx))
  }

  lemma MatchFirst(rules: seq<RegisteredRule>, other: seq<RegisteredRule>, ctx: RuleContext) returns (i: nat)
    requires rules != [] && SameRules(rules, other, ctx)
    ensures i < |other| && Contribution(other[i], ctx) == Contribution(rules[0], ctx)
    ensures SameRules(rules[1..], other[..i] + other[i + 1..], ctx)
  {
    hide Contribution, Without, Contributions;
    var cs, ds := Contributions(rules, ctx), Contributions(other, ctx);
    SameElements(cs, ds);
    assert cs[0] in ds;
    i :| 0 <= i < |ds| && ds[i] == cs[0];
    WithoutMultiset(cs, 0);
    WithoutMultiset(ds, i);
    ContributionsWithout(rules, 0, ctx);
    ContributionsWithout(other, i, ctx);
    assert rules[..0] + rules[1..] == rules[1..];
  }

  lemma ContributionsWithout(rules: seq<RegisteredRule>, i: nat, ctx: RuleContext)
    requires i < |rules|
    ensures Contributions(rules[..i] + rules[i + 1..], ctx) == Without(Contributions(rules, ctx), i)
  {
    hide Contribution;
  }

  /** Registration order and rule identities never reach the findings. */
  lemma AssemblyCannotShow(
    rules: seq<RegisteredRule>, other: seq<RegisteredRule>, ctx: RuleContext, a: EngineOutcome, b: EngineOutcome)
    requires SameRules(rules, other, ctx) && FromConstructors(Produced(rules, ctx))
    requires IsOutcome(rules, ctx, a) && IsOutcome(other, ctx, b)
    ensures a.findings == b.findings
  {
    hide FromConstructors, IsConverged, SameRules, Finding.IsZero;
    var raw, raw' := FindingsOf(Produced(rules, ctx)), FindingsOf(Produced(other, ctx));
    ReorderingKeepsRaw(rules, other, ctx);
    SameElements(raw, raw');
    if NoZero(raw) {
      BuiltRaw(Produced(rules, ctx));
      ConvergenceIsCanonical(raw, raw', a.findings, b.findings);
    }
  }

  lemma BuiltRaw(produced: seq<AttributedFinding>)
    requires FromConstructors(produced) && NoZero(FindingsOf(produced))
    ensures AllBuilt(FindingsOf(produced))
  {
    hide Finding.Built, Finding.IsZero;
    var raw := FindingsOf(produced);
    forall f | f in raw ensures f.Built() {
      var k :| 0 <= k < |raw| && raw[k] == f;
    }
  }

  /** A rule that panics is as good as a rule that was never registered, except that
  the outcome says so. */
  lemma PanicIsAbsence(before: seq<RegisteredRule>, rule: RegisteredRule, after: seq<RegisteredRule>, ctx: RuleContext)
    requires rule.eval(ctx).Panicked?
    ensures FindingsOf(Produced(before + [rule] + after, ctx)) == FindingsOf(Produced(before + after, ctx))
    ensures Failures(before + [rule] + after, ctx) == Failures(before, ctx) + [rule.id] + Failures(after, ctx)
  {
    RawSplits(before + [rule], after, ctx);
    RawSplits(before, [rule], ctx);
    RawOfOne(rule, ctx);
    RawSplits(before, after, ctx);
    FailuresSplit(before + [rule], after, ctx);
    assert (before + [rule])[..|before|] == before;
  }

  lemma {:induction false} FailuresSplit(rules: seq<RegisteredRule>, more: seq<RegisteredRule>, ctx: RuleContext)
    ensures Failures(rules + more, ctx) == Failures(rules, ctx) + Failures(more, ctx)
  {
    if more == [] {
      assert rules + more == rules;
    } else {
      var front, last := more[..|more| - 1], more[|more| - 1];
      FailuresSplit(rules, front, ctx);
      assert (rules + more)[..|rules + more| - 1] == rules + front;
    }
  }
}
