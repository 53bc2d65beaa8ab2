/** What a converged list says of the findings it was made of, field by field, and the
order it is in. */
module ConvergedReadings {
  import opened Text
  import opened Orders
  import opened Evidences
  import opened Findings
  import opened FindingOrders
  import opened Merging
  import opened Partitioning
  import opened Convergence
  import opened ConvergenceLaws

  // ---- who belongs together ----

  ghost predicate SameClaim(a: Finding, b: Finding) {
    && a.code == b.code && a.subject == b.subject && a.layer == b.layer
    && a.summary == b.summary && a.detail == b.detail
  }

  /** No two findings that make f's claim ask different questions about it. */
  ghost predicate OneQuestionAsked(s: seq<Finding>, f: Finding) {
    forall x, y :: x in s && y in s && SameClaim(f, x) && SameClaim(f, y) ==>
      x.discriminator == "" || y.discriminator == "" || x.discriminator == y.discriminator
  }

  ghost predicate Together(s: seq<Finding>, f: Finding, x: Finding) {
    SameClaim(f, x) && (f.discriminator == x.discriminator || OneQuestionAsked(s, f))
  }

  lemma OneQuestionIsUndivided(s: seq<Finding>, f: Finding)
    ensures Undivided(s, ClaimOf(f)) <==> OneQuestionAsked(s, f)
  {
    forall x ensures SameClaim(f, x) <==> ClaimOf(x) == ClaimOf(f) {
    }
    if Undivided(s, ClaimOf(f)) {
      forall x, y | x in s && y in s && SameClaim(f, x) && SameClaim(f, y)
        ensures x.discriminator == "" || y.discriminator == "" || x.discriminator == y.discriminator
      {
        assert x.discriminator != "" ==> Asked(s, ClaimOf(f), x.discriminator);
        assert y.discriminator != "" ==> Asked(s, ClaimOf(f), y.discriminator);
      }
    }
  }

  lemma MatesAreTogether(s: seq<Finding>, f: Finding, x: Finding)
    ensures Mates(s, f, x) <==> Together(s, f, x)
  {
    hide Undivided, OneQuestionAsked;
    OneQuestionIsUndivided(s, f);
  }

  // ---- what one output says ----

  /** What o cites and advises is what the findings that belong with f cite and advise. */
  ghost predicate CitesForAll(s: seq<Finding>, f: Finding, o: Finding) {
    && (forall ref :: ref in o.evidenceRefs <==> exists x :: x in s && Together(s, f, x) && ref in x.evidenceRefs)
    && (forall i, j :: 0 <= i < j < |o.evidenceRefs| ==> TextBefore(o.evidenceRefs[i], o.evidenceRefs[j]))
    && (forall r :: r in o.recommendations <==> exists x :: x in s && Together(s, f, x) && r in x.recommendations)
  }

  /** o is as severe as the severest of them and as sure as the surest. */
  ghost predicate RanksForAll(s: seq<Finding>, f: Finding, o: Finding) {
    && (forall x :: x in s && Together(s, f, x) ==> NoLessSevere(o.severity, x.severity))
    && (forall x :: x in s && Together(s, f, x) ==> NoLessSure(o.confidence, x.confidence))
    && (exists x :: x in s && Together(s, f, x) && x.severity == o.severity)
    && (exists x :: x in s && Together(s, f, x) && x.confidence == o.confidence)
  }

  /** o is confirmed when one of them is, and then asks nothing; otherwise it asks what
  they ask. It depends on the vantage when one of them does. */
  ghost predicate AsksForAll(s: seq<Finding>, f: Finding, o: Finding) {
    && (o.kind == Confirmed <==> exists x :: x in s && Together(s, f, x) && x.kind == Confirmed)
    && (o.kind == Confirmed || o.kind == Hypothesis)
    && (o.kind == Confirmed ==> o.discriminator == "")
    && (o.kind != Confirmed ==>
      forall x :: x in s && Together(s, f, x) ==> x.discriminator == "" || x.discriminator == o.discriminator)
    && (o.discriminator != "" ==> exists x :: x in s && Together(s, f, x) && x.discriminator == o.discriminator)
    && (o.vantageDependent <==> exists x :: x in s && Together(s, f, x) && x.vantageDependent)
  }

  /** o is what the findings that belong with f come to. */
  ghost predicate SpeaksFor(s: seq<Finding>, f: Finding, o: Finding) {
    SameClaim(f, o) && CitesForAll(s, f, o) && RanksForAll(s, f, o) && AsksForAll(s, f, o)
  }

  lemma GroupIsTogether(s: seq<Finding>, f: Finding, group: seq<Finding>)
    requires forall x :: x in group <==> x in s && Mates(s, f, x)
    ensures forall x :: x in group <==> x in s && Together(s, f, x)
  {
    hide Mates, Together;
    forall x ensures Mates(s, f, x) <==> Together(s, f, x) {
      MatesAreTogether(s, f, x);
    }
  }

  lemma MergeSpeaks(s: seq<Finding>, f: Finding, o: Finding)
    requires AllBuilt(s) && f in s && MergesGroupOf(s, f, o)
    ensures SpeaksFor(s, f, o)
  {
    hide *;
    var group := GroupOf(s, f, o);
    MergeKeepsClaim(s, f, o);
    SameFields(f, o);
    GroupIsTogether(s, f, group);
    MergeConserves(o, group);
    MergeFacts(o, group);
    BuiltAscending(o);
    CitesAre(s, f, o, group);
    RanksAre(s, f, o, group);
    AsksAre(s, f, o, group);
    Speaks(s, f, o);
  }

  lemma Speaks(s: seq<Finding>, f: Finding, o: Finding)
    requires SameClaim(f, o) && CitesForAll(s, f, o) && RanksForAll(s, f, o) && AsksForAll(s, f, o)
    ensures SpeaksFor(s, f, o)
  {
  }

  lemma GroupOf(s: seq<Finding>, f: Finding, o: Finding) returns (group: seq<Finding>)
    requires AllBuilt(s) && MergesGroupOf(s, f, o)
    ensures IsMerge(o, group) && AllBuilt(group)
    ensures forall x :: x in group <==> x in s && Mates(s, f, x)
  {
    hide Mates, IsMerge, AllBuilt;
    group :| IsGroup(s, f, group) && IsMerge(o, group);
    GroupMembers(s, f, group);
  }

  lemma SameFields(f: Finding, o: Finding)
    ensures ClaimOf(o) == ClaimOf(f) <==> SameClaim(f, o)
  {
  }

  lemma CitesAre(s: seq<Finding>, f: Finding, o: Finding, group: seq<Finding>)
    requires forall x :: x in group <==> x in s && Together(s, f, x)
    requires forall ref :: ref in o.evidenceRefs <==> CitedBy(group, ref)
    requires forall r :: r in o.recommendations <==> Advised(group, r)
    requires Ascending(o.evidenceRefs)
    ensures CitesForAll(s, f, o)
  {
    hide Together, TextBefore;
    forall i, j | 0 <= i < j < |o.evidenceRefs| ensures TextBefore(o.evidenceRefs[i], o.evidenceRefs[j]) {
      CompareIsTextOrder(o.evidenceRefs[i], o.evidenceRefs[j]);
    }
  }

  lemma RanksAre(s: seq<Finding>, f: Finding, o: Finding, group: seq<Finding>)
    requires forall x :: x in group <==> x in s && Together(s, f, x)
    requires SeverityMax(group, o.severity) && ConfidenceMax(group, o.confidence)
    ensures RanksForAll(s, f, o)
  {
    hide Together, NoLessSevere, NoLessSure;
    forall x | x in group
      ensures NoLessSevere(o.severity, x.severity) && NoLessSure(o.confidence, x.confidence)
    {
      RanksCompare(o.severity, x.severity, o.confidence, x.confidence);
    }
  }

  lemma AsksAre(s: seq<Finding>, f: Finding, o: Finding, group: seq<Finding>)
    requires forall x :: x in group <==> x in s && Together(s, f, x)
    requires o.kind == (if AnyConfirmed(group) then Confirmed else Hypothesis)
    requires o.vantageDependent <==> AnyVantageDependent(group)
    requires if o.kind == Confirmed then o.discriminator == "" else Asks(group, o.discriminator)
    ensures AsksForAll(s, f, o)
  {
    hide Together;
  }

  // ---- what the whole list says ----

  /** Every input is spoken for by an output, and every output speaks for inputs. */
  ghost predicate SpeaksForAll(s: seq<Finding>, out: seq<Finding>) {
    && (forall f :: f in s ==> exists o :: o in out && SpeaksFor(s, f, o))
    && (forall o :: o in out ==> exists f :: f in s && SpeaksFor(s, f, o))
  }

  /** Two outputs make one claim only where the inputs ask two questions about it, and then
  they ask different ones. */
  ghost predicate SaysOnce(s: seq<Finding>, out: seq<Finding>) {
    forall i, j :: 0 <= i < j < |out| && SameClaim(out[i], out[j]) ==>
      out[i].discriminator != out[j].discriminator && !OneQuestionAsked(s, out[i])
  }

  lemma ConvergedSpeaks(s: seq<Finding>, out: seq<Finding>)
    requires AllBuilt(s) && IsConverged(s, out)
    ensures SpeaksForAll(s, out)
  {
    hide MergesGroupOf, AllBuilt, CoversGroups, SpeaksFor, CompareCanonical;
    forall f | f in s ensures exists o :: o in out && SpeaksFor(s, f, o) {
      var o := OutputOf(s, out, f);
      MergeSpeaks(s, f, o);
    }
    forall o | o in out ensures exists f :: f in s && SpeaksFor(s, f, o) {
      var f := SourceOf(s, out, o);
      MergeSpeaks(s, f, o);
    }
  }

  lemma ConvergedSaysOnce(s: seq<Finding>, out: seq<Finding>)
    requires AllBuilt(s) && IsConverged(s, out)
    ensures Distinct(out) && SaysOnce(s, out)
  {
    hide MergesGroupOf, AllBuilt, CoversGroups, CompareCanonical, TotalPreorder, Mates, Undivided, OneQuestionAsked;
    CanonicalOrder();
    StrictIsDistinct(out, CompareCanonical);
    forall i, j | 0 <= i < j < |out| && SameClaim(out[i], out[j])
      ensures out[i].discriminator != out[j].discriminator && !OneQuestionAsked(s, out[i])
    {
      TwoOutputs(s, out, out[i], out[j]);
    }
  }

  lemma TwoOutputs(s: seq<Finding>, out: seq<Finding>, o: Finding, p: Finding)
    requires AllBuilt(s) && CoversGroups(s, out) && o in out && p in out && o != p && SameClaim(o, p)
    ensures o.discriminator != p.discriminator && !OneQuestionAsked(s, o)
  {
    hide MergesGroupOf, AllBuilt, CoversGroups, Undivided, OneQuestionAsked;
    var f := SourceOf(s, out, o);
    var g := SourceOf(s, out, p);
    MergeKeepsClaim(s, f, o);
    MergeKeepsClaim(s, g, p);
    OneQuestionIsUndivided(s, o);
    if Mates(s, f, g) {
      MatesShareGroup(s, f, g, o);
      GroupMergeDetermined(s, s, g, o, p);
    }
    DividedKeepsQuestion(s, f, o);
    DividedKeepsQuestion(s, g, p);
  }

  // ---- the order it is in ----

  /** Among findings a report orders alike: by the subject's kind, the detail, and the
  question. */
  ghost predicate ClaimReadsFirst(a: Finding, b: Finding) {
    || (a.subject.kind != b.subject.kind && NoLaterKind(a.subject.kind, b.subject.kind))
    || (a.subject.kind == b.subject.kind && TextBefore(a.detail, b.detail))
    || (a.subject.kind == b.subject.kind && a.detail == b.detail && TextBefore(a.discriminator, b.discriminator))
  }

  lemma ClaimsRead(a: Finding, b: Finding)
    requires ReadsAlike(a, b)
    ensures CompareClaims(a, b) < 0 <==> ClaimReadsFirst(a, b)
  {
    hide Compare, TextBefore, SubjectKind.Rank, NoLaterKind, Layer.Rank;
    SubjectKindsCompare(a.subject.kind, b.subject.kind);
    CompareIsTextOrder(a.code, b.code);
    CompareIsTextOrder(a.subject.ref, b.subject.ref);
    CompareIsTextOrder(a.summary, b.summary);
    CompareIsTextOrder(a.detail, b.detail);
    CompareIsTextOrder(a.discriminator, b.discriminator);
  }

  /** Every finding reads strictly before the next. */
  ghost predicate ReadsInOrder(out: seq<Finding>) {
    forall i, j :: 0 <= i < j < |out| ==>
      ReadsFirst(out[i], out[j]) || (ReadsAlike(out[i], out[j]) && ClaimReadsFirst(out[i], out[j]))
  }

  lemma ConvergedReadsInOrder(s: seq<Finding>, out: seq<Finding>)
    requires AllBuilt(s) && IsConverged(s, out)
    ensures SeverestFirst(out) && ReadsInOrder(out)
  {
    hide AllBuilt, CoversGroups, CompareReport, CompareClaims, ReadsFirst, ReadsAlike, ClaimReadsFirst, SeverestFirst,
      Finding.Built;
    ConvergedIsFixed(s, out);
    OutputsBuilt(out);
    forall i, j | 0 <= i < j < |out|
      ensures CompareReport(out[i], out[j]) <= 0
      ensures ReadsFirst(out[i], out[j]) || (ReadsAlike(out[i], out[j]) && ClaimReadsFirst(out[i], out[j]))
    {
      assert CompareCanonical(out[i], out[j]) < 0;
      ReportReads(out[i], out[j]);
      if ReadsAlike(out[i], out[j]) {
        ClaimsRead(out[i], out[j]);
      }
    }
    SortedRanks(out);
  }

  lemma OutputsBuilt(out: seq<Finding>)
    requires AllBuilt(out)
    ensures forall i :: 0 <= i < |out| ==> out[i].Built()
  {
    hide Finding.Built;
  }

  /** What a converged list says, all of it. */
  lemma ConvergedReads(s: seq<Finding>, out: seq<Finding>)
    requires AllBuilt(s) && IsConverged(s, out)
    ensures SpeaksForAll(s, out) && Distinct(out) && SaysOnce(s, out)
    ensures SeverestFirst(out) && ReadsInOrder(out)
  {
    hide *;
    ConvergedSpeaks(s, out);
    ConvergedSaysOnce(s, out);
    ConvergedReadsInOrder(s, out);
  }
}
