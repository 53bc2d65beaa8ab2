/** Laws of convergence: what it conserves, and how far merging is associative. */
module ConvergenceLaws {
  import opened Text
  import opened Orders
  import opened Evidences
  import opened Findings
  import opened FindingOrders
  import opened Merging
  import opened Partitioning
  import opened Convergence

  // ---- conservation ----

  /** Every input finding is in the group of exactly one output. */
  lemma OneHomeEach(s: seq<Finding>, out: seq<Finding>, f: Finding) returns (o: Finding)
    requires AllBuilt(s) && IsConverged(s, out) && f in s
    ensures o in out && MergesGroupOf(s, f, o)
    ensures forall p :: p in out && MergesGroupOf(s, f, p) ==> p == o
  {
    hide MergesGroupOf, AllBuilt, CoversGroups;
    o := OutputOf(s, out, f);
    forall p | p in out && MergesGroupOf(s, f, p) ensures p == o {
      GroupMergeDetermined(s, s, f, p, o);
    }
  }

  ghost predicate CitedBy(s: seq<Finding>, ref: EvidenceID) {
    exists f :: f in s && ref in f.evidenceRefs
  }

  ghost predicate Advised(s: seq<Finding>, r: Recommendation) {
    exists f :: f in s && r in f.recommendations
  }

  ghost predicate HasProblem(s: seq<Finding>) {
    exists f :: f in s && (f.severity == Error || f.severity == Critical)
  }

  /** What one merge holds is what its group held. */
  lemma GroupConserves(s: seq<Finding>, f: Finding, o: Finding) returns (group: seq<Finding>)
    requires MergesGroupOf(s, f, o)
    ensures forall x :: x in group <==> x in s && Mates(s, f, x)
    ensures forall ref :: ref in o.evidenceRefs <==> CitedBy(group, ref)
    ensures forall r :: r in o.recommendations <==> Advised(group, r)
    ensures SeverityMax(group, o.severity) && ConfidenceMax(group, o.confidence)
    ensures o.kind == Confirmed <==> AnyConfirmed(group)
    ensures o.vantageDependent <==> AnyVantageDependent(group)
  {
    hide Undivided, Ascending, AdviceUnion, Mates;
    group :| IsGroup(s, f, group) && IsMerge(o, group);
    GroupMembers(s, f, group);
    MergeConserves(o, group);
  }

  lemma MergeConserves(o: Finding, group: seq<Finding>)
    requires IsMerge(o, group)
    ensures forall ref :: ref in o.evidenceRefs <==> CitedBy(group, ref)
    ensures forall r :: r in o.recommendations <==> Advised(group, r)
    ensures SeverityMax(group, o.severity) && ConfidenceMax(group, o.confidence)
    ensures o.kind == Confirmed <==> AnyConfirmed(group)
    ensures o.vantageDependent <==> AnyVantageDependent(group)
  {
    hide Ascending, AdviceUnion, Members;
    if |group| == 1 {
      assert group[0] in group;
    } else {
      forall ref ensures ref in o.evidenceRefs <==> CitedBy(group, ref) {
        assert Cited(group, ref) <==> CitedBy(group, ref);
      }
      SameElements(Members(group), group);
      AdviceUnionElements(Members(group));
      forall r ensures r in o.recommendations <==> Advised(group, r) {
      }
    }
  }

  /** Nothing is lost or invented: the converged list cites the same evidence, gives
  the same advice and reports a problem exactly when the input did. */
  lemma ConvergenceConserves(s: seq<Finding>, out: seq<Finding>)
    requires AllBuilt(s) && IsConverged(s, out)
    ensures forall ref :: CitedBy(out, ref) <==> CitedBy(s, ref)
    ensures forall r :: Advised(out, r) <==> Advised(s, r)
    ensures HasProblem(out) <==> HasProblem(s)
  {
    hide MergesGroupOf, AllBuilt, CoversGroups, Mates;
    forall ref ensures CitedBy(out, ref) <==> CitedBy(s, ref) {
      CitationsConserved(s, out, ref);
    }
    forall r ensures Advised(out, r) <==> Advised(s, r) {
      AdviceConserved(s, out, r);
    }
    ProblemsConserved(s, out);
  }

  lemma CitationsConserved(s: seq<Finding>, out: seq<Finding>, ref: EvidenceID)
    requires CoversGroups(s, out)
    ensures CitedBy(out, ref) <==> CitedBy(s, ref)
  {
    hide MergesGroupOf, CoversGroups, Mates;
    if CitedBy(s, ref) {
      var f :| f in s && ref in f.evidenceRefs;
      var o := OutputOf(s, out, f);
      var group := GroupConserves(s, f, o);
      MatesSelf(s, f);
      assert CitedBy(group, ref);
    }
    if CitedBy(out, ref) {
      var o :| o in out && ref in o.evidenceRefs;
      var f := SourceOf(s, out, o);
      var group := GroupConserves(s, f, o);
      assert CitedBy(group, ref);
    }
  }

  lemma AdviceConserved(s: seq<Finding>, out: seq<Finding>, r: Recommendation)
    requires CoversGroups(s, out)
    ensures Advised(out, r) <==> Advised(s, r)
  {
    hide MergesGroupOf, CoversGroups, Mates;
    if Advised(s, r) {
      var f :| f in s && r in f.recommendations;
      var o := OutputOf(s, out, f);
      var group := GroupConserves(s, f, o);
      MatesSelf(s, f);
      assert Advised(group, r);
    }
    if Advised(out, r) {
      var o :| o in out && r in o.recommendations;
      var f := SourceOf(s, out, o);
      var group := GroupConserves(s, f, o);
      assert Advised(group, r);
    }
  }

  lemma ProblemsConserved(s: seq<Finding>, out: seq<Finding>)
    requires CoversGroups(s, out)
    ensures HasProblem(out) <==> HasProblem(s)
  {
    hide MergesGroupOf, CoversGroups, Mates, CitedBy, Advised;
    if HasProblem(s) {
      var f :| f in s && (f.severity == Error || f.severity == Critical);
      var o := OutputOf(s, out, f);
      var group := GroupConserves(s, f, o);
      MatesSelf(s, f);
      assert f in group;
      assert o.severity == Error || o.severity == Critical;
    }
    if HasProblem(out) {
      var o :| o in out && (o.severity == Error || o.severity == Critical);
      var f := SourceOf(s, out, o);
      var group := GroupConserves(s, f, o);
      var g :| g in group && g.severity == o.severity;
    }
  }

  /** A converged list is already in report order: sorting it again changes nothing. */
  lemma ConvergedIsReportSorted(s: seq<Finding>, out: seq<Finding>)
    requires IsConverged(s, out)
    ensures StableSort(out, CompareReport) == out
  {
    hide CompareReport, CompareClaims, CoversGroups;
    StableSortIdempotent(out, CompareReport);
  }

  // ---- associativity ----

  /** Equal but for the order in which the recommendations are listed. */
  ghost predicate SameButAdviceOrder(a: Finding, b: Finding) {
    && a.(recommendations := []) == b.(recommendations := [])
    && forall r :: r in a.recommendations <==> r in b.recommendations
  }

  /** Merging is associative, up to the order of the recommendations: merging two
  merges is merging everything they were made of. */
  lemma MergingIsAssociative(g: seq<Finding>, h: seq<Finding>, a: Finding, b: Finding, ab: Finding, all: Finding)
    requires AllBuilt(g + h) && OneClaim(g + h) && OneQuestion(g + h)
    requires IsMerge(a, g) && IsMerge(b, h)
    requires IsMerge(ab, [a, b]) && IsMerge(all, g + h)
    ensures SameButAdviceOrder(ab, all)
  {
    hide *;
    MergesAgree(g, h, a, b, ab, all);
    MaximaAgree(g, h, a, b, ab, all);
    QuestionsAgree(g, h, a, b, ab, all);
    ListsAgree(g, h, a, b, ab, all);
    FieldByField(ab, all);
  }

  lemma FieldByField(a: Finding, b: Finding)
    requires ClaimOf(a) == ClaimOf(b) && a.kind == b.kind && a.vantageDependent == b.vantageDependent
    requires a.severity == b.severity && a.confidence == b.confidence && a.discriminator == b.discriminator
    requires a.evidenceRefs == b.evidenceRefs && forall r :: r in a.recommendations <==> r in b.recommendations
    ensures SameButAdviceOrder(a, b)
  {
  }

  /** One merge seen from outside: the facts the joins below are built from. */
  lemma MergeFacts(o: Finding, group: seq<Finding>)
    requires IsMerge(o, group) && AllBuilt(group)
    ensures group != [] && forall f :: f in group ==> ClaimOf(f) == ClaimOf(o)
    ensures o.kind == if AnyConfirmed(group) then Confirmed else Hypothesis
    ensures o.vantageDependent <==> AnyVantageDependent(group)
    ensures if o.kind == Confirmed then o.discriminator == "" else Asks(group, o.discriminator)
    ensures o.Built()
  {
    hide ValidIdentifier, ValidProse, ValidCode, Ascending, AdviceUnion, Members;
    MergeIsBuilt(o, group);
    if |group| == 1 {
      assert group[0] in group;
      assert group[0].Built();
    }
  }

  lemma Halves(g: seq<Finding>, h: seq<Finding>)
    requires AllBuilt(g + h)
    ensures AllBuilt(g) && AllBuilt(h)
  {
    hide Finding.Built;
    forall f | f in g || f in h ensures f in g + h {
    }
  }

  lemma PairBuilt(a: Finding, b: Finding)
    requires a.Built() && b.Built()
    ensures AllBuilt([a, b])
  {
    hide Finding.Built;
  }

  lemma MergesAgree(g: seq<Finding>, h: seq<Finding>, a: Finding, b: Finding, ab: Finding, all: Finding)
    requires AllBuilt(g + h) && IsMerge(a, g) && IsMerge(b, h) && IsMerge(ab, [a, b]) && IsMerge(all, g + h)
    ensures ClaimOf(ab) == ClaimOf(all) && ab.kind == all.kind && ab.vantageDependent == all.vantageDependent
  {
    hide Finding.Built, IsMerge, Asks, AllBuilt;
    Halves(g, h);
    MergeFacts(a, g);
    MergeFacts(b, h);
    PairBuilt(a, b);
    MergeFacts(ab, [a, b]);
    MergeFacts(all, g + h);
    assert g[0] in g + h && g[0] in g && a in [a, b] && b in [a, b];
    assert AnyConfirmed(g + h) <==> AnyConfirmed(g) || AnyConfirmed(h);
    assert AnyVantageDependent(g + h) <==> AnyVantageDependent(g) || AnyVantageDependent(h);
    assert AnyConfirmed([a, b]) <==> a.kind == Confirmed || b.kind == Confirmed;
    assert AnyVantageDependent([a, b]) <==> a.vantageDependent || b.vantageDependent;
  }

  lemma QuestionsAgree(g: seq<Finding>, h: seq<Finding>, a: Finding, b: Finding, ab: Finding, all: Finding)
    requires AllBuilt(g + h) && IsMerge(a, g) && IsMerge(b, h) && IsMerge(ab, [a, b]) && IsMerge(all, g + h)
    requires ab.kind == all.kind
    ensures ab.discriminator == all.discriminator
  {
    hide Finding.Built, IsMerge, AllBuilt;
    Halves(g, h);
    MergeFacts(a, g);
    MergeFacts(b, h);
    PairBuilt(a, b);
    MergeFacts(ab, [a, b]);
    MergeFacts(all, g + h);
    if all.kind != Confirmed {
      assert a in [a, b] && b in [a, b];
      assert a.kind != Confirmed && b.kind != Confirmed;
      AsksOnce(g, h, a.discriminator, b.discriminator, ab.discriminator, all.discriminator) by {
        assert a.discriminator == "" || a.discriminator == ab.discriminator;
        assert b.discriminator == "" || b.discriminator == ab.discriminator;
      }
    }
  }

  lemma AsksOnce(g: seq<Finding>, h: seq<Finding>, p: string, q: string, pq: string, all: string)
    requires Asks(g, p) && Asks(h, q) && Asks(g + h, all)
    requires (p == "" || p == pq) && (q == "" || q == pq) && (pq != "" ==> p == pq || q == pq)
    ensures pq == all
  {
    if p != "" {
      var f :| f in g && f.discriminator == p;
      assert f in g + h;
    }
    if q != "" {
      var f :| f in h && f.discriminator == q;
      assert f in g + h;
    }
    if all != "" {
      var f :| f in g + h && f.discriminator == all;
      assert f in g || f in h;
    }
  }

  lemma MaximaAgree(g: seq<Finding>, h: seq<Finding>, a: Finding, b: Finding, ab: Finding, all: Finding)
    requires IsMerge(a, g) && IsMerge(b, h) && IsMerge(ab, [a, b]) && IsMerge(all, g + h)
    ensures ab.severity == all.severity && ab.confidence == all.confidence
  {
    hide IsMerge, CitedBy, Advised;
    MergeConserves(a, g);
    MergeConserves(b, h);
    MergeConserves(ab, [a, b]);
    MergeConserves(all, g + h);
    assert a in [a, b] && b in [a, b];
    SeveritiesAgree(g, h, a, b, ab.severity, all.severity);
    ConfidencesAgree(g, h, a, b, ab.confidence, all.confidence);
  }

  lemma SeveritiesAgree(g: seq<Finding>, h: seq<Finding>, a: Finding, b: Finding, ab: Severity, all: Severity)
    requires SeverityMax(g, a.severity) && SeverityMax(h, b.severity) && SeverityMax([a, b], ab)
    requires SeverityMax(g + h, all)
    ensures ab == all
  {
    assert a in [a, b] && b in [a, b];
    forall f ensures f in g + h <==> f in g || f in h {
    }
    var f :| f in g + h && f.severity == all;
    assert all.Rank() <= ab.Rank();
    var m :| m in [a, b] && m.severity == ab;
    assert ab.Rank() <= all.Rank();
  }

  lemma ConfidencesAgree(g: seq<Finding>, h: seq<Finding>, a: Finding, b: Finding, ab: Confidence, all: Confidence)
    requires ConfidenceMax(g, a.confidence) && ConfidenceMax(h, b.confidence)
    requires ConfidenceMax([a, b], ab) && ConfidenceMax(g + h, all)
    ensures ab == all
  {
    assert a in [a, b] && b in [a, b];
    forall f ensures f in g + h <==> f in g || f in h {
    }
    var f :| f in g + h && f.confidence == all;
    assert all.Rank() <= ab.Rank();
    var m :| m in [a, b] && m.confidence == ab;
    assert ab.Rank() <= all.Rank();
  }

  lemma ListsAgree(g: seq<Finding>, h: seq<Finding>, a: Finding, b: Finding, ab: Finding, all: Finding)
    requires AllBuilt(g + h) && IsMerge(a, g) && IsMerge(b, h) && IsMerge(ab, [a, b]) && IsMerge(all, g + h)
    ensures ab.evidenceRefs == all.evidenceRefs
    ensures forall r :: r in ab.recommendations <==> r in all.recommendations
  {
    hide IsMerge, SeverityMax, ConfidenceMax, AllBuilt, Finding.Built, Ascending;
    MergeConserves(a, g);
    MergeConserves(b, h);
    MergeConserves(ab, [a, b]);
    MergeConserves(all, g + h);
    Halves(g, h);
    MergeFacts(a, g);
    MergeFacts(b, h);
    PairBuilt(a, b);
    MergeFacts(ab, [a, b]);
    MergeFacts(all, g + h);
    forall ref ensures ref in ab.evidenceRefs <==> ref in all.evidenceRefs {
      CitedJoin(g, h, ref);
      CitedPair(a, b, ref);
    }
    BuiltAscending(ab);
    BuiltAscending(all);
    AscendingUnique(ab.evidenceRefs, all.evidenceRefs);
    forall r ensures r in ab.recommendations <==> r in all.recommendations {
      AdvisedJoin(g, h, r);
      AdvisedPair(a, b, r);
    }
  }

  lemma BuiltAscending(f: Finding)
    requires f.Built()
    ensures Ascending(f.evidenceRefs)
  {
  }

  lemma CitedJoin(g: seq<Finding>, h: seq<Finding>, ref: EvidenceID)
    ensures CitedBy(g + h, ref) <==> CitedBy(g, ref) || CitedBy(h, ref)
  {
    forall f ensures f in g + h <==> f in g || f in h {
    }
  }

  lemma AdvisedJoin(g: seq<Finding>, h: seq<Finding>, r: Recommendation)
    ensures Advised(g + h, r) <==> Advised(g, r) || Advised(h, r)
  {
    forall f ensures f in g + h <==> f in g || f in h {
    }
  }

  lemma CitedPair(a: Finding, b: Finding, ref: EvidenceID)
    ensures CitedBy([a, b], ref) <==> ref in a.evidenceRefs || ref in b.evidenceRefs
  {
    assert a in [a, b] && b in [a, b];
  }

  lemma AdvisedPair(a: Finding, b: Finding, r: Recommendation)
    ensures Advised([a, b], r) <==> r in a.recommendations || r in b.recommendations
  {
    assert a in [a, b] && b in [a, b];
  }

  // ---- where associativity stops ----

  /** A claim about which at most one question is asked comes out as one finding. */
  lemma UndividedIsOne(s: seq<Finding>, out: seq<Finding>)
    requires AllBuilt(s) && IsConverged(s, out)
    requires s != [] && OneClaim(s) && Undivided(s, ClaimOf(s[0]))
    ensures |out| == 1 && MergesGroupOf(s, s[0], out[0])
  {
    hide MergesGroupOf, AllBuilt, CoversGroups, CompareCanonical, TotalPreorder, Undivided;
    assert s[0] in s;
    var o := OutputOf(s, out, s[0]);
    var last := out[|out| - 1];
    forall p | p in out ensures p == o {
      var f := SourceOf(s, out, p);
      assert Mates(s, f, s[0]);
      MatesShareGroup(s, f, s[0], p);
      GroupMergeDetermined(s, s, s[0], p, o);
    }
    assert last in out && out[0] in out;
    CanonicalOrder();
    StrictIsDistinct(out, CompareCanonical);
  }

  /** In a divided claim a finding whose question nobody shares stands alone. */
  lemma DividedStandsAlone(s: seq<Finding>, out: seq<Finding>, f: Finding)
    requires IsConverged(s, out) && f in s && multiset(s)[f] == 1 && !Undivided(s, ClaimOf(f))
    requires forall x :: x in s && x != f ==> x.discriminator != f.discriminator
    ensures f in out
  {
    hide CoversGroups, CompareCanonical, Undivided, Reconciles;
    var o := OutputOf(s, out, f);
    var group :| IsGroup(s, f, group) && IsMerge(o, group);
    GroupMembers(s, f, group);
    forall x ensures multiset(group)[x] == multiset{f}[x] {
      assert x in s <==> x in multiset(s);
    }
    assert multiset(group) == multiset{f} == multiset([f]);
    SameElements(group, [f]);
    assert group[0] in group;
  }

  /** Convergence does not associate across batches. A confirmed finding and two
  hypotheses asking different questions stay three findings when they arrive
  together; when the first hypothesis is merged beforehand its question is cleared,
  and the second hypothesis is then absorbed too. */
  lemma BatchesDoNotAssociate(
    confirmed: Finding, p: Finding, q: Finding, all: seq<Finding>, first: seq<Finding>, second: seq<Finding>)
    requires AllBuilt([confirmed, p, q]) && OneClaim([confirmed, p, q]) && confirmed.kind == Confirmed
    requires p.discriminator != "" && q.discriminator != "" && p.discriminator != q.discriminator
    requires IsConverged([confirmed, p, q], all)
    requires IsConverged([confirmed, p], first) && IsConverged(first + [q], second)
    ensures confirmed in all && p in all && q in all
    ensures |second| == 1
  {
    hide ValidIdentifier, ValidProse, ValidCode, Ascending, CoversGroups, CompareCanonical, Reconciles, Finding.Built,
      IsConverged;
    var s := [confirmed, p, q];
    assert confirmed in s && p in s && q in s;
    ConfirmedIsSilent(confirmed);
    TwoQuestionsDivide(s, p, q);
    DividedStandsAlone(s, all, confirmed);
    DividedStandsAlone(s, all, p);
    DividedStandsAlone(s, all, q);
    FirstBatchClears(confirmed, p, first);
    SecondBatchAbsorbs(confirmed, first[0], q, first, second);
  }

  lemma ConfirmedIsSilent(f: Finding)
    requires f.Built() && f.kind == Confirmed
    ensures f.discriminator == ""
  {
    hide ValidIdentifier, ValidProse, ValidCode, Ascending;
  }

  lemma FirstBatchClears(confirmed: Finding, p: Finding, first: seq<Finding>)
    requires confirmed.Built() && p.Built() && ClaimOf(confirmed) == ClaimOf(p)
    requires confirmed.kind == Confirmed && IsConverged([confirmed, p], first)
    ensures |first| == 1 && first[0].Built() && ClaimOf(first[0]) == ClaimOf(p)
    ensures first[0].discriminator == ""
  {
    hide ValidIdentifier, ValidProse, ValidCode, Ascending, CoversGroups, CompareCanonical, IsMerge, Undivided;
    var s := [confirmed, p];
    UndividedPair(confirmed, p);
    UndividedIsOne(s, first);
    MergeOfGroupIsBuilt(s, confirmed, first[0]);
    MergeKeepsClaim(s, confirmed, first[0]);
    var group :| IsGroup(s, confirmed, group) && IsMerge(first[0], group);
    GroupMembers(s, confirmed, group);
    MatesSelf(s, confirmed);
    MergeFacts(first[0], group);
  }

  lemma UndividedPair(silent: Finding, f: Finding)
    requires silent.discriminator == ""
    ensures Undivided([silent, f], ClaimOf(f))
  {
    forall p | Asked([silent, f], ClaimOf(f), p) ensures p == f.discriminator {
    }
  }

  lemma SecondBatchAbsorbs(confirmed: Finding, merged: Finding, q: Finding, first: seq<Finding>, second: seq<Finding>)
    requires first == [merged] && merged.Built() && q.Built() && ClaimOf(merged) == ClaimOf(q)
    requires merged.discriminator == "" && IsConverged(first + [q], second)
    ensures |second| == 1
  {
    hide ValidIdentifier, ValidProse, ValidCode, Ascending, CoversGroups, CompareCanonical, Undivided;
    assert first + [q] == [merged, q];
    UndividedPair(merged, q);
    UndividedIsOne([merged, q], second);
  }

  /** Such a triple exists, so the failure is real. */
  lemma BatchWitness() returns (confirmed: Finding, p: Finding, q: Finding)
    ensures AllBuilt([confirmed, p, q]) && OneClaim([confirmed, p, q]) && confirmed.kind == Confirmed
    ensures p.discriminator != "" && q.discriminator != "" && p.discriminator != q.discriminator
  {
    hide Finding.Built;
    confirmed := Finding("K_C", Confirmed, Info, Low, LayerTCP, ZERO_SUBJECT, "s", "", ["e"], [], false, "");
    p := confirmed.(kind := Hypothesis, discriminator := "p");
    q := confirmed.(kind := Hypothesis, discriminator := "q");
    WitnessBuilt(confirmed);
    AsksBuilt(confirmed, p);
    AsksBuilt(confirmed, q);
  }

  lemma WitnessBuilt(f: Finding)
    requires f == Finding("K_C", Confirmed, Info, Low, LayerTCP, ZERO_SUBJECT, "s", "", ["e"], [], false, "")
    ensures f.Built()
  {
    assert f.code[1] == '_';
  }

  lemma AsksBuilt(f: Finding, g: Finding)
    requires f.Built() && g == f.(kind := Hypothesis, discriminator := g.discriminator)
    requires g.discriminator == "p" || g.discriminator == "q"
    ensures g.Built()
  {
    hide ValidCode, ValidProse, Ascending;
  }
}
