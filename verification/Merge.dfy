/** Merging one group of findings into one finding. */
module Merging {
  import opened Text
  import opened Orders
  import opened Results
  import opened Evidences
  import opened Findings

  type RuleID = string

  datatype AttributedFinding = AttributedFinding(rule: RuleID, finding: Finding)

  function FindingsOf(group: seq<AttributedFinding>): (fs: seq<Finding>)
    ensures |fs| == |group|
  {
    seq(|group|, i requires 0 <= i < |group| => group[i].finding)
  }

  /** Everything the members of a merge must agree about, discriminator aside. */
  datatype Claim = Claim(code: string, subject: Subject, layer: Layer, summary: string, detail: string)

  function ClaimOf(f: Finding): Claim {
    Claim(f.code, f.subject, f.layer, f.summary, f.detail)
  }

  ghost predicate AllBuilt(fs: seq<Finding>) {
    forall f :: f in fs ==> f.Built()
  }

  ghost predicate OneClaim(fs: seq<Finding>) {
    forall f, g :: f in fs && g in fs ==> ClaimOf(f) == ClaimOf(g)
  }

  /** Nobody in the list asks a different question from anybody else. */
  ghost predicate OneQuestion(fs: seq<Finding>) {
    forall f, g :: f in fs && g in fs && f.discriminator != "" && g.discriminator != "" ==>
      f.discriminator == g.discriminator
  }

  // ---- the content order ----

  function CompareBool(a: bool, b: bool): int {
    if a == b then 0 else if a then 1 else -1
  }

  /** compareByContent: references, reconciled fields, then advice. */
  function CompareByContent(a: Finding, b: Finding): int {
    var refs := Compare(JoinRefs(a), JoinRefs(b));
    if refs != 0 then refs
    else
      var kind := CompareInt(a.kind.Rank(), b.kind.Rank());
      if kind != 0 then kind
      else
        var severity := CompareInt(a.severity.Rank(), b.severity.Rank());
        if severity != 0 then severity
        else
          var confidence := CompareInt(a.confidence.Rank(), b.confidence.Rank());
          if confidence != 0 then confidence
          else
            var question := Compare(a.discriminator, b.discriminator);
            if question != 0 then question
            else if a.vantageDependent != b.vantageDependent then CompareBool(a.vantageDependent, b.vantageDependent)
            else Compare(JoinAdvice(a), JoinAdvice(b))
  }

  lemma ContentFlip(a: Finding, b: Finding)
    ensures CompareByContent(a, b) == -CompareByContent(b, a)
  {
    hide Compare, JoinRefs, JoinAdvice;
    CompareFlip(JoinRefs(a), JoinRefs(b));
    CompareFlip(a.discriminator, b.discriminator);
    CompareFlip(JoinAdvice(a), JoinAdvice(b));
  }

  lemma ContentTransitive(a: Finding, b: Finding, c: Finding)
    requires CompareByContent(a, b) <= 0 && CompareByContent(b, c) <= 0
    ensures CompareByContent(a, c) <= 0
  {
    hide Compare, JoinRefs, JoinAdvice;
    CompareChain(JoinRefs(a), JoinRefs(b), JoinRefs(c));
    CompareChain(a.discriminator, b.discriminator, c.discriminator);
    CompareChain(JoinAdvice(a), JoinAdvice(b), JoinAdvice(c));
  }

  lemma ContentOrder()
    ensures TotalPreorder(CompareByContent)
    ensures TotalPreorder(CompareMembers)
  {
    forall a, b ensures CompareByContent(a, b) < 0 <==> CompareByContent(b, a) > 0 {
      ContentFlip(a, b);
    }
    forall a, b, c | CompareByContent(a, b) <= 0 && CompareByContent(b, c) <= 0 ensures CompareByContent(a, c) <= 0 {
      ContentTransitive(a, b, c);
    }
  }

  /** Ties are equal values: members of one group that compare equal are one finding. */
  lemma ContentTiesAreEqual(a: Finding, b: Finding)
    requires a.Built() && b.Built() && ClaimOf(a) == ClaimOf(b)
    requires CompareByContent(a, b) == 0
    ensures a == b
  {
    hide Compare, JoinRefs, JoinAdvice, Finding.Built;
    CompareZero(JoinRefs(a), JoinRefs(b));
    CompareZero(a.discriminator, b.discriminator);
    CompareZero(JoinAdvice(a), JoinAdvice(b));
    JoinsAreInjective(a, b);
  }

  /** One merge group is visited by references first, then confirmed before hypothesis, the
  least severe and the least sure before the rest, by question, the vantage-independent
  first, and by advice. */
  ghost predicate VisitedFirst(a: Finding, b: Finding) {
    || ListBefore(a.evidenceRefs, b.evidenceRefs)
    || (a.evidenceRefs == b.evidenceRefs && a.kind == Confirmed && b.kind == Hypothesis)
    || (a.evidenceRefs == b.evidenceRefs && a.kind == b.kind && RanksFirst(a, b))
  }

  ghost predicate RanksFirst(a: Finding, b: Finding) {
    || (a.severity != b.severity && NoLessSevere(b.severity, a.severity))
    || (a.severity == b.severity && a.confidence != b.confidence && NoLessSure(b.confidence, a.confidence))
    || (a.severity == b.severity && a.confidence == b.confidence && AsksFirst(a, b))
  }

  ghost predicate AsksFirst(a: Finding, b: Finding) {
    || TextBefore(a.discriminator, b.discriminator)
    || (a.discriminator == b.discriminator && !a.vantageDependent && b.vantageDependent)
    || (a.discriminator == b.discriminator && a.vantageDependent == b.vantageDependent
        && AdviceFirst(a.recommendations, b.recommendations))
  }

  lemma JoinsCompare(a: Finding, b: Finding)
    requires a.Built() && b.Built()
    ensures Compare(JoinRefs(a), JoinRefs(b)) < 0 <==> ListBefore(a.evidenceRefs, b.evidenceRefs)
    ensures Compare(JoinRefs(a), JoinRefs(b)) == 0 <==> a.evidenceRefs == b.evidenceRefs
    ensures Compare(JoinAdvice(a), JoinAdvice(b)) < 0 <==> AdviceFirst(a.recommendations, b.recommendations)
  {
    AdviceReads(a.recommendations, b.recommendations);
    forall p | p in a.evidenceRefs || p in b.evidenceRefs ensures NulFree(p) {
      IdentifierIsNulFree(p);
    }
    AdvicePartsNulFree(a.recommendations);
    AdvicePartsNulFree(b.recommendations);
    TerminatedOrder(a.evidenceRefs, b.evidenceRefs);
    TerminatedOrder(AllAdviceParts(a.recommendations), AllAdviceParts(b.recommendations));
  }

  lemma BuiltKinds(a: Finding)
    requires a.Built()
    ensures a.kind == Confirmed || a.kind == Hypothesis
  {
  }

  lemma ContentReads(a: Finding, b: Finding)
    requires a.Built() && b.Built()
    ensures CompareByContent(a, b) < 0 <==> VisitedFirst(a, b)
  {
    hide Compare, JoinRefs, JoinAdvice, Finding.Built, TextBefore, ListBefore, NoLessSevere, NoLessSure, Severity.Rank,
      Confidence.Rank, AllAdviceParts;
    JoinsCompare(a, b);
    BuiltKinds(a);
    BuiltKinds(b);
    RanksCompare(a.severity, b.severity, a.confidence, b.confidence);
    RanksCompare(b.severity, a.severity, b.confidence, a.confidence);
    CompareIsTextOrder(a.discriminator, b.discriminator);
  }

  function CompareMembers(a: AttributedFinding, b: AttributedFinding): int {
    CompareByContent(a.finding, b.finding)
  }

  // ---- the recommendation union ----

  function AddOne(acc: seq<Recommendation>, r: Recommendation): seq<Recommendation> {
    if r in acc then acc else acc + [r]
  }

  function AddAll(acc: seq<Recommendation>, rs: seq<Recommendation>): seq<Recommendation> {
    if rs == [] then acc else AddOne(AddAll(acc, rs[..|rs| - 1]), rs[|rs| - 1])
  }

  /** First occurrence wins, visiting the findings in the order given. */
  function AdviceUnion(fs: seq<Finding>): seq<Recommendation> {
    if fs == [] then [] else AddAll(AdviceUnion(fs[..|fs| - 1]), fs[|fs| - 1].recommendations)
  }

  lemma {:induction false} AddAllElements(acc: seq<Recommendation>, rs: seq<Recommendation>)
    ensures forall r :: r in AddAll(acc, rs) <==> r in acc || r in rs
    ensures Distinct(acc) ==> Distinct(AddAll(acc, rs))
  {
    if rs != [] {
      var front, last := rs[..|rs| - 1], rs[|rs| - 1];
      assert rs == front + [last];
      AddAllElements(acc, front);
    }
  }

  /** The union holds exactly the members' recommendations, each once. */
  lemma {:induction false} AdviceUnionElements(fs: seq<Finding>)
    ensures forall r :: r in AdviceUnion(fs) <==> exists f :: f in fs && r in f.recommendations
    ensures Distinct(AdviceUnion(fs))
  {
    if fs != [] {
      var front, last := fs[..|fs| - 1], fs[|fs| - 1];
      assert fs == front + [last];
      AdviceUnionElements(front);
      AddAllElements(AdviceUnion(front), last.recommendations);
    }
  }

  /** Everything the findings recommend, one after the other. */
  ghost function AllAdvice(fs: seq<Finding>): seq<Recommendation> {
    if fs == [] then [] else AllAdvice(fs[..|fs| - 1]) + fs[|fs| - 1].recommendations
  }

  /** at are the places in all where something is said for the first time, and out is what
  is said there. */
  ghost predicate SaidFirstAt(all: seq<Recommendation>, out: seq<Recommendation>, at: seq<nat>) {
    && |out| == |at|
    && (forall i, j :: 0 <= i < j < |at| ==> at[i] < at[j])
    && (forall k: nat :: k in at <==> k < |all| && all[k] !in all[..k])
    && (forall i :: 0 <= i < |at| ==> at[i] < |all| && out[i] == all[at[i]])
  }

  lemma SaidNext(all: seq<Recommendation>, out: seq<Recommendation>, at: seq<nat>, r: Recommendation)
    returns (after: seq<nat>)
    requires SaidFirstAt(all, out, at) && (forall x :: x in out <==> x in all)
    ensures SaidFirstAt(all + [r], AddOne(out, r), after) && (forall x :: x in AddOne(out, r) <==> x in all + [r])
  {
    var more := all + [r];
    after := if r in out then at else at + [|all|];
    assert forall i :: 0 <= i < |at| ==> at[i] in at;
    forall k: nat ensures k in after <==> k < |more| && more[k] !in more[..k] {
      if k < |all| {
        assert more[..k] == all[..k];
      } else if k == |all| {
        assert more[..k] == all;
      }
    }
  }

  lemma {:induction false} SaidMore(
    all: seq<Recommendation>, out: seq<Recommendation>, at: seq<nat>, rs: seq<Recommendation>)
    returns (after: seq<nat>)
    requires SaidFirstAt(all, out, at) && (forall x :: x in out <==> x in all)
    ensures SaidFirstAt(all + rs, AddAll(out, rs), after) && (forall x :: x in AddAll(out, rs) <==> x in all + rs)
  {
    hide SaidFirstAt, AddOne;
    if rs == [] {
      assert all + rs == all;
      after := at;
    } else {
      var k := |rs| - 1;
      after := SaidMore(all, out, at, rs[..k]);
      after := SaidNext(all + rs[..k], AddAll(out, rs[..k]), after, rs[k]);
      assert all + rs[..k] + [rs[k]] == all + rs;
    }
  }

  /** The union lists every recommendation where it is first said. */
  lemma {:induction false} AdviceUnionOrder(fs: seq<Finding>) returns (at: seq<nat>)
    ensures SaidFirstAt(AllAdvice(fs), AdviceUnion(fs), at)
    ensures forall x :: x in AdviceUnion(fs) <==> x in AllAdvice(fs)
  {
    hide AddAll;
    if fs == [] {
      at := [];
    } else {
      at := AdviceUnionOrder(fs[..|fs| - 1]);
      at := SaidMore(
        AllAdvice(fs[..|fs| - 1]), AdviceUnion(fs[..|fs| - 1]), at, fs[|fs| - 1].recommendations);
    }
  }

  // ---- what a merge is ----

  /** The members in content order. */
  function Members(group: seq<Finding>): (ms: seq<Finding>)
    ensures multiset(ms) == multiset(group) && |ms| == |group|
  {
    StableSortPermutes(group, CompareByContent);
    StableSort(group, CompareByContent)
  }

  /** The one question the members leave open, or none. */
  ghost predicate Asks(group: seq<Finding>, question: string) {
    && (forall f :: f in group ==> f.discriminator == "" || f.discriminator == question)
    && (question != "" ==> exists f :: f in group && f.discriminator == question)
  }

  ghost predicate SeverityMax(group: seq<Finding>, s: Severity) {
    && (forall f :: f in group ==> f.severity.Rank() <= s.Rank())
    && (exists f :: f in group && f.severity == s)
  }

  ghost predicate ConfidenceMax(group: seq<Finding>, c: Confidence) {
    && (forall f :: f in group ==> f.confidence.Rank() <= c.Rank())
    && (exists f :: f in group && f.confidence == c)
  }

  ghost predicate AnyConfirmed(group: seq<Finding>) {
    exists f :: f in group && f.kind == Confirmed
  }

  ghost predicate AnyVantageDependent(group: seq<Finding>) {
    exists f :: f in group && f.vantageDependent
  }

  ghost predicate CitesUnion(group: seq<Finding>, refs: seq<EvidenceID>) {
    Ascending(refs) && forall ref :: ref in refs <==> Cited(group, ref)
  }

  ghost predicate Cited(group: seq<Finding>, ref: EvidenceID) {
    exists f :: f in group && ref in f.evidenceRefs
  }

  /** o is the merge of two or more findings: taken fields are shared by every
  member, and every other field is reconciled by an order-independent join. */
  ghost predicate Reconciles(o: Finding, group: seq<Finding>) {
    && (forall f :: f in group ==> ClaimOf(f) == ClaimOf(o))
    && SeverityMax(group, o.severity)
    && ConfidenceMax(group, o.confidence)
    && o.kind == (if AnyConfirmed(group) then Confirmed else Hypothesis)
    && (o.vantageDependent <==> AnyVantageDependent(group))
    && (if o.kind == Confirmed then o.discriminator == "" else Asks(group, o.discriminator))
    && CitesUnion(group, o.evidenceRefs)
    && o.recommendations == AdviceUnion(Members(group))
  }

  /** A lone finding is its own merge, untouched. */
  ghost predicate IsMerge(o: Finding, group: seq<Finding>) {
    group != [] && if |group| == 1 then o == group[0] else Reconciles(o, group)
  }

  /** The content order leaves no freedom: any sorted permutation is Members. */
  lemma SortedMembers(g: seq<Finding>, sorted: seq<Finding>)
    requires AllBuilt(g) && OneClaim(g)
    requires multiset(sorted) == multiset(g) && Sorted(sorted, CompareByContent)
    ensures sorted == Members(g)
  {
    hide Finding.Built, CompareByContent, Sorted, TotalPreorder;
    ContentOrder();
    StableSortSorted(g, CompareByContent);
    SameElements(sorted, g);
    forall x, y | x in sorted && y in sorted && CompareByContent(x, y) == 0 ensures x == y {
      ContentTiesAreEqual(x, y);
    }
    SortedUnique(sorted, Members(g), CompareByContent);
  }

  lemma MembersDetermined(g: seq<Finding>, h: seq<Finding>)
    requires multiset(g) == multiset(h) && AllBuilt(g) && OneClaim(g)
    ensures Members(g) == Members(h)
  {
    hide Finding.Built, CompareByContent, Sorted, TotalPreorder;
    ContentOrder();
    StableSortSorted(h, CompareByContent);
    SortedMembers(g, Members(h));
  }

  /** A group has one merge, whatever order its members arrived in. */
  lemma MergeDetermined(a: Finding, g: seq<Finding>, b: Finding, h: seq<Finding>)
    requires multiset(g) == multiset(h) && AllBuilt(g) && OneClaim(g)
    requires IsMerge(a, g) && IsMerge(b, h)
    ensures a == b
  {
    hide Finding.Built, Ascending, Members;
    SameElements(g, h);
    if |g| == 1 {
      assert g[0] in h;
    } else {
      MembersDetermined(g, h);
      AscendingUnique(a.evidenceRefs, b.evidenceRefs) by {
        forall ref ensures ref in a.evidenceRefs <==> ref in b.evidenceRefs {
          assert Cited(g, ref) <==> Cited(h, ref);
        }
      }
      assert AnyConfirmed(g) <==> AnyConfirmed(h);
      assert AnyVantageDependent(g) <==> AnyVantageDependent(h);
      assert g[0] in g;
    }
  }

  // ---- mergeGroup ----

  /** A merge of several lists their recommendations where they are first said, the members
  visited in their one order. */
  lemma MergedAdviceReads(o: Finding, group: seq<Finding>) returns (ms: seq<Finding>, at: seq<nat>)
    requires AllBuilt(group) && IsMerge(o, group) && |group| > 1
    ensures multiset(ms) == multiset(group)
    ensures forall i, j :: 0 <= i < j < |ms| ==> !VisitedFirst(ms[j], ms[i])
    ensures SaidFirstAt(AllAdvice(ms), o.recommendations, at)
  {
    hide CompareByContent, VisitedFirst, Finding.Built, SaidFirstAt, Asks;
    ms := Members(group);
    at := AdviceUnionOrder(ms);
    ContentOrder();
    StableSortSorted(group, CompareByContent);
    SameElements(ms, group);
    forall i, j | 0 <= i < j < |ms| ensures !VisitedFirst(ms[j], ms[i]) {
      assert ms[i] in ms && ms[j] in ms;
      ContentFlip(ms[i], ms[j]);
      ContentReads(ms[j], ms[i]);
    }
  }

  function Without<T>(s: seq<T>, i: nat): seq<T>
    requires i < |s|
  {
    s[..i] + s[i + 1..]
  }

  lemma WithoutMultiset<T>(s: seq<T>, i: nat)
    requires i < |s|
    ensures multiset(Without(s, i)) == multiset(s) - multiset{s[i]}
    ensures multiset(s) == multiset(Without(s, i)) + multiset{s[i]}
  {
    assert s == (s[..i] + [s[i]]) + s[i + 1..];
    assert multiset(s) == multiset(s[..i] + [s[i]]) + multiset(s[i + 1..]);
    assert multiset(s[..i] + [s[i]]) == multiset(s[..i]) + multiset{s[i]};
  }

  lemma FindingsWithout(s: seq<AttributedFinding>, i: nat)
    requires i < |s|
    ensures FindingsOf(Without(s, i)) == Without(FindingsOf(s), i)
  {
  }

  lemma {:induction false} FindingsMultiset(a: seq<AttributedFinding>, b: seq<AttributedFinding>)
    requires multiset(a) == multiset(b)
    ensures multiset(FindingsOf(a)) == multiset(FindingsOf(b))
    decreases |a|
  {
    hide Without;
    SameElements(a, b);
    if a != [] {
      assert a[0] in b;
      var i :| 0 <= i < |b| && b[i] == a[0];
      WithoutMultiset(a, 0);
      WithoutMultiset(b, i);
      WithoutShorter(a, 0);
      FindingsMultiset(Without(a, 0), Without(b, i));
      FindingsWithout(a, 0);
      FindingsWithout(b, i);
      WithoutMultiset(FindingsOf(a), 0);
      WithoutMultiset(FindingsOf(b), i);
    }
  }

  lemma WithoutShorter<T>(s: seq<T>, i: nat)
    requires i < |s|
    ensures |Without(s, i)| == |s| - 1
  {
  }

  /** slices.SortFunc by content: whatever it does with ties, the findings come out as Members. */
  method SortByContent(group: seq<AttributedFinding>) returns (rest: seq<AttributedFinding>)
    requires AllBuilt(FindingsOf(group)) && OneClaim(FindingsOf(group))
    ensures FindingsOf(rest) == Members(FindingsOf(group))
  {
    hide Finding.Built, TotalPreorder, CompareByContent, Members;
    ContentOrder();
    rest := SortFunc(group, CompareMembers);
    FindingsMultiset(rest, group);
    SortedMembers(FindingsOf(group), FindingsOf(rest));
  }

  /** The defensive check that no merge precondition was violated by partitioning. */
  method SameLayerAndProse(group: seq<AttributedFinding>) returns (same: bool)
    requires group != []
    ensures same <==> forall k :: 0 <= k < |group| ==>
      && group[k].finding.layer == group[0].finding.layer
      && group[k].finding.summary == group[0].finding.summary
      && group[k].finding.detail == group[0].finding.detail
  {
    var rep := group[0].finding;
    var i := 0;
    while i < |group|
      invariant 0 <= i <= |group|
      invariant forall k :: 0 <= k < i ==>
        && group[k].finding.layer == rep.layer
        && group[k].finding.summary == rep.summary
        && group[k].finding.detail == rep.detail
    {
      if group[i].finding.layer != rep.layer {
        return false;
      }
      if group[i].finding.summary != rep.summary || group[i].finding.detail != rep.detail {
        return false;
      }
      i := i + 1;
    }
    return true;
  }

  /** The group's one non-empty discriminator, or a refusal when there are two. */
  method OpenQuestion(group: seq<AttributedFinding>) returns (r: Result<string>)
    ensures r.Ok? <==> OneQuestion(FindingsOf(group))
    ensures r.Ok? ==> Asks(FindingsOf(group), r.value)
  {
    ghost var fs := FindingsOf(group);
    var discriminator := "";
    var i := 0;
    while i < |group|
      invariant 0 <= i <= |group|
      invariant Asks(fs[..i], discriminator)
    {
      var got := group[i].finding.discriminator;
      assert fs[..i + 1] == fs[..i] + [fs[i]];
      if got != "" {
        if discriminator != "" && discriminator != got {
          assert fs[i] in fs;
          return Err(ErrCannotConverge);
        }
        discriminator := got;
        assert fs[i] in fs[..i + 1];
      }
      i := i + 1;
    }
    assert fs[..|fs|] == fs;
    return Ok(discriminator);
  }

  /** What the visit of the first members leaves in the merge input. */
  ghost predicate Folded(rep: Finding, ms: seq<Finding>, o: Finding) {
    && ClaimOf(o) == ClaimOf(rep)
    && o.discriminator == rep.discriminator
    && SeverityMax([rep] + ms, o.severity)
    && ConfidenceMax([rep] + ms, o.confidence)
    && o.kind == (if AnyConfirmed(ms) then Confirmed else rep.kind)
    && (o.vantageDependent <==> rep.vantageDependent || AnyVantageDependent(ms))
    && (forall ref :: ref in o.evidenceRefs <==> Cited(ms, ref))
    && o.recommendations == AdviceUnion(ms)
  }

  function Absorb(o: Finding, f: Finding): Finding {
    o.(
      evidenceRefs := o.evidenceRefs + f.evidenceRefs,
      severity := o.severity.Max(f.severity),
      confidence := o.confidence.Max(f.confidence),
      vantageDependent := o.vantageDependent || f.vantageDependent,
      kind := if f.kind == Confirmed then Confirmed else o.kind,
      recommendations := AddAll(o.recommendations, f.recommendations))
  }

  lemma AbsorbFolds(rep: Finding, ms: seq<Finding>, o: Finding, f: Finding)
    requires Folded(rep, ms, o)
    ensures Folded(rep, ms + [f], Absorb(o, f))
  {
    hide Cited, SeverityMax, ConfidenceMax;
    var more := ms + [f];
    assert [rep] + more == [rep] + ms + [f];
    AbsorbMaxima([rep] + ms, o, f);
    assert more[..|more| - 1] == ms;
    forall ref ensures Cited(more, ref) <==> Cited(ms, ref) || ref in f.evidenceRefs {
      CitedWith(ms, f, ref);
    }
    assert AnyConfirmed(more) <==> AnyConfirmed(ms) || f.kind == Confirmed;
    assert AnyVantageDependent(more) <==> AnyVantageDependent(ms) || f.vantageDependent;
  }

  lemma CitedWith(ms: seq<Finding>, f: Finding, ref: EvidenceID)
    ensures Cited(ms + [f], ref) <==> Cited(ms, ref) || ref in f.evidenceRefs
  {
    assert f in ms + [f];
  }

  lemma AbsorbMaxima(ms: seq<Finding>, o: Finding, f: Finding)
    requires SeverityMax(ms, o.severity) && ConfidenceMax(ms, o.confidence)
    ensures SeverityMax(ms + [f], o.severity.Max(f.severity)) && ConfidenceMax(ms + [f], o.confidence.Max(f.confidence))
  {
    assert f in ms + [f];
  }

  /** Appends the recommendations not seen yet, keeping both the list and the set. */
  method AppendAdvice(acc: seq<Recommendation>, before: set<Recommendation>, rs: seq<Recommendation>)
    returns (out: seq<Recommendation>, seen: set<Recommendation>)
    requires forall r :: r in before <==> r in acc
    ensures out == AddAll(acc, rs)
    ensures forall r :: r in seen <==> r in out
  {
    out, seen := acc, before;
    var i := 0;
    while i < |rs|
      invariant 0 <= i <= |rs|
      invariant out == AddAll(acc, rs[..i])
      invariant forall r :: r in seen <==> r in out
    {
      var r := rs[i];
      assert rs[..i + 1][..i] == rs[..i];
      i := i + 1;
      if r in seen {
        continue;
      }
      seen := seen + {r};
      out := out + [r];
    }
    assert rs[..|rs|] == rs;
  }

  method FoldMembers(start: Finding, rest: seq<AttributedFinding>) returns (o: Finding)
    ensures Folded(start, FindingsOf(rest), o)
  {
    hide Folded, AddAll;
    ghost var ms := FindingsOf(rest);
    o := start.(evidenceRefs := [], recommendations := []);
    var seen: set<Recommendation> := {};
    FoldStarts(start, o);
    var i := 0;
    while i < |rest|
      invariant 0 <= i <= |rest|
      invariant Folded(start, ms[..i], o)
      invariant forall r :: r in seen <==> r in o.recommendations
    {
      var f := rest[i].finding;
      AbsorbFolds(start, ms[..i], o, f);
      assert ms[..i + 1] == ms[..i] + [f];
      var advice;
      advice, seen := AppendAdvice(o.recommendations, seen, f.recommendations);
      o := o.(
        evidenceRefs := o.evidenceRefs + f.evidenceRefs,
        severity := o.severity.Max(f.severity),
        confidence := o.confidence.Max(f.confidence),
        vantageDependent := o.vantageDependent || f.vantageDependent,
        kind := if f.kind == Confirmed then Confirmed else o.kind,
        recommendations := advice);
      i := i + 1;
    }
    assert ms[..|ms|] == ms;
  }

  lemma FoldStarts(start: Finding, o: Finding)
    requires o == start.(evidenceRefs := [], recommendations := [])
    ensures Folded(start, [], o)
  {
    assert start in [start] + [];
  }

  /** The folded input of a legal group is one NewFinding accepts, and its result
  is the group's merge. */
  lemma FoldIsMerge(rep: Finding, group: seq<Finding>, folded: Finding, input: Finding)
    requires |group| >= 2 && rep.(discriminator := group[0].discriminator) == group[0]
    requires AllBuilt(group) && OneClaim(group) && Asks(group, rep.discriminator)
    requires Folded(rep, Members(group), folded)
    requires input == if folded.kind == Confirmed then folded.(discriminator := "") else folded
    ensures input.FieldsValid() && input.RefsValid() && input.AdviceBuilt()
    ensures Reconciles(Normalized(input), group)
  {
    hide ValidIdentifier, ValidProse, Ascending, Members, AdviceUnion, ValidCode, SeverityMax, ConfidenceMax, Cited;
    var ms := Members(group);
    SameElements(ms, group);
    assert group[0] in group && group[0] in ms;
    MaximaOfMembers(rep, group, ms, folded);
    forall ref ensures Cited(ms, ref) <==> Cited(group, ref) {
      CitedSame(ms, group, ref);
    }
    FoldedParts(group, ms, folded);
    assert AnyConfirmed(ms) <==> AnyConfirmed(group);
    assert AnyVantageDependent(ms) <==> AnyVantageDependent(group);
    assert group[0].Built();
  }

  /** The representative adds nothing to the maxima: it is one of the members. */
  lemma MaximaOfMembers(rep: Finding, group: seq<Finding>, ms: seq<Finding>, o: Finding)
    requires group != [] && rep.(discriminator := group[0].discriminator) == group[0]
    requires forall f :: f in ms <==> f in group
    requires SeverityMax([rep] + ms, o.severity) && ConfidenceMax([rep] + ms, o.confidence)
    ensures SeverityMax(group, o.severity) && ConfidenceMax(group, o.confidence)
    ensures AllBuilt(group) ==> !o.severity.SeverityUnspecified? && !o.confidence.ConfidenceUnspecified?
  {
    hide ValidIdentifier, ValidProse, Ascending, ValidCode;
    assert group[0] in group;
    forall f | f in group ensures f in [rep] + ms {
    }
    var s :| s in [rep] + ms && s.severity == o.severity;
    var c :| c in [rep] + ms && c.confidence == o.confidence;
    assert (if s in ms then s else group[0]) in group;
    assert (if c in ms then c else group[0]) in group;
  }

  lemma CitedSame(g: seq<Finding>, h: seq<Finding>, ref: EvidenceID)
    requires forall f :: f in g <==> f in h
    ensures Cited(g, ref) <==> Cited(h, ref)
  {
  }

  /** References and advice of the fold come from built members. */
  lemma FoldedParts(group: seq<Finding>, ms: seq<Finding>, o: Finding)
    requires group != [] && AllBuilt(group) && forall f :: f in ms <==> f in group
    requires forall ref :: ref in o.evidenceRefs <==> Cited(ms, ref)
    requires o.recommendations == AdviceUnion(ms)
    ensures o.RefsValid() && o.AdviceBuilt()
  {
    hide ValidIdentifier, ValidProse, Ascending, ValidCode, AdviceUnion;
    AdviceUnionElements(ms);
    var first := group[0];
    assert first in group && first in ms && first.Built();
    assert Cited(ms, first.evidenceRefs[0]);
  }

  /** mergeGroup: refuses a group that spans layers, prose or questions, and on
  every other group returns its merge. */
  method MergeGroup(group: seq<AttributedFinding>) returns (r: Result<Finding>)
    requires group != [] && AllBuilt(FindingsOf(group))
    requires forall k :: 0 <= k < |group| ==>
      group[k].finding.code == group[0].finding.code && group[k].finding.subject == group[0].finding.subject
    ensures r.Ok? <==> |group| == 1 || (OneClaim(FindingsOf(group)) && OneQuestion(FindingsOf(group)))
    ensures r.Ok? ==> IsMerge(r.value, FindingsOf(group)) && r.value.Built()
  {
    hide Finding.FieldsValid, Finding.RefsValid, Finding.AdviceBuilt, Members, Folded, Ascending, OneQuestion, Asks,
      Reconciles;
    ghost var fs := FindingsOf(group);
    assert fs[0] == group[0].finding && fs[0] in fs;
    if |group| == 1 {
      return Ok(group[0].finding);
    }
    var rep := group[0].finding;
    var same := SameLayerAndProse(group);
    OneClaimExactly(group);
    if !same {
      return Err(ErrCannotConverge);
    }
    var question := OpenQuestion(group);
    if question.Err? {
      return Err(question.error);
    }
    var rest := SortByContent(group);
    var start := rep.(discriminator := question.value);
    var folded := FoldMembers(start, rest);
    var input := if folded.kind == Confirmed then folded.(discriminator := "") else folded;
    FoldIsMerge(start, fs, folded, input);
    BuiltSubject(input);
    var merged := NewFinding(input);
    NonZeroAdvice(input);
    if merged.Err? {
      return Err(ErrCannotConverge);
    }
    NewFindingEstablishesBuilt(input);
    return merged;
  }

  /** The merge of built findings is a built finding. */
  lemma MergeIsBuilt(o: Finding, group: seq<Finding>)
    requires IsMerge(o, group) && AllBuilt(group)
    ensures o.Built()
  {
    hide ValidIdentifier, ValidProse, Ascending, Members, AdviceUnion, ValidCode;
    assert group[0] in group && group[0].Built() && ClaimOf(group[0]) == ClaimOf(o);
    if |group| > 1 {
      SameElements(Members(group), group);
      forall ref ensures ref in o.evidenceRefs <==> Cited(Members(group), ref) {
        CitedSame(Members(group), group, ref);
      }
      FoldedParts(group, Members(group), o);
      QuestionIsValid(o, group);
    }
  }

  lemma QuestionIsValid(o: Finding, group: seq<Finding>)
    requires Reconciles(o, group) && AllBuilt(group)
    ensures o.discriminator == "" || ValidIdentifier(o.discriminator)
    ensures o.kind == Confirmed ==> o.discriminator == ""
    ensures !o.kind.KindUnspecified? && !o.severity.SeverityUnspecified? && !o.confidence.ConfidenceUnspecified?
  {
    hide ValidIdentifier, ValidProse, Ascending, Members, AdviceUnion, ValidCode;
  }

  lemma OneClaimExactly(group: seq<AttributedFinding>)
    requires group != []
    requires forall k :: 0 <= k < |group| ==>
      group[k].finding.code == group[0].finding.code && group[k].finding.subject == group[0].finding.subject
    ensures OneClaim(FindingsOf(group)) <==> forall k :: 0 <= k < |group| ==>
      && group[k].finding.layer == group[0].finding.layer
      && group[k].finding.summary == group[0].finding.summary
      && group[k].finding.detail == group[0].finding.detail
  {
    var fs := FindingsOf(group);
    if OneClaim(fs) {
      forall k | 0 <= k < |group|
        ensures group[k].finding.layer == group[0].finding.layer
        ensures group[k].finding.summary == group[0].finding.summary
        ensures group[k].finding.detail == group[0].finding.detail
      {
        assert fs[k] in fs && fs[0] in fs;
        assert ClaimOf(fs[k]) == ClaimOf(fs[0]);
      }
    } else {
      var f, g :| f in fs && g in fs && ClaimOf(f) != ClaimOf(g);
      var i :| 0 <= i < |fs| && fs[i] == f;
      var j :| 0 <= j < |fs| && fs[j] == g;
      assert
        || ClaimOf(group[i].finding) != ClaimOf(group[0].finding)
        || ClaimOf(group[j].finding) != ClaimOf(group[0].finding);
    }
  }

  lemma BuiltSubject(f: Finding)
    requires f.FieldsValid()
    ensures f.subject.Built()
  {
  }

  lemma NonZeroAdvice(f: Finding)
    requires f.AdviceBuilt()
    ensures forall r :: r in f.recommendations ==> !r.IsZero()
  {
    forall r | r in f.recommendations ensures !r.IsZero() {
      assert r.Built();
    }
  }
}
