/** What fusing a claim costs: exactly when converging an earlier batch first still gives
the findings everything together gives. */
module FusedLaws {
  import opened Text
  import opened Orders
  import opened Findings
  import opened Merging
  import opened Partitioning
  import opened Convergence
  import opened ConvergenceLaws
  import opened BatchLaws

  // ---- the findings about one claim under one discriminator ----

  ghost function Part(s: seq<Finding>, claim: Claim, q: string): (r: seq<Finding>)
    ensures forall x ::
      multiset(r)[x] == if ClaimOf(x) == claim && x.discriminator == q then multiset(s)[x] else 0
  {
    if s == [] then []
    else
      var front, last := s[..|s| - 1], s[|s| - 1];
      assert s == front + [last];
      if ClaimOf(last) == claim && last.discriminator == q then Part(front, claim, q) + [last]
      else Part(front, claim, q)
  }

  lemma PartMembers(s: seq<Finding>, claim: Claim, q: string)
    ensures forall x :: x in Part(s, claim, q) <==> x in s && ClaimOf(x) == claim && x.discriminator == q
  {
    hide Part, ClaimOf;
    forall x ensures x in Part(s, claim, q) <==> x in s && ClaimOf(x) == claim && x.discriminator == q {
      assert x in Part(s, claim, q) <==> x in multiset(Part(s, claim, q));
      assert x in s <==> x in multiset(s);
    }
  }

  lemma PartAsked(s: seq<Finding>, claim: Claim, q: string)
    ensures q != "" ==> (Asked(s, claim, q) <==> Part(s, claim, q) != [])
    ensures SilentOn(s, claim) <==> Part(s, claim, "") != []
  {
    hide Part, ClaimOf;
    PartMembers(s, claim, q);
    PartMembers(s, claim, "");
    if Part(s, claim, q) != [] {
      assert Part(s, claim, q)[0] in Part(s, claim, q);
    }
    if Part(s, claim, "") != [] {
      assert Part(s, claim, "")[0] in Part(s, claim, "");
    }
  }

  /** All of s and t about one claim under one discriminator. */
  ghost function Joint(s: seq<Finding>, t: seq<Finding>, claim: Claim, q: string): seq<Finding> {
    Part(s, claim, q) + Part(t, claim, q)
  }

  lemma JointMembers(s: seq<Finding>, t: seq<Finding>, claim: Claim, q: string)
    requires AllBuilt(s + t)
    ensures AllBuilt(Joint(s, t, claim, q)) && OneClaim(Joint(s, t, claim, q))
    ensures forall x :: x in Joint(s, t, claim, q) ==> x.discriminator == q
  {
    hide Part, ClaimOf, Finding.Built;
    PartMembers(s, claim, q);
    PartMembers(t, claim, q);
    forall x | x in Joint(s, t, claim, q) ensures x in s + t && ClaimOf(x) == claim && x.discriminator == q {
    }
  }

  // ---- divided claims: one output under each discriminator ----

  lemma DividedGroup(s: seq<Finding>, t: seq<Finding>, claim: Claim, f: Finding)
    requires !Undivided(s + t, claim) && ClaimOf(f) == claim
    ensures IsGroup(s + t, f, Joint(s, t, claim, f.discriminator))
  {
    hide Undivided, Part, ClaimOf;
  }

  lemma DividedOutput(s: seq<Finding>, t: seq<Finding>, out: seq<Finding>, claim: Claim, q: string) returns (o: Finding)
    requires AllBuilt(s + t) && CoversGroups(s + t, out) && !Undivided(s + t, claim) && Joint(s, t, claim, q) != []
    ensures o in out && ClaimOf(o) == claim && o.discriminator == q && IsMerge(o, Joint(s, t, claim, q))
  {
    hide AllBuilt, CoversGroups, Undivided, Part, IsMerge, IsGroup, MergesGroupOf, ClaimOf;
    PartMembers(s, claim, q);
    PartMembers(t, claim, q);
    var f := Joint(s, t, claim, q)[0];
    assert f in Part(s, claim, q) || f in Part(t, claim, q);
    o := OutputOf(s + t, out, f);
    DividedGroup(s, t, claim, f);
    RearrangedMerge(s + t, f, o, Joint(s, t, claim, q));
    DividedKeepsQuestion(s + t, f, o);
    MergeKeepsClaim(s + t, f, o);
  }

  lemma DividedSource(s: seq<Finding>, t: seq<Finding>, out: seq<Finding>, claim: Claim, o: Finding)
    requires AllBuilt(s + t) && CoversGroups(s + t, out) && !Undivided(s + t, claim)
    requires o in out && ClaimOf(o) == claim
    ensures IsMerge(o, Joint(s, t, claim, o.discriminator)) && Joint(s, t, claim, o.discriminator) != []
  {
    hide AllBuilt, CoversGroups, Undivided, Part, IsGroup, MergesGroupOf, ClaimOf, Reconciles;
    var f := SourceOf(s + t, out, o);
    MergeKeepsClaim(s + t, f, o);
    DividedKeepsQuestion(s + t, f, o);
    DividedGroup(s, t, claim, f);
    RearrangedMerge(s + t, f, o, Joint(s, t, claim, o.discriminator));
  }

  /** Two groups say the same: neither or both are empty, and their merges match. */
  ghost predicate PartsAgree(u: seq<Finding>, v: seq<Finding>) {
    && (u == [] <==> v == [])
    && (forall m, n :: IsMerge(m, u) && IsMerge(n, v) ==> SameButAdviceOrder(m, n))
  }

  /** On a claim divided both times, the results agree discriminator by discriminator. */
  lemma DividedAgree(
    s: seq<Finding>, t: seq<Finding>, first: seq<Finding>, all: seq<Finding>, second: seq<Finding>, claim: Claim)
    requires AllBuilt(s + t) && AllBuilt(first + t)
    requires CoversGroups(s + t, all) && CoversGroups(first + t, second)
    requires !Undivided(s + t, claim) && !Undivided(first + t, claim)
    ensures AgreeOn(all, second, claim) <==> forall q :: PartsAgree(Joint(s, t, claim, q), Joint(first, t, claim, q))
  {
    hide AllBuilt, CoversGroups, Undivided, Joint, IsMerge, ClaimOf, SameButAdviceOrder, AgreeOn, PartsAgree;
    if AgreeOn(all, second, claim) {
      forall q ensures PartsAgree(Joint(s, t, claim, q), Joint(first, t, claim, q)) {
        AgreeingParts(s, t, first, all, second, claim, q);
      }
    }
    if forall q :: PartsAgree(Joint(s, t, claim, q), Joint(first, t, claim, q)) {
      PartsSuffice(s, t, first, all, second, claim);
    }
  }

  lemma AgreeingParts(
    s: seq<Finding>, t: seq<Finding>, first: seq<Finding>, all: seq<Finding>, second: seq<Finding>, claim: Claim,
    q: string)
    requires AllBuilt(s + t) && AllBuilt(first + t)
    requires CoversGroups(s + t, all) && CoversGroups(first + t, second)
    requires !Undivided(s + t, claim) && !Undivided(first + t, claim) && AgreeOn(all, second, claim)
    ensures PartsAgree(Joint(s, t, claim, q), Joint(first, t, claim, q))
  {
    hide AllBuilt, CoversGroups, Undivided, Joint, IsMerge, ClaimOf, SameButAdviceOrder;
    var u, v := Joint(s, t, claim, q), Joint(first, t, claim, q);
    JointMembers(s, t, claim, q);
    JointMembers(first, t, claim, q);
    if u != [] {
      var o := DividedOutput(s, t, all, claim, q);
      var p :| p in second && SameButAdviceOrder(o, p);
      SameNames(o, p);
      DividedSource(first, t, second, claim, p);
      forall m, n | IsMerge(m, u) && IsMerge(n, v) ensures SameButAdviceOrder(m, n) {
        MergeDetermined(m, u, o, u);
        MergeDetermined(n, v, p, v);
      }
    }
    if v != [] {
      var p := DividedOutput(first, t, second, claim, q);
      var o :| o in all && SameButAdviceOrder(p, o);
      SameNames(p, o);
      DividedSource(s, t, all, claim, o);
    }
    EmptyMergesNothing();
  }

  lemma EmptyMergesNothing()
    ensures forall m :: !IsMerge(m, [])
  {
  }

  lemma SameNames(o: Finding, p: Finding)
    requires SameButAdviceOrder(o, p)
    ensures ClaimOf(o) == ClaimOf(p) && o.discriminator == p.discriminator
  {
  }

  lemma PartsSuffice(
    s: seq<Finding>, t: seq<Finding>, first: seq<Finding>, all: seq<Finding>, second: seq<Finding>, claim: Claim)
    requires AllBuilt(s + t) && AllBuilt(first + t)
    requires CoversGroups(s + t, all) && CoversGroups(first + t, second)
    requires !Undivided(s + t, claim) && !Undivided(first + t, claim)
    requires forall q :: PartsAgree(Joint(s, t, claim, q), Joint(first, t, claim, q))
    ensures AgreeOn(all, second, claim)
  {
    hide AllBuilt, CoversGroups, Undivided, Joint, IsMerge, ClaimOf, SameButAdviceOrder;
    forall o | o in all && ClaimOf(o) == claim ensures exists p :: p in second && SameButAdviceOrder(o, p) {
      DividedSource(s, t, all, claim, o);
      assert PartsAgree(Joint(s, t, claim, o.discriminator), Joint(first, t, claim, o.discriminator));
      var p := DividedOutput(first, t, second, claim, o.discriminator);
    }
    forall p | p in second && ClaimOf(p) == claim ensures exists o :: o in all && SameButAdviceOrder(p, o) {
      DividedSource(first, t, second, claim, p);
      assert PartsAgree(Joint(s, t, claim, p.discriminator), Joint(first, t, claim, p.discriminator));
      var o := DividedOutput(s, t, all, claim, p.discriminator);
      SameEitherWay(o, p);
    }
  }

  // ---- merging more that adds nothing ----

  /** Everything x would bring to a merge with y is there without it. */
  ghost predicate AddsNothing(x: seq<Finding>, y: seq<Finding>) {
    && (forall ref :: CitedBy(x, ref) ==> CitedBy(y, ref))
    && (forall r :: Advised(x, r) ==> Advised(y, r))
    && (forall f :: f in x ==> exists g :: g in y && f.severity.Rank() <= g.severity.Rank())
    && (forall f :: f in x ==> exists g :: g in y && f.confidence.Rank() <= g.confidence.Rank())
    && (AnyConfirmed(x) ==> AnyConfirmed(y))
    && (AnyVantageDependent(x) ==> AnyVantageDependent(y))
  }

  /** The merge with x is the merge without it, up to the order of recommendations,
  exactly when x adds nothing. */
  lemma MergesWithout(x: seq<Finding>, y: seq<Finding>, m: Finding, n: Finding)
    requires AllBuilt(x + y) && IsMerge(m, x + y) && IsMerge(n, y) && m.discriminator == n.discriminator
    ensures SameButAdviceOrder(m, n) <==> AddsNothing(x, y)
  {
    hide IsMerge, Finding.Built, Asks, CitedBy, Advised, AddsNothing, AllBuilt, SeverityMax, ConfidenceMax, ClaimOf,
      AnyConfirmed, AnyVantageDependent, SameButAdviceOrder;
    Halves(x, y);
    MergeFacts(m, x + y);
    MergeFacts(n, y);
    MergeConserves(m, x + y);
    MergeConserves(n, y);
    SeverityWithout(x, y, m.severity, n.severity);
    ConfidenceWithout(x, y, m.confidence, n.confidence);
    ListsWithout(x, y, m, n);
    assert y[0] in x + y && y[0] in y;
    FlagsJoin(x, y);
    AddsNothingParts(x, y);
    SameParts(m, n);
  }

  lemma FlagsJoin(x: seq<Finding>, y: seq<Finding>)
    ensures AnyConfirmed(x + y) <==> AnyConfirmed(x) || AnyConfirmed(y)
    ensures AnyVantageDependent(x + y) <==> AnyVantageDependent(x) || AnyVantageDependent(y)
  {
    forall f ensures f in x + y <==> f in x || f in y {
    }
  }

  ghost predicate NoGraver(x: seq<Finding>, y: seq<Finding>) {
    forall f :: f in x ==> exists g :: g in y && f.severity.Rank() <= g.severity.Rank()
  }

  ghost predicate NoSurer(x: seq<Finding>, y: seq<Finding>) {
    forall f :: f in x ==> exists g :: g in y && f.confidence.Rank() <= g.confidence.Rank()
  }

  ghost predicate NoNewText(x: seq<Finding>, y: seq<Finding>) {
    (forall ref :: CitedBy(x, ref) ==> CitedBy(y, ref)) && (forall r :: Advised(x, r) ==> Advised(y, r))
  }

  lemma AddsNothingParts(x: seq<Finding>, y: seq<Finding>)
    ensures AddsNothing(x, y) <==>
      && NoNewText(x, y) && NoGraver(x, y) && NoSurer(x, y)
      && (AnyConfirmed(x) ==> AnyConfirmed(y)) && (AnyVantageDependent(x) ==> AnyVantageDependent(y))
  {
  }

  lemma SameParts(m: Finding, n: Finding)
    ensures SameButAdviceOrder(m, n) <==>
      && ClaimOf(m) == ClaimOf(n) && m.kind == n.kind && m.vantageDependent == n.vantageDependent
      && m.severity == n.severity && m.confidence == n.confidence && m.discriminator == n.discriminator
      && m.evidenceRefs == n.evidenceRefs && (forall r :: r in m.recommendations <==> r in n.recommendations)
  {
  }

  lemma SeverityWithout(x: seq<Finding>, y: seq<Finding>, m: Severity, n: Severity)
    requires SeverityMax(x + y, m) && SeverityMax(y, n)
    ensures m == n <==> NoGraver(x, y)
  {
    forall f ensures f in x + y <==> f in x || f in y {
    }
    var top: Finding :| top in y && top.severity == n;
    var f: Finding :| f in x + y && f.severity == m;
    if NoGraver(x, y) {
      assert exists g: Finding :: g in y && f.severity.Rank() <= g.severity.Rank();
    }
  }

  lemma ConfidenceWithout(x: seq<Finding>, y: seq<Finding>, m: Confidence, n: Confidence)
    requires ConfidenceMax(x + y, m) && ConfidenceMax(y, n)
    ensures m == n <==> NoSurer(x, y)
  {
    forall f ensures f in x + y <==> f in x || f in y {
    }
    var top: Finding :| top in y && top.confidence == n;
    var f: Finding :| f in x + y && f.confidence == m;
    if NoSurer(x, y) {
      assert exists g: Finding :: g in y && f.confidence.Rank() <= g.confidence.Rank();
    }
  }

  lemma ListsWithout(x: seq<Finding>, y: seq<Finding>, m: Finding, n: Finding)
    requires m.Built() && n.Built()
    requires forall ref :: ref in m.evidenceRefs <==> CitedBy(x + y, ref)
    requires forall ref :: ref in n.evidenceRefs <==> CitedBy(y, ref)
    requires forall r :: r in m.recommendations <==> Advised(x + y, r)
    requires forall r :: r in n.recommendations <==> Advised(y, r)
    ensures NoNewText(x, y) <==>
      m.evidenceRefs == n.evidenceRefs && forall r :: r in m.recommendations <==> r in n.recommendations
  {
    hide Finding.Built, CitedBy, Advised, Ascending;
    BuiltAscending(m);
    BuiltAscending(n);
    forall ref ensures CitedBy(x + y, ref) <==> CitedBy(x, ref) || CitedBy(y, ref) {
      CitedJoin(x, y, ref);
    }
    forall r ensures Advised(x + y, r) <==> Advised(x, r) || Advised(y, r) {
      AdvisedJoin(x, y, r);
    }
    if NoNewText(x, y) {
      forall ref ensures ref in m.evidenceRefs <==> ref in n.evidenceRefs {
        assert ref in m.evidenceRefs <==> CitedBy(x + y, ref);
      }
      AscendingUnique(m.evidenceRefs, n.evidenceRefs);
    }
  }

  // ---- the one output a fused claim has after the first batch ----

  /** The discriminator a fused claim is filed under: a confirmed finding silences it. */
  ghost function Stays(s: seq<Finding>, claim: Claim, p: string): string {
    if AnyConfirmed(Part(s, claim, "")) then "" else p
  }

  /** The discriminator it loses. */
  ghost function Gone(s: seq<Finding>, claim: Claim, p: string): string {
    if AnyConfirmed(Part(s, claim, "")) then p else ""
  }

  lemma FusedFirst(s: seq<Finding>, t: seq<Finding>, first: seq<Finding>, claim: Claim) returns (a: Finding, p: string)
    requires AllBuilt(s) && IsConverged(s, first) && Fused(s, t, claim)
    ensures Asked(s, claim, p) && a in first && ClaimOf(a) == claim && a.discriminator == Stays(s, claim, p)
    ensures AllBuilt(Part(s, claim, "") + Part(s, claim, p)) && IsMerge(a, Part(s, claim, "") + Part(s, claim, p))
    ensures forall y :: y in first && ClaimOf(y) == claim ==> y == a
  {
    hide AllBuilt, CoversGroups, MergesGroupOf, ClaimOf, Part, CompareCanonical, IsMerge, IsGroup, StrictlySorted;
    var f, asking := FusedMembers(s, t, claim);
    p := asking.discriminator;
    a := OutputOf(s, first, f);
    MergeKeepsClaim(s, f, a);
    FusedGroup(s, claim, f, asking);
    var group := Part(s, claim, "") + Part(s, claim, p);
    RearrangedMerge(s, f, a, group);
    FusedQuestion(s, claim, p, a);
    forall y | y in first && ClaimOf(y) == claim ensures y == a {
      var g := SourceOf(s, first, y);
      MergeKeepsClaim(s, g, y);
      MatesShareGroup(s, g, f, y);
      GroupMergeDetermined(s, s, f, y, a);
    }
  }

  lemma FusedMembers(s: seq<Finding>, t: seq<Finding>, claim: Claim) returns (f: Finding, g: Finding)
    requires Fused(s, t, claim)
    ensures f in s && ClaimOf(f) == claim && f.discriminator == ""
    ensures g in s && ClaimOf(g) == claim && g.discriminator != "" && Asked(s, claim, g.discriminator)
    ensures Undivided(s, claim)
  {
    f :| f in s && ClaimOf(f) == claim && f.discriminator == "";
    g :| g in s && ClaimOf(g) == claim && g.discriminator != "";
  }

  lemma FusedGroup(s: seq<Finding>, claim: Claim, f: Finding, g: Finding)
    requires Undivided(s, claim) && f in s && ClaimOf(f) == claim && f.discriminator == ""
    requires g in s && ClaimOf(g) == claim && g.discriminator != ""
    ensures IsGroup(s, f, Part(s, claim, "") + Part(s, claim, g.discriminator))
  {
    hide ClaimOf, Part, Undivided;
    var p := g.discriminator;
    var group := Part(s, claim, "") + Part(s, claim, p);
    forall x ensures multiset(group)[x] == if Mates(s, f, x) then multiset(s)[x] else 0 {
      if x in s && ClaimOf(x) == claim && x.discriminator != "" {
        AskedAlike(s, claim, g, x);
      } else if x !in s {
        assert x !in multiset(s);
      }
    }
  }

  lemma AskedAlike(s: seq<Finding>, claim: Claim, g: Finding, x: Finding)
    requires Undivided(s, claim) && g in s && x in s && ClaimOf(g) == claim && ClaimOf(x) == claim
    requires g.discriminator != "" && x.discriminator != ""
    ensures g.discriminator == x.discriminator
  {
    assert Asked(s, claim, g.discriminator) && Asked(s, claim, x.discriminator);
  }

  lemma FusedQuestion(s: seq<Finding>, claim: Claim, p: string, a: Finding)
    requires p != "" && Asked(s, claim, p)
    requires AllBuilt(Part(s, claim, "") + Part(s, claim, p)) && IsMerge(a, Part(s, claim, "") + Part(s, claim, p))
    ensures a.discriminator == Stays(s, claim, p)
  {
    hide AllBuilt, Part, IsMerge, ClaimOf;
    var silent, asking := Part(s, claim, ""), Part(s, claim, p);
    PartMembers(s, claim, p);
    PartAsked(s, claim, p);
    MergeFacts(a, silent + asking);
    assert asking[0] in asking && asking[0] in silent + asking;
    OnlySilentConfirms(silent, asking, p);
  }

  lemma OnlySilentConfirms(silent: seq<Finding>, asking: seq<Finding>, p: string)
    requires p != "" && AllBuilt(silent + asking) && forall x :: x in asking ==> x.discriminator == p
    ensures AnyConfirmed(silent + asking) <==> AnyConfirmed(silent)
    ensures !AnyConfirmed(asking)
  {
    hide Finding.Built;
    FlagsJoin(silent, asking);
    forall x | x in asking ensures x.kind != Confirmed {
      assert x in silent + asking;
      AskersAreHypotheses(x);
    }
  }

  lemma AskersAreHypotheses(x: Finding)
    requires x.Built() && x.discriminator != ""
    ensures x.kind != Confirmed
  {
    hide ValidIdentifier, ValidProse, ValidCode, Ascending;
  }

  lemma FirstPart(s: seq<Finding>, first: seq<Finding>, claim: Claim, a: Finding, q: string)
    requires IsConverged(s, first) && a in first && ClaimOf(a) == claim
    requires forall y :: y in first && ClaimOf(y) == claim ==> y == a
    ensures Part(first, claim, q) == if q == a.discriminator then [a] else []
  {
    hide ClaimOf, Part, CompareCanonical, TotalPreorder, CoversGroups;
    CanonicalOrder();
    StrictIsDistinct(first, CompareCanonical);
    DistinctMultiset(first);
    PartMembers(first, claim, q);
    if q == a.discriminator {
      forall x ensures multiset(Part(first, claim, q))[x] == multiset([a])[x] {
        assert x in first <==> x in multiset(first);
      }
      LoneMember(Part(first, claim, q), a);
    } else if Part(first, claim, q) != [] {
      assert Part(first, claim, q)[0] in Part(first, claim, q);
    }
  }

  lemma LoneMember<T>(s: seq<T>, x: T)
    requires multiset(s) == multiset([x])
    ensures s == [x]
  {
    assert |s| == |multiset(s)| == 1;
    assert s[0] in multiset(s);
  }

  // ---- when the fused claim comes out the same all the same ----

  /** The later batch restores the discriminator that was lost, and what was filed
  elsewhere in the meantime adds nothing on either side. */
  ghost predicate Restored(s: seq<Finding>, t: seq<Finding>, claim: Claim, p: string) {
    var gone, stays := Gone(s, claim, p), Stays(s, claim, p);
    && Part(t, claim, gone) != []
    && AddsNothing(Part(s, claim, gone), Part(t, claim, gone))
    && AddsNothing(Part(s, claim, gone), Joint(s, t, claim, stays))
  }

  lemma AnotherQuestion(s: seq<Finding>, t: seq<Finding>, claim: Claim, p: string) returns (q: string)
    requires Fused(s, t, claim) && Asked(s, claim, p)
    ensures q != p && Asked(t, claim, q)
  {
    hide Asked;
    var x, y :| Asked(s + t, claim, x) && Asked(s + t, claim, y) && x != y;
    q := if x == p then y else x;
    AskedJoin(s, t, claim, q);
  }

  /** What is known of a fused claim once the first batch has converged. */
  ghost predicate OnlyOutput(s: seq<Finding>, first: seq<Finding>, claim: Claim, p: string, a: Finding) {
    && a in first && ClaimOf(a) == claim && a.discriminator == Stays(s, claim, p)
    && forall y :: y in first && ClaimOf(y) == claim ==> y == a
  }

  lemma StillDivided(s: seq<Finding>, t: seq<Finding>, first: seq<Finding>, claim: Claim, p: string, a: Finding)
    requires Fused(s, t, claim) && Asked(s, claim, p) && OnlyOutput(s, first, claim, p, a)
    requires Stays(s, claim, p) == p || Part(t, claim, p) != []
    ensures !Undivided(first + t, claim)
  {
    hide Fused, ClaimOf, Part, Stays;
    var q := AnotherQuestion(s, t, claim, p);
    AskedJoin(first, t, claim, p);
    AskedJoin(first, t, claim, q);
    PartAsked(t, claim, p);
    if Stays(s, claim, p) == p {
      assert Asked(first, claim, p);
    }
  }

  lemma LostForGood(
    s: seq<Finding>, t: seq<Finding>, first: seq<Finding>, all: seq<Finding>, second: seq<Finding>,
    claim: Claim, p: string, a: Finding)
    requires AllBuilt(s + t) && AllBuilt(first + t) && IsConverged(s, first)
    requires CoversGroups(s + t, all) && CoversGroups(first + t, second)
    requires Fused(s, t, claim) && Asked(s, claim, p) && OnlyOutput(s, first, claim, p, a)
    requires Part(t, claim, Gone(s, claim, p)) == []
    ensures !AgreeOn(all, second, claim)
  {
    hide AllBuilt, CoversGroups, ClaimOf, Part, Undivided, SameButAdviceOrder, IsMerge, StrictlySorted;
    var gone := Gone(s, claim, p);
    PartAsked(s, claim, p);
    if AgreeOn(all, second, claim) {
      var o := DividedOutput(s, t, all, claim, gone);
      var n :| n in second && SameButAdviceOrder(o, n);
      SameNames(o, n);
      FirstPart(s, first, claim, a, gone);
      PartAsked(first, claim, gone);
      PartAsked(t, claim, gone);
      if gone == "" {
        StillDivided(s, t, first, claim, p, a);
        DividedSource(first, t, second, claim, n);
      } else {
        assert Asked(second, claim, gone);
        OutputAsks(first + t, second, claim, gone);
        AskedJoin(first, t, claim, gone);
      }
      assert false;
    }
  }

  lemma AgreeWithout(x: seq<Finding>, y: seq<Finding>, q: string)
    requires y != [] && AllBuilt(x + y) && OneClaim(x + y) && forall f :: f in x + y ==> f.discriminator == q
    ensures PartsAgree(x + y, y) <==> AddsNothing(x, y)
  {
    hide AllBuilt, IsMerge, AddsNothing, SameButAdviceOrder, ClaimOf, OneQuestion;
    Halves(x, y);
    assert forall f :: f in y ==> f in x + y;
    assert OneQuestion(x + y) && OneQuestion(y) by { OneVoiceAsks(x + y, q); OneVoiceAsks(y, q); }
    var m := MergeExists(x + y);
    var n := MergeExists(y);
    UniformMerge(m, x + y, q);
    UniformMerge(n, y, q);
    MergesWithout(x, y, m, n);
    forall a, b | IsMerge(a, x + y) && IsMerge(b, y) ensures a == m && b == n {
      MergeDetermined(a, x + y, m, x + y);
      MergeDetermined(b, y, n, y);
    }
  }

  lemma OneVoiceAsks(group: seq<Finding>, q: string)
    requires forall f :: f in group ==> f.discriminator == q
    ensures OneQuestion(group)
  {
  }

  /** The part the earlier output joins: x was merged into it beforehand. */
  lemma AgreeAbsorbed(
    x: seq<Finding>, y: seq<Finding>, later: seq<Finding>, g: seq<Finding>, a: Finding, q: string)
    requires y != [] && AllBuilt(x + (y + later)) && OneClaim(x + (y + later)) && OneQuestion(x + (y + later))
    requires multiset(g) == multiset(x + y) && IsMerge(a, g)
    requires AllBuilt([a] + later) && OneClaim([a] + later) && OneQuestion([a] + later)
    requires forall f :: f in y + later ==> f.discriminator == q
    requires if q == "" then AnyConfirmed(y) else !AnyConfirmed(x)
    ensures PartsAgree(y + later, [a] + later) <==> AddsNothing(x, y + later)
  {
    hide AllBuilt, IsMerge, AddsNothing, SameButAdviceOrder, ClaimOf, OneQuestion, AnyConfirmed;
    var whole, part := x + (y + later), y + later;
    Halves(x, part);
    LaterHalf(x, part);
    var w := MergeExists(whole);
    var m := MergeExists(part);
    var n := MergeExists([a] + later);
    UniformMerge(m, part, q);
    WholeKeepsQuestion(x, y, later, w, q);
    MergesWithout(x, part, w, m);
    AbsorbedMerge(x, y, later, g, a, w, n);
    SameJoins(m, w, n);
    forall b, c | IsMerge(b, part) && IsMerge(c, [a] + later) ensures b == m && c == n {
      MergeDetermined(b, part, m, part);
      MergeDetermined(c, [a] + later, n, [a] + later);
    }
  }

  /** Sameness up to advice order goes through a third finding. */
  lemma SameJoins(m: Finding, w: Finding, n: Finding)
    requires SameButAdviceOrder(w, n)
    ensures SameButAdviceOrder(m, n) <==> SameButAdviceOrder(w, m)
  {
  }

  lemma WholeKeepsQuestion(x: seq<Finding>, y: seq<Finding>, later: seq<Finding>, w: Finding, q: string)
    requires y != [] && AllBuilt(x + (y + later)) && IsMerge(w, x + (y + later))
    requires forall f :: f in y + later ==> f.discriminator == q
    requires if q == "" then AnyConfirmed(y) else !AnyConfirmed(x)
    ensures w.discriminator == q
  {
    hide Finding.Built, IsMerge;
    MergeFacts(w, x + (y + later));
    FlagsJoin(x, y + later);
    FlagsJoin(y, later);
    assert y[0] in y + later && y[0] in x + (y + later);
    if q != "" {
      Halves(x, y + later);
      forall f | f in y + later ensures f.kind != Confirmed {
        AskersAreHypotheses(f);
      }
    }
  }

  lemma AbsorbedMerge(
    x: seq<Finding>, y: seq<Finding>, later: seq<Finding>, g: seq<Finding>, a: Finding, w: Finding, n: Finding)
    requires y != [] && AllBuilt(x + (y + later)) && OneClaim(x + (y + later)) && OneQuestion(x + (y + later))
    requires multiset(g) == multiset(x + y) && IsMerge(a, g) && IsMerge(w, x + (y + later))
    requires AllBuilt([a] + later) && OneClaim([a] + later) && OneQuestion([a] + later) && IsMerge(n, [a] + later)
    ensures SameButAdviceOrder(w, n)
  {
    hide AllBuilt, IsMerge, SameButAdviceOrder, ClaimOf, OneQuestion;
    var whole := x + (y + later);
    assert multiset(g + later) == multiset(whole);
    Rearranged(whole, g + later);
    var v := MergeExists(g + later);
    MergeDetermined(v, g + later, w, whole);
    if later == [] {
      assert g + later == g && [a] + later == [a];
      MergedAlone(g, a, w, n);
    } else {
      AbsorbBatch(g, later, a, v, n);
    }
  }

  lemma Rearranged(a: seq<Finding>, b: seq<Finding>)
    requires multiset(a) == multiset(b) && AllBuilt(a) && OneClaim(a) && OneQuestion(a)
    ensures AllBuilt(b) && OneClaim(b) && OneQuestion(b) && (a != [] ==> b != [])
  {
    hide Finding.Built, ClaimOf;
    SameElements(a, b);
    if a != [] {
      assert a[0] in b;
    }
  }

  lemma OtherQuestionsAgree(s: seq<Finding>, t: seq<Finding>, first: seq<Finding>, claim: Claim, p: string, q: string)
    requires AllBuilt(s + t) && Undivided(s, claim) && Asked(s, claim, p) && q != p && q != ""
    requires Part(first, claim, q) == []
    ensures PartsAgree(Joint(s, t, claim, q), Joint(first, t, claim, q))
  {
    hide AllBuilt, Part, IsMerge, SameButAdviceOrder, ClaimOf, Asked;
    PartAsked(s, claim, q);
    assert Part(s, claim, q) == [];
    assert Joint(s, t, claim, q) == Part(t, claim, q) == Joint(first, t, claim, q);
    JointMembers(s, t, claim, q);
    var u := Part(t, claim, q);
    forall m, n | IsMerge(m, u) && IsMerge(n, u) ensures SameButAdviceOrder(m, n) {
      MergeDetermined(m, u, n, u);
      SameIsSame(m);
    }
  }

  lemma GoneExactly(s: seq<Finding>, t: seq<Finding>, first: seq<Finding>, claim: Claim, gone: string)
    requires AllBuilt(s + t) && Part(first, claim, gone) == [] && Part(s, claim, gone) != []
    ensures PartsAgree(Joint(s, t, claim, gone), Joint(first, t, claim, gone)) <==>
      Part(t, claim, gone) != [] && AddsNothing(Part(s, claim, gone), Part(t, claim, gone))
  {
    hide AllBuilt, Part, IsMerge, SameButAdviceOrder, ClaimOf, AddsNothing;
    var x, y := Part(s, claim, gone), Part(t, claim, gone);
    assert Joint(first, t, claim, gone) == y;
    JointMembers(s, t, claim, gone);
    if y != [] {
      AgreeWithout(x, y, gone);
    }
  }

  /** The members of the claim under its two discriminators, joined in either order. */
  lemma StaysExactly(
    s: seq<Finding>, t: seq<Finding>, first: seq<Finding>, claim: Claim, p: string, a: Finding)
    requires AllBuilt(s + t) && AllBuilt(first + t) && Asked(s, claim, p)
    requires OnlyOutput(s, first, claim, p, a) && Part(first, claim, Stays(s, claim, p)) == [a]
    requires IsMerge(a, Part(s, claim, "") + Part(s, claim, p))
    ensures PartsAgree(Joint(s, t, claim, Stays(s, claim, p)), Joint(first, t, claim, Stays(s, claim, p))) <==>
      AddsNothing(Part(s, claim, Gone(s, claim, p)), Joint(s, t, claim, Stays(s, claim, p)))
  {
    hide AllBuilt, Part, IsMerge, SameButAdviceOrder, ClaimOf, AddsNothing, Asked, PartsAgree, OneClaim, OneQuestion,
      AnyConfirmed;
    var gone, stays := Gone(s, claim, p), Stays(s, claim, p);
    var x, y, later, g := Part(s, claim, gone), Part(s, claim, stays), Part(t, claim, stays),
      Part(s, claim, "") + Part(s, claim, p);
    assert p != "" by { QuestionsAreNamed(s, claim, p); }
    PartAsked(s, claim, p);
    NonEmptyWhenConfirmed(Part(s, claim, ""));
    assert multiset(g) == multiset(x + y);
    ClaimParts(s, t, claim, gone, stays);
    JointMembers(first, t, claim, stays);
    OneVoiceAsks([a] + later, stays);
    JointMembers(s, t, claim, stays);
    JointMembers(s, t, claim, p);
    SilentAndAsking(s, t, claim, p);
    AgreeAbsorbed(x, y, later, g, a, stays);
  }

  lemma NonEmptyWhenConfirmed(g: seq<Finding>)
    ensures AnyConfirmed(g) ==> g != []
  {
  }

  lemma QuestionsAreNamed(s: seq<Finding>, claim: Claim, p: string)
    requires Asked(s, claim, p)
    ensures p != ""
  {
  }

  /** Askers are never confirmed, so what a confirmed silent finding displaces is not. */
  lemma SilentAndAsking(s: seq<Finding>, t: seq<Finding>, claim: Claim, p: string)
    requires AllBuilt(s + t) && p != ""
    ensures !AnyConfirmed(Part(s, claim, p))
  {
    hide Part, ClaimOf, Finding.Built;
    PartMembers(s, claim, p);
    forall x | x in Part(s, claim, p) ensures x.kind != Confirmed {
      assert x in s + t;
      AskersAreHypotheses(x);
    }
  }

  lemma ClaimParts(s: seq<Finding>, t: seq<Finding>, claim: Claim, gone: string, stays: string)
    requires AllBuilt(s + t) && (gone == "" || stays == "")
    ensures var whole := Part(s, claim, gone) + Joint(s, t, claim, stays);
      AllBuilt(whole) && OneClaim(whole) && OneQuestion(whole)
  {
    hide Part, ClaimOf, Finding.Built;
    var whole := Part(s, claim, gone) + Joint(s, t, claim, stays);
    PartMembers(s, claim, gone);
    PartMembers(s, claim, stays);
    PartMembers(t, claim, stays);
    forall x | x in whole
      ensures x in s + t && ClaimOf(x) == claim && (x.discriminator == gone || x.discriminator == stays)
    {
    }
  }

  /** A fused claim comes out the same if and only if it is restored. */
  lemma FusedAgrees(
    s: seq<Finding>, t: seq<Finding>, first: seq<Finding>, second: seq<Finding>, all: seq<Finding>, claim: Claim,
    p: string)
    requires AllBuilt(s + t) && Fused(s, t, claim) && Asked(s, claim, p)
    requires IsConverged(s, first) && IsConverged(first + t, second) && IsConverged(s + t, all)
    ensures AgreeOn(all, second, claim) <==> Restored(s, t, claim, p)
  {
    hide AllBuilt, CoversGroups, ClaimOf, Part, SameButAdviceOrder, IsMerge, StrictlySorted, AddsNothing, PartsAgree,
      AgreeOn, Joint, Asked, Fused;
    BatchesBuilt(s, t, first);
    var a, asked := FusedFirst(s, t, first, claim);
    FusedAsksOnce(s, t, claim, p, asked);
    QuestionsAreNamed(s, claim, p);
    var gone, stays := Gone(s, claim, p), Stays(s, claim, p);
    if Part(t, claim, gone) == [] {
      LostForGood(s, t, first, all, second, claim, p, a);
    } else {
      StillDivided(s, t, first, claim, p, a);
      FusedIsDivided(s, t, claim);
      DividedAgree(s, t, first, all, second, claim);
      FirstPart(s, first, claim, a, gone);
      FirstPart(s, first, claim, a, stays);
      PartAsked(s, claim, p);
      GoneExactly(s, t, first, claim, gone);
      StaysExactly(s, t, first, claim, p, a);
      forall q | q != gone && q != stays ensures PartsAgree(Joint(s, t, claim, q), Joint(first, t, claim, q)) {
        FirstPart(s, first, claim, a, q);
        OtherQuestionsAgree(s, t, first, claim, p, q);
      }
    }
  }

  lemma FusedIsDivided(s: seq<Finding>, t: seq<Finding>, claim: Claim)
    requires Fused(s, t, claim)
    ensures Undivided(s, claim) && !Undivided(s + t, claim) && Part(s, claim, "") != []
  {
    PartAsked(s, claim, "");
  }

  lemma FusedAsksOnce(s: seq<Finding>, t: seq<Finding>, claim: Claim, p: string, q: string)
    requires Fused(s, t, claim) && Asked(s, claim, p) && Asked(s, claim, q)
    ensures p == q
  {
  }

  ghost predicate Harmless(s: seq<Finding>, t: seq<Finding>, claim: Claim) {
    exists p :: Asked(s, claim, p) && Restored(s, t, claim, p)
  }

  /** Converging an earlier batch first gives the same list, up to the order of each finding's
  recommendations, if and only if every claim it fuses is restored. */
  lemma BatchesAgreeExactly(
    s: seq<Finding>, t: seq<Finding>, first: seq<Finding>, second: seq<Finding>, all: seq<Finding>)
    requires AllBuilt(s + t)
    requires IsConverged(s, first) && IsConverged(first + t, second) && IsConverged(s + t, all)
    ensures Aligned(all, second) <==> forall claim :: Fused(s, t, claim) ==> Harmless(s, t, claim)
  {
    hide AllBuilt, CoversGroups, StrictlySorted, AgreeOn, Agree, Aligned, Restored, Asked, Fused;
    AgreeIsAligned(all, second);
    AgreeByClaim(all, second);
    BatchesBuilt(s, t, first);
    forall claim ensures AgreeOn(all, second, claim) <==> (Fused(s, t, claim) ==> Harmless(s, t, claim)) {
      if Fused(s, t, claim) {
        var a, p := FusedFirst(s, t, first, claim);
        FusedAgrees(s, t, first, second, all, claim, p);
        forall q | Asked(s, claim, q) ensures q == p {
          FusedAsksOnce(s, t, claim, p, q);
        }
      } else {
        UnfusedAgrees(s, t, first, second, all, claim);
      }
    }
  }

  /** When the later batch repeats no discriminator of the earlier one on a claim, the
  results agree if and only if nothing is fused. */
  lemma UnrepeatedAgreeExactly(
    s: seq<Finding>, t: seq<Finding>, first: seq<Finding>, second: seq<Finding>, all: seq<Finding>)
    requires AllBuilt(s + t)
    requires IsConverged(s, first) && IsConverged(first + t, second) && IsConverged(s + t, all)
    requires forall f, g :: f in s && g in t && ClaimOf(f) == ClaimOf(g) ==> f.discriminator != g.discriminator
    ensures Aligned(all, second) <==> NothingFused(s, t)
  {
    hide AllBuilt, CoversGroups, StrictlySorted, AgreeOn, Aligned, Asked, Fused, ClaimOf, AddsNothing, Part,
      IsConverged;
    BatchesAgreeExactly(s, t, first, second, all);
    forall claim | Fused(s, t, claim) ensures !Harmless(s, t, claim) {
      forall p | Asked(s, claim, p) ensures !Restored(s, t, claim, p) {
        Unrestored(s, t, claim, p);
      }
    }
  }

  lemma Unrestored(s: seq<Finding>, t: seq<Finding>, claim: Claim, p: string)
    requires Fused(s, t, claim) && Asked(s, claim, p)
    requires forall f, g :: f in s && g in t && ClaimOf(f) == ClaimOf(g) ==> f.discriminator != g.discriminator
    ensures !Restored(s, t, claim, p)
  {
    hide ClaimOf, Part, AddsNothing, Asked, Undivided;
    var gone := Gone(s, claim, p);
    QuestionsAreNamed(s, claim, p);
    PartAsked(s, claim, gone);
    PartMembers(s, claim, gone);
    PartMembers(t, claim, gone);
  }

  // ---- fusing can be harmless ----

  /** Every finding of x is in y but for its discriminator, and as confirmed. */
  ghost predicate SaidIn(x: seq<Finding>, y: seq<Finding>) {
    forall f :: f in x ==> exists g :: g in y && Says(g, f)
  }

  ghost predicate Says(g: Finding, f: Finding) {
    && g.(kind := f.kind, discriminator := f.discriminator) == f
    && (f.kind == Confirmed ==> g.kind == Confirmed)
  }

  lemma SaidAddsNothing(x: seq<Finding>, y: seq<Finding>)
    requires SaidIn(x, y)
    ensures AddsNothing(x, y)
  {
    forall ref | CitedBy(x, ref) ensures CitedBy(y, ref) {
      var f :| f in x && ref in f.evidenceRefs;
      var g: Finding :| g in y && Says(g, f);
    }
    forall r | Advised(x, r) ensures Advised(y, r) {
      var f :| f in x && r in f.recommendations;
      var g: Finding :| g in y && Says(g, f);
    }
  }

  /** A silent finding, what it says asked as a hypothesis, and the same asked otherwise. */
  ghost predicate OneSaying(f: Finding, g: Finding, h: Finding) {
    && f.Built() && g.Built() && h.Built()
    && f.discriminator == "" && g.discriminator != "" && h.discriminator != "" && g.discriminator != h.discriminator
    && g.(kind := f.kind, discriminator := "") == f
    && g.(discriminator := h.discriminator) == h
  }

  lemma OneSayingMade(f: Finding, g: Finding, h: Finding)
    requires f.Built() && g.Built() && h.Built()
    requires g.discriminator != "" && h.discriminator != "" && g.discriminator != h.discriminator
    requires f == g.(kind := f.kind, discriminator := "") && h == g.(discriminator := h.discriminator)
    ensures OneSaying(f, g, h)
  {
    hide Finding.Built;
  }

  lemma BuiltMember(fs: seq<Finding>, f: Finding)
    requires AllBuilt(fs) && f in fs
    ensures f.Built()
  {
    hide Finding.Built;
  }

  lemma ReaskedIsBuilt(g: Finding, h: Finding)
    requires g.Built() && h.Built() && g.discriminator != "" && h.discriminator != ""
    ensures g.(discriminator := h.discriminator).Built() && g.(discriminator := "").Built()
    ensures g.(kind := Confirmed, discriminator := "").Built()
  {
    hide ValidIdentifier, ValidProse, ValidCode, Ascending;
  }

  lemma OneSayingExists(confirmed: bool) returns (f: Finding, g: Finding, h: Finding)
    ensures OneSaying(f, g, h) && (f.kind == Confirmed <==> confirmed)
  {
    hide *;
    var sure, other;
    sure, g, other := BatchWitness();
    var all := [sure, g, other];
    assert g in all && other in all;
    BuiltMember(all, g);
    BuiltMember(all, other);
    f := g.(kind := if confirmed then Confirmed else g.kind, discriminator := "");
    h := g.(discriminator := other.discriminator);
    ReaskedIsBuilt(g, other);
    AskersAreHypotheses(g);
    OneSayingMade(f, g, h);
  }

  lemma OneSays(f: Finding, g: Finding, h: Finding, x: seq<Finding>, said: Finding, y: seq<Finding>, says: Finding)
    requires OneSaying(f, g, h) && says in y && forall m :: m in x ==> m == said
    requires said in [f, g] && says in [f, g] && (said.kind == Confirmed ==> says.kind == Confirmed)
    ensures AddsNothing(x, y)
  {
    hide Finding.Built, AddsNothing;
    assert Says(says, said);
    SaidAddsNothing(x, y);
  }

  lemma SaidAgain(f: Finding, g: Finding, h: Finding, again: Finding)
    requires OneSaying(f, g, h) && again == if f.kind == Confirmed then g else f
    ensures Restored([f, g], [again, h], ClaimOf(g), g.discriminator)
    ensures AnyConfirmed(Part([f, g], ClaimOf(g), "")) <==> f.kind == Confirmed
  {
    hide Part, AddsNothing, Finding.Built, SaidIn, Says;
    var s, t, claim, p := [f, g], [again, h], ClaimOf(g), g.discriminator;
    assert f in s && g in s && again in t;
    PartMembers(s, claim, "");
    PartMembers(s, claim, p);
    PartMembers(t, claim, again.discriminator);
    if f.kind == Confirmed {
      OneSays(f, g, h, Part(s, claim, p), g, Part(t, claim, p), g);
      OneSays(f, g, h, Part(s, claim, p), g, Joint(s, t, claim, ""), f);
    } else {
      OneSays(f, g, h, Part(s, claim, ""), f, Part(t, claim, ""), f);
      OneSays(f, g, h, Part(s, claim, ""), f, Joint(s, t, claim, p), g);
    }
  }

  lemma FusedFor(f: Finding, g: Finding, h: Finding, again: Finding)
    requires OneSaying(f, g, h)
    ensures Fused([f, g], [again, h], ClaimOf(g))
  {
    hide Finding.Built;
    var s, t, claim := [f, g], [again, h], ClaimOf(g);
    assert f in s && g in s && g in s + t && h in s + t;
    assert Asked(s + t, claim, g.discriminator) && Asked(s + t, claim, h.discriminator);
    UndividedPair(f, g);
  }

  lemma RestoredFor(f: Finding, g: Finding, h: Finding)
    requires OneSaying(f, g, h)
    ensures var s, t, claim := [f, g], [if f.kind == Confirmed then g else f, h], ClaimOf(g);
      && AllBuilt(s + t) && Fused(s, t, claim) && Harmless(s, t, claim)
      && (AnyConfirmed(Part(s, claim, "")) <==> f.kind == Confirmed)
  {
    hide Finding.Built, Part, Restored, Fused;
    var again := if f.kind == Confirmed then g else f;
    FusedFor(f, g, h, again);
    SaidAgain(f, g, h, again);
    assert g in [f, g];
    assert Asked([f, g], ClaimOf(g), g.discriminator);
  }

  /** The later batch says again what the first one fuses away: a silent finding that was not
  confirmed, or the question a confirmed one displaced. Either way nothing is lost. */
  lemma RestoredWitness(confirmed: bool) returns (s: seq<Finding>, t: seq<Finding>, claim: Claim)
    ensures AllBuilt(s + t) && Fused(s, t, claim) && Harmless(s, t, claim)
    ensures AnyConfirmed(Part(s, claim, "")) <==> confirmed
  {
    hide *;
    var f, g, h := OneSayingExists(confirmed);
    s, t, claim := [f, g], [if confirmed then g else f, h], ClaimOf(g);
    RestoredFor(f, g, h);
  }
}
