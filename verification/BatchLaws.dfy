/** Converging in batches: exactly when an earlier batch is harmless, and what is the
same when it is. */
module BatchLaws {
  import opened Text
  import opened Orders
  import opened Evidences
  import opened Findings
  import opened Merging
  import opened Partitioning
  import opened Convergence
  import opened ConvergenceLaws

  // ---- when a batch merges too much ----

  ghost predicate SilentOn(s: seq<Finding>, claim: Claim) {
    exists f :: f in s && ClaimOf(f) == claim && f.discriminator == ""
  }

  ghost predicate Asking(s: seq<Finding>, claim: Claim) {
    exists f :: f in s && ClaimOf(f) == claim && f.discriminator != ""
  }

  /** The first batch answers one question about the claim together with silent findings
  about it, and the second batch asks another. */
  ghost predicate Fused(s: seq<Finding>, t: seq<Finding>, claim: Claim) {
    Undivided(s, claim) && SilentOn(s, claim) && Asking(s, claim) && !Undivided(s + t, claim)
  }

  ghost predicate NothingFused(s: seq<Finding>, t: seq<Finding>) {
    forall claim :: !Fused(s, t, claim)
  }

  ghost predicate SameMatesAfter(s: seq<Finding>, t: seq<Finding>) {
    forall f, g :: f in s && g in s ==> (Mates(s, f, g) <==> Mates(s + t, f, g))
  }

  lemma AskedJoin(s: seq<Finding>, t: seq<Finding>, claim: Claim, q: string)
    ensures Asked(s + t, claim, q) <==> Asked(s, claim, q) || Asked(t, claim, q)
  {
  }

  lemma UndividedPart(s: seq<Finding>, t: seq<Finding>, claim: Claim)
    requires Undivided(s + t, claim)
    ensures Undivided(s, claim)
  {
    forall q ensures Asked(s, claim, q) ==> Asked(s + t, claim, q) {
      AskedJoin(s, t, claim, q);
    }
  }

  /** Converging s first forms the groups that s and t would form together, if and only
  if no claim is fused. */
  lemma HarmlessIffNotFused(s: seq<Finding>, t: seq<Finding>)
    ensures SameMatesAfter(s, t) <==> NothingFused(s, t)
  {
    if claim :| Fused(s, t, claim) {
      var f :| f in s && ClaimOf(f) == claim && f.discriminator == "";
      var g :| g in s && ClaimOf(g) == claim && g.discriminator != "";
      assert Mates(s, f, g) && !Mates(s + t, f, g);
    } else {
      forall f, g | f in s && g in s ensures Mates(s, f, g) <==> Mates(s + t, f, g) {
        MatesUnfused(s, t, f, g);
      }
    }
  }

  lemma MatesUnfused(s: seq<Finding>, t: seq<Finding>, f: Finding, g: Finding)
    requires f in s && g in s && !Fused(s, t, ClaimOf(f))
    ensures Mates(s, f, g) <==> Mates(s + t, f, g)
  {
    hide Undivided;
    var claim := ClaimOf(f);
    if Undivided(s + t, claim) {
      UndividedPart(s, t, claim);
    } else if Undivided(s, claim) && ClaimOf(g) == claim {
      OneVoice(s, claim, f, g);
    }
  }

  /** In an undivided claim that is not both silent and asking, everybody says the same. */
  lemma OneVoice(s: seq<Finding>, claim: Claim, f: Finding, g: Finding)
    requires Undivided(s, claim) && !(SilentOn(s, claim) && Asking(s, claim))
    requires f in s && g in s && ClaimOf(f) == claim && ClaimOf(g) == claim
    ensures f.discriminator == g.discriminator
  {
    if f.discriminator != "" && g.discriminator != "" {
      assert Asked(s, claim, f.discriminator) && Asked(s, claim, g.discriminator);
    }
  }

  // ---- what the first batch keeps when no claim is fused ----

  /** Where all of it together is divided, each output of the first batch keeps the
  discriminator of the findings it was merged from. */
  lemma KeepsDiscriminator(s: seq<Finding>, t: seq<Finding>, f: Finding, a: Finding)
    requires AllBuilt(s) && f in s && MergesGroupOf(s, f, a)
    requires !Fused(s, t, ClaimOf(f)) && !Undivided(s + t, ClaimOf(f))
    ensures a.discriminator == f.discriminator
  {
    hide Undivided, IsGroup, IsMerge, Finding.Built, SilentOn, Asking, Mates;
    if Undivided(s, ClaimOf(f)) {
      var group :| IsGroup(s, f, group) && IsMerge(a, group);
      GroupMembers(s, f, group);
      forall x: Finding | x in group ensures x.discriminator == f.discriminator {
        SameClaim(s, f, x);
        OneVoice(s, ClaimOf(f), f, x);
      }
      UniformMerge(a, group, f.discriminator);
    } else {
      DividedKeepsQuestion(s, f, a);
    }
  }

  lemma SameClaim(s: seq<Finding>, f: Finding, x: Finding)
    requires Mates(s, f, x)
    ensures ClaimOf(x) == ClaimOf(f)
  {
  }

  lemma UniformMerge(a: Finding, group: seq<Finding>, q: string)
    requires IsMerge(a, group) && AllBuilt(group) && forall x :: x in group ==> x.discriminator == q
    ensures a.discriminator == q
  {
    hide ValidIdentifier, ValidProse, ValidCode, Ascending, AdviceUnion, Members, CitesUnion;
    assert forall x :: x in group ==> x.Built();
    assert group[0] in group;
  }

  /** A question an output asks was asked by one of the findings merged into it. */
  lemma OutputAsks(s: seq<Finding>, first: seq<Finding>, claim: Claim, q: string)
    requires AllBuilt(s) && CoversGroups(s, first) && Asked(first, claim, q)
    ensures Asked(s, claim, q)
  {
    hide AllBuilt, CoversGroups, IsGroup, IsMerge, Mates;
    var a :| a in first && ClaimOf(a) == claim && a.discriminator == q;
    var f := SourceOf(s, first, a);
    var group :| IsGroup(s, f, group) && IsMerge(a, group);
    GroupMembers(s, f, group);
    MergeFacts(a, group);
    var x: Finding :| x in group && x.discriminator == q;
  }

  lemma DividedAlike(s: seq<Finding>, t: seq<Finding>, first: seq<Finding>, claim: Claim)
    requires AllBuilt(s) && CoversGroups(s, first) && !Fused(s, t, claim)
    ensures Undivided(first + t, claim) <==> Undivided(s + t, claim)
  {
    hide AllBuilt, CoversGroups, Asked, Fused;
    forall q ensures Asked(first + t, claim, q) ==> Asked(s + t, claim, q) {
      AskedJoin(first, t, claim, q);
      AskedJoin(s, t, claim, q);
      if Asked(first, claim, q) {
        OutputAsks(s, first, claim, q);
      }
    }
    if p, q :| Asked(s + t, claim, p) && Asked(s + t, claim, q) && p != q {
      StillAskedAfter(s, t, first, claim, p);
      StillAskedAfter(s, t, first, claim, q);
    }
  }

  lemma StillAskedAfter(s: seq<Finding>, t: seq<Finding>, first: seq<Finding>, claim: Claim, q: string)
    requires AllBuilt(s) && CoversGroups(s, first) && !Fused(s, t, claim)
    requires Asked(s + t, claim, q) && !Undivided(s + t, claim)
    ensures Asked(first + t, claim, q)
  {
    hide AllBuilt, CoversGroups, MergesGroupOf, Undivided;
    AskedJoin(s, t, claim, q);
    AskedJoin(first, t, claim, q);
    if Asked(s, claim, q) {
      var f :| f in s && ClaimOf(f) == claim && f.discriminator == q;
      var a := OutputOf(s, first, f);
      KeepsDiscriminator(s, t, f, a);
      MergeKeepsClaim(s, f, a);
    }
  }

  // ---- merges exist ----

  lemma {:induction false} MaximaExist(group: seq<Finding>) returns (s: Severity, c: Confidence)
    requires group != []
    ensures SeverityMax(group, s) && ConfidenceMax(group, c)
  {
    var last := group[|group| - 1];
    s, c := last.severity, last.confidence;
    if |group| > 1 {
      var front := group[..|group| - 1];
      assert group == front + [last];
      s, c := MaximaExist(front);
      if s.Rank() < last.severity.Rank() {
        s := last.severity;
      }
      if c.Rank() < last.confidence.Rank() {
        c := last.confidence;
      }
      assert last in group;
    }
  }

  lemma QuestionExists(group: seq<Finding>) returns (q: string)
    requires OneQuestion(group)
    ensures Asks(group, q)
  {
    q := "";
    if f :| f in group && f.discriminator != "" {
      q := f.discriminator;
    }
  }

  lemma MergeExists(group: seq<Finding>) returns (o: Finding)
    requires group != [] && AllBuilt(group) && OneClaim(group) && OneQuestion(group)
    ensures IsMerge(o, group)
  {
    hide Finding.Built, AdviceUnion, Members, OneQuestion, SeverityMax, ConfidenceMax, Asks, InOrder, Ascending;
    var rep := group[0];
    assert rep in group;
    if |group| == 1 {
      o := rep;
    } else {
      var severity, confidence := MaximaExist(group);
      var q := QuestionExists(group);
      var refs := set f, ref | f in group && ref in f.evidenceRefs :: ref;
      InOrderCites(refs);
      var kind := if AnyConfirmed(group) then Confirmed else Hypothesis;
      o := rep.(
        kind := kind, severity := severity, confidence := confidence, vantageDependent := AnyVantageDependent(group),
        discriminator := if kind == Confirmed then "" else q, evidenceRefs := InOrder(refs),
        recommendations := AdviceUnion(Members(group)));
    }
  }

  lemma InOrderCites(refs: set<EvidenceID>)
    ensures Ascending(InOrder(refs)) && forall ref :: ref in InOrder(refs) <==> ref in refs
  {
  }

  // ---- merging a batch first ----

  /** Merging an earlier merge with what came later is merging everything at once. */
  lemma AbsorbBatch(g: seq<Finding>, h: seq<Finding>, a: Finding, o: Finding, p: Finding)
    requires AllBuilt(g + h) && OneClaim(g + h) && OneQuestion(g + h) && h != []
    requires AllBuilt([a] + h) && OneClaim([a] + h) && OneQuestion([a] + h)
    requires IsMerge(a, g) && IsMerge(o, g + h) && IsMerge(p, [a] + h)
    ensures SameButAdviceOrder(o, p)
  {
    hide IsMerge, Finding.Built, OneQuestion, Asks;
    Halves(g, h);
    LaterHalf(g, h);
    var b := MergeExists(h);
    PairMeets(g, h, a, b);
    var ab := MergeExists([a, b]);
    MergingIsAssociative(g, h, a, b, ab, o);
    LoneMerge(a);
    MergingIsAssociative([a], h, a, b, ab, p);
  }

  lemma LaterHalf(g: seq<Finding>, h: seq<Finding>)
    requires OneClaim(g + h) && OneQuestion(g + h)
    ensures OneClaim(h) && OneQuestion(h)
  {
    assert forall x :: x in h ==> x in g + h;
  }

  lemma LoneMerge(a: Finding)
    ensures IsMerge(a, [a])
  {
    hide Reconciles;
  }

  lemma PairMeets(g: seq<Finding>, h: seq<Finding>, a: Finding, b: Finding)
    requires AllBuilt(g + h) && OneClaim(g + h) && OneQuestion(g + h)
    requires IsMerge(a, g) && IsMerge(b, h)
    ensures AllBuilt([a, b]) && OneClaim([a, b]) && OneQuestion([a, b])
  {
    hide IsMerge, Finding.Built, AllBuilt, OneQuestion, Asks;
    Halves(g, h);
    MergeFacts(a, g);
    MergeFacts(b, h);
    PairBuilt(a, b);
    assert g[0] in g && h[0] in h && g[0] in g + h && h[0] in g + h;
    PairAsks(g, h, a, b);
  }

  lemma PairAsks(g: seq<Finding>, h: seq<Finding>, a: Finding, b: Finding)
    requires OneQuestion(g + h)
    requires a.discriminator != "" ==> Asks(g, a.discriminator)
    requires b.discriminator != "" ==> Asks(h, b.discriminator)
    ensures OneQuestion([a, b])
  {
    if a.discriminator != "" && b.discriminator != "" {
      var x: Finding :| x in g && x.discriminator == a.discriminator;
      var y: Finding :| y in h && y.discriminator == b.discriminator;
      assert x in g + h && y in g + h;
    }
  }

  // ---- one finding's home, with and without the first batch ----

  /** The mates of f among some findings, in their order. */
  ghost function MatesIn(some: seq<Finding>, s: seq<Finding>, f: Finding): (r: seq<Finding>)
    ensures forall x :: multiset(r)[x] == if Mates(s, f, x) then multiset(some)[x] else 0
  {
    if some == [] then []
    else
      var front, last := some[..|some| - 1], some[|some| - 1];
      assert some == front + [last];
      if Mates(s, f, last) then MatesIn(front, s, f) + [last] else MatesIn(front, s, f)
  }

  /** Where f is after the first batch: in an output of that batch, or still itself. */
  ghost predicate Represents(s: seq<Finding>, t: seq<Finding>, first: seq<Finding>, f: Finding, r: Finding) {
    (f in s && r in first && MergesGroupOf(s, f, r)) || (f in t && r == f)
  }

  lemma RepresentsClaim(s: seq<Finding>, t: seq<Finding>, first: seq<Finding>, f: Finding, r: Finding)
    requires AllBuilt(s) && !Fused(s, t, ClaimOf(f)) && Represents(s, t, first, f, r)
    ensures ClaimOf(r) == ClaimOf(f)
    ensures !Undivided(s + t, ClaimOf(f)) ==> r.discriminator == f.discriminator
  {
    hide AllBuilt, MergesGroupOf, Undivided;
    if f in s && r in first && MergesGroupOf(s, f, r) {
      MergeKeepsClaim(s, f, r);
      if !Undivided(s + t, ClaimOf(f)) {
        KeepsDiscriminator(s, t, f, r);
      }
    }
  }

  /** Representatives are mates exactly when the findings they stand for are. */
  lemma MatesAlike(
    s: seq<Finding>, t: seq<Finding>, first: seq<Finding>, f: Finding, r: Finding, x: Finding, y: Finding)
    requires AllBuilt(s) && CoversGroups(s, first) && !Fused(s, t, ClaimOf(f))
    requires Represents(s, t, first, f, r) && Represents(s, t, first, x, y)
    ensures Mates(first + t, r, y) <==> Mates(s + t, f, x)
  {
    hide AllBuilt, CoversGroups, Fused, Represents, Undivided, ClaimOf;
    RepresentsClaimOf(s, t, first, x, y);
    RepresentsClaim(s, t, first, f, r);
    if ClaimOf(x) == ClaimOf(f) {
      RepresentsClaim(s, t, first, x, y);
      DividedAlike(s, t, first, ClaimOf(f));
    }
  }

  /** The later findings that join f are the same either way. */
  lemma LaterMates(s: seq<Finding>, t: seq<Finding>, first: seq<Finding>, f: Finding, r: Finding)
    requires AllBuilt(s) && CoversGroups(s, first) && !Fused(s, t, ClaimOf(f)) && Represents(s, t, first, f, r)
    ensures multiset(MatesIn(t, first + t, r)) == multiset(MatesIn(t, s + t, f))
  {
    hide AllBuilt, CoversGroups, Fused, Mates, MergesGroupOf;
    forall x ensures multiset(MatesIn(t, first + t, r))[x] == multiset(MatesIn(t, s + t, f))[x] {
      if x in t {
        MatesAlike(s, t, first, f, r, x, x);
      } else {
        assert x !in multiset(t);
      }
    }
  }

  /** The earlier findings that join f are one group of the first batch, and the one
  output of that batch which joins f's representative is its merge. */
  lemma EarlierMates(
    s: seq<Finding>, t: seq<Finding>, first: seq<Finding>, f: Finding, r: Finding, x: Finding, a: Finding)
    requires AllBuilt(s) && IsConverged(s, first) && !Fused(s, t, ClaimOf(f)) && Represents(s, t, first, f, r)
    requires x in s && Mates(s + t, f, x) && a in first && MergesGroupOf(s, x, a)
    ensures IsGroup(s, x, MatesIn(s, s + t, f))
    ensures multiset(MatesIn(first, first + t, r)) == multiset([a])
  {
    hide AllBuilt, CoversGroups, MergesGroupOf, Undivided, CompareCanonical, TotalPreorder;
    forall y ensures multiset(MatesIn(s, s + t, f))[y] == if Mates(s, x, y) then multiset(s)[y] else 0 {
      if y in s {
        MatesUnfused(s, t, x, y);
      } else {
        assert y !in multiset(s);
      }
    }
    CanonicalOrder();
    StrictIsDistinct(first, CompareCanonical);
    DistinctMultiset(first);
    forall y ensures multiset(MatesIn(first, first + t, r))[y] == multiset([a])[y] {
      if y in first {
        OutputJoins(s, t, first, f, r, x, a, y);
      } else {
        assert y !in multiset(first);
      }
    }
  }

  lemma OutputJoins(
    s: seq<Finding>, t: seq<Finding>, first: seq<Finding>, f: Finding, r: Finding, x: Finding, a: Finding, y: Finding)
    requires AllBuilt(s) && CoversGroups(s, first) && !Fused(s, t, ClaimOf(f)) && Represents(s, t, first, f, r)
    requires x in s && Mates(s + t, f, x) && a in first && MergesGroupOf(s, x, a) && y in first
    ensures Mates(first + t, r, y) <==> y == a
  {
    hide AllBuilt, CoversGroups, MergesGroupOf, Undivided;
    var z := SourceOf(s, first, y);
    MatesAlike(s, t, first, f, r, z, y);
    MatesAlike(s, t, first, f, r, x, a);
    if Mates(first + t, r, y) {
      MatesUnfused(s, t, x, z);
      MatesShareGroup(s, x, z, a);
      GroupMergeDetermined(s, s, z, y, a);
    }
  }

  /** No earlier finding joins f, so no output of the first batch joins it either. */
  lemma NoEarlierMates(s: seq<Finding>, t: seq<Finding>, first: seq<Finding>, f: Finding, r: Finding)
    requires AllBuilt(s) && CoversGroups(s, first) && !Fused(s, t, ClaimOf(f)) && Represents(s, t, first, f, r)
    requires forall x :: x in s ==> !Mates(s + t, f, x)
    ensures MatesIn(s, s + t, f) == [] && MatesIn(first, first + t, r) == []
  {
    hide AllBuilt, CoversGroups, MergesGroupOf, Mates, Fused;
    NobodyIn(s, s + t, f);
    forall y | y in first ensures !Mates(first + t, r, y) {
      var z := SourceOf(s, first, y);
      MatesAlike(s, t, first, f, r, z, y);
    }
    NobodyIn(first, first + t, r);
  }

  lemma {:induction false} NobodyIn(some: seq<Finding>, s: seq<Finding>, f: Finding)
    requires forall x :: x in some ==> !Mates(s, f, x)
    ensures MatesIn(some, s, f) == []
  {
    hide Mates;
    if some != [] {
      assert some[|some| - 1] in some;
      NobodyIn(some[..|some| - 1], s, f);
    }
  }

  /** A group's merge is the merge of any rearrangement of the group. */
  lemma RearrangedMerge(s: seq<Finding>, f: Finding, o: Finding, group: seq<Finding>)
    requires AllBuilt(s) && f in s && MergesGroupOf(s, f, o) && IsGroup(s, f, group)
    ensures AllBuilt(group) && OneClaim(group) && OneQuestion(group) && IsMerge(o, group)
  {
    hide AllBuilt, IsMerge, Mates;
    GroupMembers(s, f, group);
    GroupAsksAlike(s, f, group);
    var m := MergeExists(group);
    assert MergesGroupOf(s, f, m);
    GroupMergeDetermined(s, s, f, o, m);
  }

  lemma GroupAsksAlike(s: seq<Finding>, f: Finding, group: seq<Finding>)
    requires IsGroup(s, f, group)
    ensures OneQuestion(group)
  {
    hide Mates;
    GroupMembers(s, f, group);
    forall x: Finding, y: Finding | x in group && y in group && x.discriminator != "" && y.discriminator != ""
      ensures x.discriminator == y.discriminator
    {
      MatesAskAlike(s, f, x, y);
    }
  }

  lemma JoinedIsGroup(s: seq<Finding>, t: seq<Finding>, f: Finding)
    ensures IsGroup(s + t, f, MatesIn(s, s + t, f) + MatesIn(t, s + t, f))
  {
    hide Mates;
  }

  /** The output an earlier mate of f went into is what joins the later ones. */
  lemma EarlierOutput(s: seq<Finding>, t: seq<Finding>, first: seq<Finding>, f: Finding, r: Finding, x: Finding)
    returns (a: Finding)
    requires AllBuilt(s) && IsConverged(s, first) && !Fused(s, t, ClaimOf(f)) && Represents(s, t, first, f, r)
    requires x in s && Mates(s + t, f, x)
    ensures IsMerge(a, MatesIn(s, s + t, f))
    ensures IsGroup(first + t, r, [a] + MatesIn(t, s + t, f))
  {
    hide AllBuilt, CoversGroups, MergesGroupOf, Mates, StrictlySorted, Represents, Fused, IsMerge, MatesIn;
    a := OutputOf(s, first, x);
    EarlierMates(s, t, first, f, r, x, a);
    LaterMates(s, t, first, f, r);
    JoinedIsGroup(first, t, r);
    RearrangedMerge(s, x, a, MatesIn(s, s + t, f));
  }

  lemma NothingBefore(s: seq<Finding>, t: seq<Finding>, first: seq<Finding>, f: Finding, r: Finding)
    requires AllBuilt(s) && CoversGroups(s, first) && !Fused(s, t, ClaimOf(f)) && Represents(s, t, first, f, r)
    requires forall x :: x in s ==> !Mates(s + t, f, x)
    ensures IsGroup(s + t, f, MatesIn(t, s + t, f)) && IsGroup(first + t, r, MatesIn(t, s + t, f))
  {
    hide AllBuilt, CoversGroups, Mates, Represents, Fused, MatesIn;
    NoEarlierMates(s, t, first, f, r);
    LaterMates(s, t, first, f, r);
    JoinedIsGroup(s, t, f);
    JoinedIsGroup(first, t, r);
  }

  /** One home: what f becomes when everything arrives together, and what it becomes
  when the first batch is converged beforehand, are the same finding. */
  lemma SameHome(
    s: seq<Finding>, t: seq<Finding>, first: seq<Finding>, f: Finding, r: Finding, o: Finding, p: Finding)
    requires AllBuilt(s) && AllBuilt(s + t) && AllBuilt(first + t) && IsConverged(s, first) && !Fused(s, t, ClaimOf(f))
    requires f in s + t && r in first + t && Represents(s, t, first, f, r)
    requires MergesGroupOf(s + t, f, o) && MergesGroupOf(first + t, r, p)
    ensures SameButAdviceOrder(o, p)
  {
    hide AllBuilt, StrictlySorted, CoversGroups, Fused, Represents, MergesGroupOf, SameButAdviceOrder, Mates, IsMerge,
      IsGroup, MatesIn, OneClaim, OneQuestion;
    var gs, gt := MatesIn(s, s + t, f), MatesIn(t, s + t, f);
    if x :| x in s && Mates(s + t, f, x) {
      JoinedIsGroup(s, t, f);
      RearrangedMerge(s + t, f, o, gs + gt);
      var a := EarlierOutput(s, t, first, f, r, x);
      RearrangedMerge(first + t, r, p, [a] + gt);
      if gt == [] {
        assert gs + gt == gs && [a] + gt == [a];
        MergedAlone(gs, a, o, p);
      } else {
        AbsorbBatch(gs, gt, a, o, p);
      }
    } else {
      NothingBefore(s, t, first, f, r);
      RearrangedMerge(s + t, f, o, gt);
      RearrangedMerge(first + t, r, p, gt);
      MergeDetermined(o, gt, p, gt);
      SameIsSame(o);
    }
  }

  lemma SameIsSame(o: Finding)
    ensures SameButAdviceOrder(o, o)
  {
  }

  lemma MergedAlone(g: seq<Finding>, a: Finding, o: Finding, p: Finding)
    requires AllBuilt(g) && OneClaim(g) && IsMerge(a, g) && IsMerge(o, g) && IsMerge(p, [a])
    ensures SameButAdviceOrder(o, p)
  {
    hide Reconciles, AllBuilt, OneClaim;
    MergeDetermined(a, g, o, g);
  }

  // ---- two results ----

  /** Each finding of a is in b, up to the order of its recommendations. */
  ghost predicate Within(a: seq<Finding>, b: seq<Finding>) {
    forall o :: o in a ==> exists p :: p in b && SameButAdviceOrder(o, p)
  }

  ghost predicate Agree(a: seq<Finding>, b: seq<Finding>) {
    Within(a, b) && Within(b, a)
  }

  ghost predicate WithinOn(a: seq<Finding>, b: seq<Finding>, claim: Claim) {
    forall o :: o in a && ClaimOf(o) == claim ==> exists p :: p in b && SameButAdviceOrder(o, p)
  }

  ghost predicate AgreeOn(a: seq<Finding>, b: seq<Finding>, claim: Claim) {
    WithinOn(a, b, claim) && WithinOn(b, a, claim)
  }

  lemma AgreeByClaim(a: seq<Finding>, b: seq<Finding>)
    ensures Agree(a, b) <==> forall claim :: AgreeOn(a, b, claim)
  {
    hide SameButAdviceOrder, ClaimOf;
    if forall claim :: AgreeOn(a, b, claim) {
      forall o | o in a ensures exists p :: p in b && SameButAdviceOrder(o, p) {
        assert AgreeOn(a, b, ClaimOf(o));
      }
      forall o | o in b ensures exists p :: p in a && SameButAdviceOrder(o, p) {
        assert AgreeOn(a, b, ClaimOf(o));
      }
    }
  }

  /** The findings of a, place by place, up to the order of their recommendations. */
  ghost predicate Aligned(a: seq<Finding>, b: seq<Finding>) {
    |a| == |b| && forall i :: 0 <= i < |a| ==> SameButAdviceOrder(a[i], b[i])
  }

  ghost function Unadvised(a: seq<Finding>): (r: seq<Finding>)
    ensures |r| == |a|
    ensures forall i :: 0 <= i < |a| ==> r[i] == a[i].(recommendations := [])
  {
    seq(|a|, i requires 0 <= i < |a| => a[i].(recommendations := []))
  }

  /** The canonical order reads no recommendation. */
  lemma UnadvisedSorted(a: seq<Finding>)
    requires StrictlySorted(a, CompareCanonical)
    ensures StrictlySorted(Unadvised(a), CompareCanonical)
  {
    forall i, j | 0 <= i < j < |a| ensures CompareCanonical(Unadvised(a)[i], Unadvised(a)[j]) < 0 {
      UnadvisedCompares(a[i], a[j]);
    }
  }

  lemma UnadvisedCompares(a: Finding, b: Finding)
    ensures CompareCanonical(a.(recommendations := []), b.(recommendations := [])) == CompareCanonical(a, b)
  {
    hide Compare, NulJoined, CompareIdentity, CompareKey;
  }

  lemma Partner(a: seq<Finding>, b: seq<Finding>, i: nat) returns (j: nat)
    requires i < |a| && Within(a, b)
    ensures j < |b| && SameButAdviceOrder(a[i], b[j]) && Unadvised(a)[i] == Unadvised(b)[j]
  {
    assert a[i] in a;
    var p: Finding :| p in b && SameButAdviceOrder(a[i], p);
    j :| 0 <= j < |b| && b[j] == p;
  }

  lemma UnadvisedWithin(a: seq<Finding>, b: seq<Finding>, x: Finding)
    requires Within(a, b) && x in Unadvised(a)
    ensures x in Unadvised(b)
  {
    var i :| 0 <= i < |a| && Unadvised(a)[i] == x;
    var j := Partner(a, b, i);
    assert Unadvised(b)[j] == x;
  }

  /** Strictly sorted lists that agree have the same findings in the same places. */
  lemma AgreeIsAligned(a: seq<Finding>, b: seq<Finding>)
    requires StrictlySorted(a, CompareCanonical) && StrictlySorted(b, CompareCanonical)
    ensures Agree(a, b) <==> Aligned(a, b)
  {
    hide CompareCanonical, TotalPreorder, StrictlySorted, SameButAdviceOrder;
    if Aligned(a, b) {
      forall i | 0 <= i < |a| ensures SameButAdviceOrder(b[i], a[i]) {
        SameEitherWay(a[i], b[i]);
      }
    }
    if Agree(a, b) {
      CanonicalOrder();
      UnadvisedSorted(a);
      UnadvisedSorted(b);
      forall x ensures x in Unadvised(a) <==> x in Unadvised(b) {
        if x in Unadvised(a) { UnadvisedWithin(a, b, x); }
        if x in Unadvised(b) { UnadvisedWithin(b, a, x); }
      }
      StrictlySortedUnique(Unadvised(a), Unadvised(b), CompareCanonical);
      StrictIsDistinct(Unadvised(b), CompareCanonical);
      forall i | 0 <= i < |a| ensures SameButAdviceOrder(a[i], b[i]) {
        var j := Partner(a, b, i);
        assert Unadvised(b)[j] == Unadvised(b)[i];
      }
    }
  }

  lemma SameEitherWay(o: Finding, p: Finding)
    requires SameButAdviceOrder(o, p)
    ensures SameButAdviceOrder(p, o)
  {
  }

  /** On a claim that is not fused, converging an earlier batch first gives, up to the
  order of recommendations, exactly what everything together gives. */
  lemma UnfusedAgrees(
    s: seq<Finding>, t: seq<Finding>, first: seq<Finding>, second: seq<Finding>, all: seq<Finding>, claim: Claim)
    requires AllBuilt(s + t) && !Fused(s, t, claim)
    requires IsConverged(s, first) && IsConverged(first + t, second) && IsConverged(s + t, all)
    ensures AgreeOn(all, second, claim)
  {
    hide AllBuilt, CoversGroups, Fused, Represents, MergesGroupOf, SameButAdviceOrder, CompareCanonical, ClaimOf;
    BatchesBuilt(s, t, first);
    forall o | o in all && ClaimOf(o) == claim ensures exists p :: p in second && SameButAdviceOrder(o, p) {
      var f := SourceOf(s + t, all, o);
      MergeKeepsClaim(s + t, f, o);
      var r := Representative(s, t, first, f);
      var p := OutputOf(first + t, second, r);
      SameHome(s, t, first, f, r, o, p);
    }
    forall p | p in second && ClaimOf(p) == claim ensures exists o :: o in all && SameButAdviceOrder(p, o) {
      var r := SourceOf(first + t, second, p);
      MergeKeepsClaim(first + t, r, p);
      var f := Represented(s, t, first, r);
      RepresentsClaimOf(s, t, first, f, r);
      var o := OutputOf(s + t, all, f);
      SameHome(s, t, first, f, r, o, p);
      SameEitherWay(o, p);
    }
  }

  lemma RepresentsClaimOf(s: seq<Finding>, t: seq<Finding>, first: seq<Finding>, f: Finding, r: Finding)
    requires Represents(s, t, first, f, r)
    ensures ClaimOf(r) == ClaimOf(f)
  {
    hide MergesGroupOf, ClaimOf;
    if f in s && r in first && MergesGroupOf(s, f, r) {
      MergeKeepsClaim(s, f, r);
    }
  }

  lemma BatchesBuilt(s: seq<Finding>, t: seq<Finding>, first: seq<Finding>)
    requires AllBuilt(s + t) && IsConverged(s, first)
    ensures AllBuilt(s) && AllBuilt(first + t)
  {
    hide Finding.Built, StrictlySorted, CoversGroups;
    assert forall f :: f in s || f in t ==> f in s + t;
    ConvergedIsFixed(s, first);
  }

  lemma Representative(s: seq<Finding>, t: seq<Finding>, first: seq<Finding>, f: Finding) returns (r: Finding)
    requires CoversGroups(s, first) && f in s + t
    ensures r in first + t && Represents(s, t, first, f, r)
  {
    hide CoversGroups, MergesGroupOf;
    if f in s {
      r := OutputOf(s, first, f);
    } else {
      r := f;
    }
  }

  lemma Represented(s: seq<Finding>, t: seq<Finding>, first: seq<Finding>, r: Finding) returns (f: Finding)
    requires CoversGroups(s, first) && r in first + t
    ensures f in s + t && Represents(s, t, first, f, r)
  {
    hide CoversGroups, MergesGroupOf;
    if r in first {
      f := SourceOf(s, first, r);
    } else {
      f := r;
    }
  }

  // ---- the order of recommendations does depend on batching ----

  function Advice(action: string): Recommendation {
    Recommendation(action, NextEvidence, Observe, "", false)
  }

  /** One claim cited at one reference, with one recommendation named after it. */
  function Witness(refs: seq<EvidenceID>, advice: seq<Recommendation>): Finding {
    Finding("K_C", Confirmed, Info, Low, LayerTCP, ZERO_SUBJECT, "s", "", refs, advice, false, "")
  }

  lemma WitnessIsBuilt(refs: seq<EvidenceID>, advice: seq<Recommendation>)
    requires refs != [] && Ascending(refs) && forall ref :: ref in refs ==> ValidIdentifier(ref)
    requires forall r :: r in advice ==> r.Built()
    ensures Witness(refs, advice).Built()
  {
    hide ValidIdentifier, Ascending, Recommendation.Built;
    CodeIsValid();
  }

  lemma CodeIsValid()
    ensures ValidCode("K_C") && ValidIdentifier("s")
  {
    assert "K_C"[1] == '_';
  }

  /** The content order of two witnesses is that of their first references. */
  lemma EarlierReference(a: Finding, b: Finding)
    requires a.evidenceRefs != [] && b.evidenceRefs != [] && a.evidenceRefs[0] != [] && b.evidenceRefs[0] != []
    requires a.evidenceRefs[0][0] < b.evidenceRefs[0][0]
    ensures CompareByContent(a, b) < 0
  {
    assert JoinRefs(a)[0] == a.evidenceRefs[0][0] && JoinRefs(b)[0] == b.evidenceRefs[0][0];
  }

  lemma WitnessMerges(group: seq<Finding>, sorted: seq<Finding>, o: Finding, refs: seq<EvidenceID>)
    requires |group| > 1 && AllBuilt(group) && multiset(group) == multiset(sorted) && Sorted(sorted, CompareByContent)
    requires forall f :: f in group ==> f == Witness(f.evidenceRefs, f.recommendations)
    requires Ascending(refs) && forall ref :: ref in refs <==> Cited(group, ref)
    requires o == Witness(refs, AdviceUnion(sorted))
    ensures IsMerge(o, group) && OneClaim(group)
  {
    hide Finding.Built, Ascending, AdviceUnion, CompareByContent, Members, Sorted, Cited;
    assert group[0] in group;
    SortedMembers(group, sorted);
  }

  lemma UnionNext(fs: seq<Finding>, f: Finding)
    ensures AdviceUnion(fs + [f]) == AddAll(AdviceUnion(fs), f.recommendations)
  {
    assert (fs + [f])[..|fs|] == fs;
  }

  lemma AddNext(acc: seq<Recommendation>, rs: seq<Recommendation>, r: Recommendation)
    ensures AddAll(acc, rs + [r]) == AddOne(AddAll(acc, rs), r)
    ensures AddAll(acc, []) == acc
  {
    assert (rs + [r])[..|rs|] == rs;
  }

  /** The unions of the witnesses: each recommendation where it was first met. */
  lemma UnionsOfWitnesses(
    a: Finding, b: Finding, c: Finding, ab: Finding, x: Recommendation, y: Recommendation, z: Recommendation)
    requires a.recommendations == [x] && b.recommendations == [z] && c.recommendations == [y]
    requires ab.recommendations == [x, z] && x != y && y != z && x != z
    ensures AdviceUnion([a, b]) == [x, z] && AdviceUnion([ab, c]) == [x, z, y] && AdviceUnion([a, c, b]) == [x, y, z]
  {
    hide AdviceUnion, AddAll, AddOne;
    NoUnion();
    AddsNew([], x);
    AddsNew([x], z);
    AddsNew([x], y);
    AddsNew([x, y], z);
    AddsNew([x, z], y);
    AddNext([], [x], z);
    assert [] + [x] == [x] && [x] + [z] == [x, z] && [x, z] + [y] == [x, z, y];
    assert [x] + [y] == [x, y] && [x, y] + [z] == [x, y, z];
    UnionNext([], a);
    UnionNext([a], b);
    UnionNext([a], c);
    UnionNext([a, c], b);
    UnionNext([], ab);
    UnionNext([ab], c);
    assert [] + [a] == [a] && [a] + [b] == [a, b] && [a] + [c] == [a, c] && [a, c] + [b] == [a, c, b];
    assert [] + [ab] == [ab] && [ab] + [c] == [ab, c];
    assert AdviceUnion([a]) == [x];
    assert AdviceUnion([a, b]) == [x, z];
    assert AdviceUnion([a, c]) == [x, y];
    assert AdviceUnion([a, c, b]) == [x, y, z];
    assert AdviceUnion([ab]) == [x, z];
  }

  lemma AddsNew(acc: seq<Recommendation>, r: Recommendation)
    requires r !in acc
    ensures AddAll(acc, [r]) == acc + [r]
    ensures AddOne(acc, r) == acc + [r]
  {
    AddNext(acc, [], r);
    assert [] + [r] == [r];
  }

  lemma NoUnion()
    ensures AdviceUnion([]) == []
  {
  }

  /** Three one-letter texts in order, used as references and as recommendations. */
  ghost predicate Letters(m: string, n: string, z: string) {
    && m != [] && n != [] && z != [] && m != n && n != z && m != z
    && ValidIdentifier(m) && ValidIdentifier(n) && ValidIdentifier(z)
    && Compare(m, n) < 0 && Compare(n, z) < 0 && Compare(m, z) < 0
    && m[0] < n[0] < z[0]
  }

  lemma WitnessOrder(m: string, n: string, z: string, a: Finding, b: Finding, c: Finding, ab: Finding)
    requires Letters(m, n, z)
    requires a.evidenceRefs == [m] && b.evidenceRefs == [z] && c.evidenceRefs == [n] && ab.evidenceRefs == [m, z]
    ensures Sorted([a, b], CompareByContent) && Sorted([ab, c], CompareByContent) && Sorted([a, c, b], CompareByContent)
  {
    hide CompareByContent;
    EarlierReference(a, b);
    EarlierReference(ab, c);
    EarlierReference(a, c);
    EarlierReference(c, b);
  }

  lemma OneRefAscends(ref: EvidenceID)
    ensures Ascending([ref])
  {
  }

  lemma RefsAscend(refs: seq<EvidenceID>, ref: EvidenceID)
    requires Ascending(refs) && forall r :: r in refs ==> Compare(r, ref) < 0
    ensures Ascending(refs + [ref])
  {
  }

  lemma WitnessRefs(m: string, n: string, z: string)
    requires Letters(m, n, z)
    ensures Ascending([m]) && Ascending([n]) && Ascending([z]) && Ascending([m, z]) && Ascending([m, n, z])
  {
    hide Ascending, Compare;
    OneRefAscends(m);
    OneRefAscends(n);
    OneRefAscends(z);
    RefsAscend([m], z);
    RefsAscend([m], n);
    RefsAscend([m, n], z);
    assert [m] + [n] == [m, n] && [m, n] + [z] == [m, n, z] && [m] + [z] == [m, z];
  }

  lemma WitnessCites(m: string, n: string, z: string, a: Finding, b: Finding, c: Finding, ab: Finding)
    requires a.evidenceRefs == [m] && b.evidenceRefs == [z] && c.evidenceRefs == [n] && ab.evidenceRefs == [m, z]
    requires a.Built() && b.Built() && c.Built() && ab.Built()
    ensures AllBuilt([a, b]) && AllBuilt([ab, c]) && AllBuilt([a, b, c])
    ensures forall ref :: ref in [m, z] <==> Cited([a, b], ref)
    ensures forall ref :: ref in [m, n, z] <==> Cited([ab, c], ref)
    ensures forall ref :: ref in [m, n, z] <==> Cited([a, b, c], ref)
  {
    hide Finding.Built;
    assert a in [a, b] && b in [a, b] && ab in [ab, c] && c in [ab, c];
    assert a in [a, b, c] && b in [a, b, c] && c in [a, b, c];
  }

  /** Merging is associative only up to that order: merging two of three findings first
  can list the same recommendations differently. */
  lemma AdviceOrderDependsOnBatching()
    returns (a: Finding, b: Finding, c: Finding, ab: Finding, batched: Finding, all: Finding)
    ensures AllBuilt([a, b, c]) && OneClaim([a, b, c])
    ensures IsMerge(ab, [a, b]) && IsMerge(batched, [ab, c]) && IsMerge(all, [a, b, c])
    ensures batched.recommendations != all.recommendations
  {
    hide *;
    LettersExist("m", "n", "z");
    a, b, c, ab, batched, all := AdviceOrderFor("m", "n", "z");
  }

  lemma LettersExist(m: string, n: string, z: string)
    requires m == "m" && n == "n" && z == "z"
    ensures Letters(m, n, z)
  {
  }

  lemma AdviceOrderFor(m: string, n: string, z: string)
    returns (a: Finding, b: Finding, c: Finding, ab: Finding, batched: Finding, all: Finding)
    requires Letters(m, n, z)
    ensures AllBuilt([a, b, c]) && OneClaim([a, b, c])
    ensures IsMerge(ab, [a, b]) && IsMerge(batched, [ab, c]) && IsMerge(all, [a, b, c])
    ensures batched.recommendations != all.recommendations
  {
    hide Finding.Built, Ascending, AdviceUnion, CompareByContent, Members, Sorted, IsMerge, Cited, AllBuilt, OneClaim,
      ClaimOf, ValidIdentifier, Compare;
    var x, y, w := Advice(m), Advice(n), Advice(z);
    assert x.action != y.action && y.action != w.action && x.action != w.action;
    a, b, c := Witness([m], [x]), Witness([z], [w]), Witness([n], [y]);
    ab := Witness([m, z], [x, w]);
    batched, all := Witness([m, n, z], [x, w, y]), Witness([m, n, z], [x, y, w]);
    WitnessRefs(m, n, z);
    WitnessIsBuilt([m], [x]);
    WitnessIsBuilt([z], [w]);
    WitnessIsBuilt([n], [y]);
    WitnessIsBuilt([m, z], [x, w]);
    UnionsOfWitnesses(a, b, c, ab, x, y, w);
    WitnessOrder(m, n, z, a, b, c, ab);
    WitnessCites(m, n, z, a, b, c, ab);
    assert multiset([a, b, c]) == multiset([a, c, b]);
    WitnessMerges([a, b], [a, b], ab, [m, z]);
    WitnessMerges([ab, c], [ab, c], batched, [m, n, z]);
    WitnessMerges([a, b, c], [a, c, b], all, [m, n, z]);
    assert batched.recommendations[1] == w && all.recommendations[1] == y;
  }
}
