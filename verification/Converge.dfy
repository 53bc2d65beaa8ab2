/** Convergence: findings that state one claim about one subject become one finding. */
module Convergence {
  import opened Text
  import opened Orders
  import opened Findings
  import opened FindingOrders
  import opened Merging
  import opened Partitioning

  // ---- rule identities ----

  predicate RuleChar(c: char) {
    'a' <= c <= 'z' || '0' <= c <= '9' || c == '-'
  }

  /** Lower-case words of at most 48 characters, separated by single inner hyphens. */
  predicate ValidRulePart(s: string) {
    && 0 < |s| <= 48
    && 'a' <= s[0] <= 'z' && s[|s| - 1] != '-'
    && (forall i :: 0 <= i < |s| ==> RuleChar(s[i]))
    && (forall i :: 0 <= i < |s| - 1 ==> s[i] != '-' || s[i + 1] != '-')
  }

  /** "<owner>/<name>". */
  predicate ValidRuleID(id: RuleID) {
    exists i :: 0 <= i < |id| && id[i] == '/' && ValidRulePart(id[..i]) && ValidRulePart(id[i + 1..])
  }

  /** The grammar of each part: at most 48 characters, segments of small letters and digits
  with a hyphen between one and the next, the first starting with a letter. */
  lemma RulePartReads(s: string, allowed: char -> bool)
    requires forall c :: allowed(c) <==> 'a' <= c <= 'z' || '0' <= c <= '9'
    ensures ValidRulePart(s) <==> exists segments ::
      ReadsAs(s, '-', allowed, segments) && segments[0] != [] && 'a' <= segments[0][0] <= 'z' && |s| <= 48
  {
    hide Separated, AreWords, ReadsAs, ValidRulePart;
    PartIsSeparated(s);
    WordsRead(s, '-', allowed);
    forall segments | ReadsAs(s, '-', allowed, segments)
      ensures segments != [] && segments[0] != [] && s != [] && s[0] == segments[0][0]
    {
      SegmentsTell(s, '-', allowed, segments);
    }
  }

  lemma PartIsSeparated(s: string)
    ensures ValidRulePart(s) <==>
      && Separated(s, '-') && (forall c :: c in s ==> c == '-' || 'a' <= c <= 'z' || '0' <= c <= '9')
      && 'a' <= s[0] <= 'z' && |s| <= 48
  {
    assert forall i :: 0 <= i < |s| ==> s[i] in s;
  }

  /** An owner and a name with one slash between them. */
  lemma RuleIDReads(owner: string, name: string)
    ensures ValidRuleID(owner + "/" + name) && '/' !in owner <==> ValidRulePart(owner) && ValidRulePart(name)
  {
    hide ValidRulePart, ValidRuleID;
    PartHasNoSlash(owner);
    if ValidRulePart(owner) && ValidRulePart(name) {
      PartsMakeID(owner, name);
    }
    if ValidRuleID(owner + "/" + name) && '/' !in owner {
      IDHasParts(owner, name);
    }
  }

  lemma PartsMakeID(owner: string, name: string)
    requires ValidRulePart(owner) && ValidRulePart(name)
    ensures ValidRuleID(owner + "/" + name)
  {
    hide ValidRulePart;
    var id := owner + "/" + name;
    assert id[..|owner|] == owner && id[|owner| + 1..] == name && id[|owner|] == '/';
  }

  lemma IDHasParts(owner: string, name: string)
    requires ValidRuleID(owner + "/" + name) && '/' !in owner
    ensures ValidRulePart(owner) && ValidRulePart(name)
  {
    hide ValidRulePart;
    var id := owner + "/" + name;
    assert id[|owner|] == '/';
    assert forall i :: 0 <= i < |owner| ==> id[i] == owner[i] && owner[i] in owner;
    var i :| 0 <= i < |id| && id[i] == '/' && ValidRulePart(id[..i]) && ValidRulePart(id[i + 1..]);
    if |owner| < i {
      SlashEndsPart(id[..i], |owner|);
    }
    assert i == |owner|;
    assert id[..|owner|] == owner && id[|owner| + 1..] == name;
  }

  lemma SlashEndsPart(s: string, k: nat)
    requires k < |s| && s[k] == '/'
    ensures !ValidRulePart(s)
  {
  }

  lemma PartHasNoSlash(s: string)
    ensures ValidRulePart(s) ==> '/' !in s
  {
  }

  /** o is the merge of f's group in s. */
  ghost predicate MergesGroupOf(s: seq<Finding>, f: Finding, o: Finding) {
    exists group :: IsGroup(s, f, group) && IsMerge(o, group)
  }

  /** The order the merged findings are produced in, before the report order. */
  function CompareClaims(a: Finding, b: Finding): int {
    var identity := CompareIdentity(IdentityOf(a), IdentityOf(b));
    if identity != 0 then identity else CompareKey(KeyOf(a), KeyOf(b))
  }

  lemma ClaimsOrder()
    ensures TotalPreorder(CompareClaims)
  {
    hide CompareIdentity, CompareKey;
    IdentityOrder();
    KeyOrder();
  }

  /** The order of a converged list: the report order, its ties broken by claim. */
  function CompareCanonical(a: Finding, b: Finding): int {
    if CompareReport(a, b) != 0 then CompareReport(a, b) else CompareClaims(a, b)
  }

  lemma CanonicalOrder()
    ensures TotalPreorder(CompareCanonical)
  {
    hide CompareReport, CompareClaims;
    ReportOrder();
    ClaimsOrder();
    forall a, b, c | CompareCanonical(a, b) <= 0 && CompareCanonical(b, c) <= 0 ensures CompareCanonical(a, c) <= 0 {
      LexTransitive(CompareReport, CompareClaims, a, b, c);
    }
  }

  lemma LexTransitive<T(!new)>(first: (T, T) -> int, second: (T, T) -> int, a: T, b: T, c: T)
    requires TotalPreorder(first) && TotalPreorder(second)
    requires Then(first, second)(a, b) <= 0 && Then(first, second)(b, c) <= 0
    ensures Then(first, second)(a, c) <= 0
  {
    assert first(a, c) == 0 ==> first(c, a) == 0;
  }

  /** out holds the merge of every group of s, and nothing else. */
  ghost predicate CoversGroups(s: seq<Finding>, out: seq<Finding>) {
    OnlyMerges(s, out) && AllMerged(s, out)
  }

  ghost predicate OnlyMerges(s: seq<Finding>, out: seq<Finding>) {
    forall o :: o in out ==> exists f :: f in s && MergesGroupOf(s, f, o)
  }

  ghost predicate AllMerged(s: seq<Finding>, out: seq<Finding>) {
    forall f :: f in s ==> exists o :: o in out && MergesGroupOf(s, f, o)
  }

  lemma SourceOf(s: seq<Finding>, out: seq<Finding>, o: Finding) returns (f: Finding)
    requires CoversGroups(s, out) && o in out
    ensures f in s && MergesGroupOf(s, f, o)
  {
    hide AllMerged, MergesGroupOf;
    f :| f in s && MergesGroupOf(s, f, o);
  }

  lemma OutputOf(s: seq<Finding>, out: seq<Finding>, f: Finding) returns (o: Finding)
    requires CoversGroups(s, out) && f in s
    ensures o in out && MergesGroupOf(s, f, o)
  {
    hide OnlyMerges, MergesGroupOf;
    o :| o in out && MergesGroupOf(s, f, o);
  }

  /** What s converges to: the merges of its groups, each once, in canonical order. */
  ghost predicate IsConverged(s: seq<Finding>, out: seq<Finding>) {
    StrictlySorted(out, CompareCanonical) && CoversGroups(s, out)
  }

  // ---- groups ----

  lemma GroupMembers(s: seq<Finding>, f: Finding, group: seq<Finding>)
    requires IsGroup(s, f, group)
    ensures forall x :: x in group <==> x in s && Mates(s, f, x)
    ensures AllBuilt(s) ==> AllBuilt(group)
    ensures OneClaim(group)
    ensures f in s ==> group != []
  {
    hide Undivided, Finding.Built;
    forall x ensures x in group <==> x in s && Mates(s, f, x) {
      assert x in group <==> x in multiset(group);
      assert x in s <==> x in multiset(s);
    }
    if f in s {
      assert f in group;
    }
  }

  lemma SameMates(s: seq<Finding>, t: seq<Finding>, f: Finding, x: Finding)
    requires forall y :: y in s <==> y in t
    ensures Mates(s, f, x) <==> Mates(t, f, x)
  {
    forall q ensures Asked(s, ClaimOf(f), q) <==> Asked(t, ClaimOf(f), q) {
    }
  }

  /** Two mates of one finding never ask different questions. */
  lemma MatesAskAlike(s: seq<Finding>, f: Finding, x: Finding, y: Finding)
    requires x in s && y in s && Mates(s, f, x) && Mates(s, f, y)
    requires x.discriminator != "" && y.discriminator != ""
    ensures x.discriminator == y.discriminator
  {
    assert Asked(s, ClaimOf(x), x.discriminator) && Asked(s, ClaimOf(y), y.discriminator);
  }

  /** A group has one merge: neither its order nor the input's order can matter. */
  lemma GroupMergeDetermined(s: seq<Finding>, t: seq<Finding>, f: Finding, a: Finding, b: Finding)
    requires multiset(s) == multiset(t) && AllBuilt(s)
    requires MergesGroupOf(s, f, a) && MergesGroupOf(t, f, b)
    ensures a == b
  {
    hide Mates, Undivided, IsMerge, AllBuilt;
    var g :| IsGroup(s, f, g) && IsMerge(a, g);
    var h :| IsGroup(t, f, h) && IsMerge(b, h);
    SameElements(s, t);
    forall x ensures multiset(g)[x] == multiset(h)[x] {
      SameMates(s, t, f, x);
    }
    assert multiset(g) == multiset(h);
    GroupMembers(s, f, g);
    MergeDetermined(a, g, b, h);
  }

  /** Mates have the same group. */
  lemma MatesShareGroup(s: seq<Finding>, f: Finding, g: Finding, o: Finding)
    requires Mates(s, f, g) && MergesGroupOf(s, f, o)
    ensures MergesGroupOf(s, g, o)
  {
    hide Undivided, IsMerge;
    var group :| IsGroup(s, f, group) && IsMerge(o, group);
    forall x ensures Mates(s, f, x) <==> Mates(s, g, x) {
    }
    assert IsGroup(s, g, group);
  }

  // ---- the result is a function of the findings alone ----

  lemma CoversSame(s: seq<Finding>, t: seq<Finding>, a: seq<Finding>, b: seq<Finding>, o: Finding)
    requires multiset(s) == multiset(t) && AllBuilt(s)
    requires CoversGroups(s, a) && CoversGroups(t, b) && o in a
    ensures o in b
  {
    hide MergesGroupOf, AllBuilt, CoversGroups;
    SameElements(s, t);
    var f := SourceOf(s, a, o);
    var p := OutputOf(t, b, f);
    GroupMergeDetermined(s, t, f, o, p);
  }

  /** Permutation invariance: two inputs with the same findings converge to the same
  sequence, whatever order they arrived in and whatever rules they came from. */
  lemma ConvergenceIsCanonical(s: seq<Finding>, t: seq<Finding>, a: seq<Finding>, b: seq<Finding>)
    requires multiset(s) == multiset(t) && AllBuilt(s)
    requires IsConverged(s, a) && IsConverged(t, b)
    ensures a == b
  {
    hide AllBuilt, CoversGroups, CompareCanonical, TotalPreorder;
    CanonicalOrder();
    assert AllBuilt(t) by { BuiltSame(s, t); }
    forall o ensures o in a <==> o in b {
      if o in a { CoversSame(s, t, a, b, o); }
      if o in b { CoversSame(t, s, b, a, o); }
    }
    StrictlySortedUnique(a, b, CompareCanonical);
  }

  lemma BuiltSame(s: seq<Finding>, t: seq<Finding>)
    requires multiset(s) == multiset(t) && AllBuilt(s)
    ensures AllBuilt(t)
  {
    hide Finding.Built;
    SameElements(s, t);
  }

  // ---- what a merge keeps of the question ----

  /** Where a claim is divided, every group keeps its own question. */
  lemma DividedKeepsQuestion(s: seq<Finding>, f: Finding, o: Finding)
    requires AllBuilt(s) && f in s && MergesGroupOf(s, f, o) && !Undivided(s, ClaimOf(f))
    ensures o.discriminator == f.discriminator
  {
    hide Undivided, IsGroup, ValidIdentifier, ValidProse, ValidCode, Ascending;
    var group :| IsGroup(s, f, group) && IsMerge(o, group);
    GroupMembers(s, f, group);
    assert f in group;
    assert forall x: Finding :: x in group ==> x.discriminator == f.discriminator;
  }

  lemma MergeKeepsClaim(s: seq<Finding>, f: Finding, o: Finding)
    requires MergesGroupOf(s, f, o) && f in s
    ensures ClaimOf(o) == ClaimOf(f)
  {
    hide Undivided, IsGroup;
    var group :| IsGroup(s, f, group) && IsMerge(o, group);
    GroupMembers(s, f, group);
    assert f in group;
  }

  lemma MergeOfGroupIsBuilt(s: seq<Finding>, f: Finding, o: Finding)
    requires AllBuilt(s) && MergesGroupOf(s, f, o)
    ensures o.Built()
  {
    hide Mates, IsGroup, IsMerge, AllBuilt;
    var group :| IsGroup(s, f, group) && IsMerge(o, group);
    GroupMembers(s, f, group);
    MergeIsBuilt(o, group);
  }

  // ---- idempotence ----

  /** No two outputs are mates: what could be merged has been. */
  lemma OutputsAreApart(s: seq<Finding>, out: seq<Finding>, o: Finding, p: Finding)
    requires AllBuilt(s) && CoversGroups(s, out)
    requires o in out && p in out && Mates(out, o, p)
    ensures o == p
  {
    hide MergesGroupOf, AllBuilt, CoversGroups, Undivided;
    var f := SourceOf(s, out, o);
    var g := SourceOf(s, out, p);
    MergeKeepsClaim(s, f, o);
    MergeKeepsClaim(s, g, p);
    if !Undivided(s, ClaimOf(f)) {
      DividedKeepsQuestion(s, f, o);
      DividedKeepsQuestion(s, g, p);
      StaysDivided(s, out, ClaimOf(f));
    }
    MatesShareGroup(s, f, g, o);
    GroupMergeDetermined(s, s, g, o, p);
  }

  /** A claim divided in the input is still divided in the output. */
  lemma StaysDivided(s: seq<Finding>, out: seq<Finding>, claim: Claim)
    requires AllBuilt(s) && CoversGroups(s, out) && !Undivided(s, claim)
    ensures !Undivided(out, claim)
  {
    hide MergesGroupOf, AllBuilt, CoversGroups, Asked;
    var p, q :| Asked(s, claim, p) && Asked(s, claim, q) && p != q;
    StillAsked(s, out, claim, p);
    StillAsked(s, out, claim, q);
  }

  lemma StillAsked(s: seq<Finding>, out: seq<Finding>, claim: Claim, q: string)
    requires AllBuilt(s) && CoversGroups(s, out) && !Undivided(s, claim) && Asked(s, claim, q)
    ensures Asked(out, claim, q)
  {
    hide MergesGroupOf, AllBuilt, Undivided, CoversGroups;
    var f :| f in s && ClaimOf(f) == claim && f.discriminator == q;
    var o := OutputOf(s, out, f);
    DividedKeepsQuestion(s, f, o);
    MergeKeepsClaim(s, f, o);
  }

  /** Idempotence: a converged list converges to itself. */
  lemma ConvergedIsFixed(s: seq<Finding>, out: seq<Finding>)
    requires AllBuilt(s) && IsConverged(s, out)
    ensures AllBuilt(out) && IsConverged(out, out)
  {
    hide CompareCanonical, TotalPreorder, MergesGroupOf, Mates, Finding.Built, AllMerged, OnlyMerges;
    CanonicalOrder();
    forall o | o in out ensures o.Built() && MergesGroupOf(out, o, o) {
      var f := SourceOf(s, out, o);
      MergeOfGroupIsBuilt(s, f, o);
      LoneGroup(s, out, o);
    }
    SelfCovered(out);
  }

  lemma SelfCovered(out: seq<Finding>)
    requires forall o :: o in out ==> MergesGroupOf(out, o, o)
    ensures CoversGroups(out, out)
  {
    hide MergesGroupOf;
  }

  lemma LoneGroup(s: seq<Finding>, out: seq<Finding>, o: Finding)
    requires AllBuilt(s) && CoversGroups(s, out) && o in out
    requires StrictlySorted(out, CompareCanonical)
    ensures MergesGroupOf(out, o, o)
  {
    hide CompareCanonical, TotalPreorder, Mates, CoversGroups, AllBuilt;
    CanonicalOrder();
    StrictIsDistinct(out, CompareCanonical);
    DistinctMultiset(out);
    forall x ensures multiset([o])[x] == if Mates(out, o, x) then multiset(out)[x] else 0 {
      assert x in out <==> x in multiset(out);
      MatesSelf(out, o);
      if x in out && Mates(out, o, x) {
        OutputsAreApart(s, out, o, x);
      }
    }
    assert IsGroup(out, o, [o]) && IsMerge(o, [o]);
  }

  lemma MatesSelf(s: seq<Finding>, f: Finding)
    ensures Mates(s, f, f)
  {
  }

  lemma StrictIsDistinct<T(!new)>(s: seq<T>, cmp: (T, T) -> int)
    requires TotalPreorder(cmp) && StrictlySorted(s, cmp)
    ensures Distinct(s)
  {
    forall i, j | 0 <= i < j < |s| ensures s[i] != s[j] {
      assert cmp(s[i], s[j]) < 0;
    }
  }
}
