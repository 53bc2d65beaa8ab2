/** Converge itself: group by identity, partition, merge, sort. */
module Converging {
  import opened Text
  import opened Orders
  import opened Results
  import opened Findings
  import opened FindingOrders
  import opened Merging
  import opened Partitioning
  import opened Convergence
  import opened ConvergedReadings

  /** Every finding reaching Converge came from NewFinding, or is the zero value. */
  ghost predicate FromConstructors(input: seq<AttributedFinding>) {
    forall k :: 0 <= k < |input| ==> input[k].finding.IsZero() || input[k].finding.Built()
  }

  /** What Converge demands of its callers: real findings, attributed to real rules. */
  ghost predicate WellAttributed(input: seq<AttributedFinding>) {
    forall k :: 0 <= k < |input| ==> !input[k].finding.IsZero() && ValidRuleID(input[k].rule)
  }

  type Groups = map<Identity, seq<AttributedFinding>>

  method GroupByIdentity(input: seq<AttributedFinding>) returns (ok: bool, groups: Groups, order: seq<Identity>)
    ensures ok <==> WellAttributed(input)
    ensures ok ==> Filed(FindingsOf(input), IdentityOf, order, groups)
  {
    hide Filed, ValidRuleID;
    ghost var s := FindingsOf(input);
    groups, order := map[], [];
    FilingStarts(IdentityOf);
    var i := 0;
    while i < |input|
      invariant 0 <= i <= |input|
      invariant forall k :: 0 <= k < i ==> !input[k].finding.IsZero() && ValidRuleID(input[k].rule)
      invariant Filed(s[..i], IdentityOf, order, groups)
    {
      var af := input[i];
      if af.finding.IsZero() {
        return false, groups, order;
      }
      if !ValidRuleID(af.rule) {
        return false, groups, order;
      }
      var id := IdentityOf(af.finding);
      FilingNext(s[..i], IdentityOf, order, groups, af);
      assert s[..i + 1] == s[..i] + [af.finding];
      if id !in groups {
        order := order + [id];
      }
      groups := groups[id := Bucket(groups, id) + [af]];
      i := i + 1;
    }
    assert s[..i] == s;
    return true, groups, order;
  }

  // ---- one part ----

  /** Every part meets the merge preconditions, so mergeGroup cannot refuse it. */
  lemma PartIsLegal(s: seq<Finding>, k: MergeKey, part: seq<AttributedFinding>)
    requires AllBuilt(s) && IsPart(s, k, part)
    ensures part != [] && AllBuilt(FindingsOf(part))
    ensures OneClaim(FindingsOf(part)) && OneQuestion(FindingsOf(part))
    ensures forall i :: 0 <= i < |part| ==>
      part[i].finding.code == part[0].finding.code && part[i].finding.subject == part[0].finding.subject
  {
    hide Finding.Built, IsGroup, Mates;
    var f :| f in s && KeyOf(f) == k && IsGroup(s, f, FindingsOf(part));
    var fs := FindingsOf(part);
    GroupMembers(s, f, fs);
    forall x, y | x in fs && y in fs && x.discriminator != "" && y.discriminator != ""
      ensures x.discriminator == y.discriminator
    {
      MatesAskAlike(s, f, x, y);
    }
    forall i | 0 <= i < |part| ensures ClaimOf(part[i].finding) == ClaimOf(part[0].finding) {
      assert fs[i] in fs && fs[0] in fs;
    }
  }

  lemma PartMergesGroup(s: seq<Finding>, k: MergeKey, part: seq<AttributedFinding>, o: Finding) returns (f: Finding)
    requires IsPart(s, k, part) && IsMerge(o, FindingsOf(part))
    ensures f in s && KeyOf(f) == k && MergesGroupOf(s, f, o)
  {
    hide IsGroup, IsMerge;
    f :| f in s && KeyOf(f) == k && IsGroup(s, f, FindingsOf(part));
  }

  // ---- one identity ----

  ghost predicate MergesParts(s: seq<Finding>, keys: seq<MergeKey>, out: seq<Finding>) {
    |out| <= |keys| && forall i :: 0 <= i < |out| ==> MergesKey(s, keys[i], out[i])
  }

  ghost predicate MergesKey(s: seq<Finding>, k: MergeKey, o: Finding) {
    exists f :: f in s && KeyOf(f) == k && MergesGroupOf(s, f, o)
  }

  lemma PartAt(s: seq<Finding>, keys: seq<MergeKey>, parts: seq<seq<AttributedFinding>>, i: nat)
    requires IsPartition(s, keys, parts) && i < |parts|
    ensures |parts| == |keys| && IsPart(s, keys[i], parts[i])
  {
    hide IsPart, Housed, Apart, CompareKey;
  }

  lemma MergeNextPart(s: seq<Finding>, keys: seq<MergeKey>, out: seq<Finding>, part: seq<AttributedFinding>, o: Finding)
    requires MergesParts(s, keys, out) && |out| < |keys|
    requires IsPart(s, keys[|out|], part) && IsMerge(o, FindingsOf(part))
    ensures MergesParts(s, keys, out + [o])
  {
    hide IsPart, MergesGroupOf, IsMerge;
    var f := PartMergesGroup(s, keys[|out|], part, o);
    assert MergesKey(s, keys[|out|], o);
  }

  method MergeParts(ghost s: seq<Finding>, ghost keys: seq<MergeKey>, parts: seq<seq<AttributedFinding>>)
    returns (out: seq<Finding>)
    requires AllBuilt(s) && IsPartition(s, keys, parts)
    ensures |out| == |parts| == |keys| && MergesParts(s, keys, out)
  {
    hide *;
    out := [];
    SameLength(s, keys, parts);
    var i := 0;
    while i < |parts|
      invariant 0 <= i <= |parts| && |out| == i
      invariant MergesParts(s, keys, out)
    {
      PartAt(s, keys, parts, i);
      PartIsLegal(s, keys[i], parts[i]);
      var merged := MergeGroup(parts[i]);
      MergeNextPart(s, keys, out, parts[i], merged.value);
      out := out + [merged.value];
      i := i + 1;
    }
  }

  lemma SameLength(s: seq<Finding>, keys: seq<MergeKey>, parts: seq<seq<AttributedFinding>>)
    requires IsPartition(s, keys, parts)
    ensures |parts| == |keys| && MergesParts(s, keys, [])
  {
  }

  /** Two outputs of one identity come out in claim order. */
  lemma PartsInOrder(
    s: seq<Finding>, keys: seq<MergeKey>, parts: seq<seq<AttributedFinding>>, i: nat, j: nat, o: Finding,
    p: Finding)
    requires AllBuilt(s) && OneIdentity(s) && IsPartition(s, keys, parts) && i < j < |keys|
    requires MergesKey(s, keys[i], o) && MergesKey(s, keys[j], p)
    ensures CompareClaims(o, p) < 0
  {
    hide IsPart, MergesGroupOf, AllBuilt, CompareKey, CompareIdentity, Housed, Mates, Undivided;
    IdentityOrder();
    var f :| f in s && KeyOf(f) == keys[i] && MergesGroupOf(s, f, o);
    var g :| g in s && KeyOf(g) == keys[j] && MergesGroupOf(s, g, p);
    MergeKeepsClaim(s, f, o);
    MergeKeepsClaim(s, g, p);
    assert IdentityOf(f) == IdentityOf(g);
    assert CompareKey(keys[i], keys[j]) < 0;
    KeyOrder();
    assert keys[i] in keys && keys[j] in keys;
    if keys[i].SameClaimAs(keys[j]) {
      assert Apart(s, keys, f, g);
      ApartDivides(s, f, g);
      DividedKeepsQuestion(s, f, o);
      DividedKeepsQuestion(s, g, p);
      assert KeyOf(o) == keys[i] && KeyOf(p) == keys[j];
    } else {
      ClaimDecides(keys[i], keys[j], o.discriminator, p.discriminator);
    }
  }

  lemma ApartDivides(s: seq<Finding>, f: Finding, g: Finding)
    requires ClaimOf(f) == ClaimOf(g) && !Mates(s, f, g)
    ensures !Undivided(s, ClaimOf(f))
  {
  }

  lemma ClaimDecides(a: MergeKey, b: MergeKey, x: string, y: string)
    requires !a.SameClaimAs(b)
    ensures CompareKey(a.(discriminator := x), b.(discriminator := y)) == CompareKey(a, b)
  {
    hide Compare;
    CompareZero(a.summary, b.summary);
    CompareZero(a.detail, b.detail);
  }

  method MergeIdentity(group: seq<AttributedFinding>) returns (out: seq<Finding>)
    requires group != [] && AllBuilt(FindingsOf(group)) && OneIdentity(FindingsOf(group))
    ensures StrictlySorted(out, CompareClaims) && CoversGroups(FindingsOf(group), out)
    ensures forall o :: o in out ==> IdentityOf(o) == IdentityOf(group[0].finding)
  {
    hide *;
    ghost var s := FindingsOf(group);
    var parts := PartitionByCompatibility(group);
    ghost var keys :| IsPartition(s, keys, parts);
    out := MergeParts(s, keys, parts);
    PartsCover(group, s, keys, parts, out);
  }

  lemma PartsCover(
    group: seq<AttributedFinding>, s: seq<Finding>, keys: seq<MergeKey>, parts: seq<seq<AttributedFinding>>,
    out: seq<Finding>)
    requires group != [] && s == FindingsOf(group)
    requires AllBuilt(s) && OneIdentity(s) && IsPartition(s, keys, parts)
    requires |out| == |keys| && MergesParts(s, keys, out)
    ensures StrictlySorted(out, CompareClaims) && CoversGroups(s, out)
    ensures forall o :: o in out ==> IdentityOf(o) == IdentityOf(group[0].finding)
  {
    hide IsPartition, MergesGroupOf, AllBuilt, CompareClaims, OneIdentity, MergesKey, IdentityOf;
    forall i, j | 0 <= i < j < |out| ensures CompareClaims(out[i], out[j]) < 0 {
      PartsInOrder(s, keys, parts, i, j, out[i], out[j]);
    }
    forall o | o in out ensures IdentityOf(o) == IdentityOf(s[0]) && exists f :: f in s && MergesGroupOf(s, f, o) {
      var i :| 0 <= i < |out| && out[i] == o;
      var f := KeySource(s, keys[i], o);
    }
    forall f | f in s ensures exists o :: o in out && MergesGroupOf(s, f, o) {
      var o := HousedIsMerged(s, keys, parts, out, f);
    }
  }

  lemma KeySource(s: seq<Finding>, k: MergeKey, o: Finding) returns (f: Finding)
    requires OneIdentity(s) && MergesKey(s, k, o)
    ensures f in s && KeyOf(f) == k && MergesGroupOf(s, f, o)
    ensures IdentityOf(o) == IdentityOf(f) == IdentityOf(s[0])
  {
    hide MergesGroupOf;
    f :| f in s && KeyOf(f) == k && MergesGroupOf(s, f, o);
    MergeKeepsClaim(s, f, o);
    assert s[0] in s;
  }

  lemma HousedAt(s: seq<Finding>, keys: seq<MergeKey>, parts: seq<seq<AttributedFinding>>, f: Finding)
    returns (g: Finding, i: nat)
    requires IsPartition(s, keys, parts) && f in s
    ensures i < |keys| && g in s && KeyOf(g) == keys[i] && Mates(s, g, f)
  {
    hide Mates, IsPart, Apart, CompareKey;
    assert Housed(s, keys, f);
    g :| g in s && KeyOf(g) in keys && Mates(s, g, f);
    i :| 0 <= i < |keys| && keys[i] == KeyOf(g);
  }

  lemma HousedIsMerged(
    s: seq<Finding>, keys: seq<MergeKey>, parts: seq<seq<AttributedFinding>>, out: seq<Finding>, f: Finding)
    returns (o: Finding)
    requires AllBuilt(s) && OneIdentity(s) && IsPartition(s, keys, parts) && f in s
    requires |out| == |keys| && MergesParts(s, keys, out)
    ensures o in out && MergesGroupOf(s, f, o)
  {
    hide MergesGroupOf, AllBuilt, IsPartition, Mates, MergesKey, IdentityOf;
    var g, i := HousedAt(s, keys, parts, f);
    o := out[i];
    var h := KeySource(s, keys[i], o);
    assert IdentityOf(h) == IdentityOf(g);
    SameKeyMates(s, h, g, f);
    MatesShareGroup(s, h, f, o);
  }

  lemma SameKeyMates(s: seq<Finding>, h: Finding, g: Finding, f: Finding)
    requires KeyOf(h) == KeyOf(g) && IdentityOf(h) == IdentityOf(g) && Mates(s, g, f)
    ensures Mates(s, h, f)
  {
    hide Undivided;
  }

  // ---- the whole input ----

  /** t holds exactly the findings of s with one identity. */
  ghost predicate IsIdentityOf(s: seq<Finding>, id: Identity, t: seq<Finding>) {
    forall x :: multiset(t)[x] == if IdentityOf(x) == id then multiset(s)[x] else 0
  }

  lemma IdentityMembers(s: seq<Finding>, id: Identity, t: seq<Finding>)
    requires IsIdentityOf(s, id, t)
    ensures forall x :: x in t <==> x in s && IdentityOf(x) == id
  {
    forall x ensures x in t <==> x in s && IdentityOf(x) == id {
      assert x in t <==> x in multiset(t);
      assert x in s <==> x in multiset(s);
    }
  }

  /** Groups are formed inside an identity, so they may be computed there. */
  lemma LiftMerge(s: seq<Finding>, id: Identity, t: seq<Finding>, f: Finding, o: Finding)
    requires IsIdentityOf(s, id, t) && f in t && MergesGroupOf(t, f, o)
    ensures f in s && MergesGroupOf(s, f, o)
  {
    hide IsMerge, Undivided;
    IdentityMembers(s, id, t);
    var group :| IsGroup(t, f, group) && IsMerge(o, group);
    forall x ensures multiset(group)[x] == if Mates(s, f, x) then multiset(s)[x] else 0 {
      LiftMates(s, id, t, f, x);
      if Mates(s, f, x) {
        assert IdentityOf(x) == id;
      }
    }
    assert IsGroup(s, f, group);
  }

  lemma LiftMates(s: seq<Finding>, id: Identity, t: seq<Finding>, f: Finding, x: Finding)
    requires forall y :: y in t <==> y in s && IdentityOf(y) == id
    requires IdentityOf(f) == id
    ensures Mates(s, f, x) <==> Mates(t, f, x)
  {
    forall q ensures Asked(s, ClaimOf(f), q) <==> Asked(t, ClaimOf(f), q) {
      if Asked(s, ClaimOf(f), q) {
        var g :| g in s && ClaimOf(g) == ClaimOf(f) && g.discriminator == q;
        assert IdentityOf(g) == id;
        assert g in t;
      }
    }
  }

  /** The merges of the identities seen so far, in claim order. */
  ghost predicate MergedSoFar(s: seq<Finding>, ids: seq<Identity>, out: seq<Finding>) {
    && StrictlySorted(out, CompareClaims)
    && (forall o :: o in out ==> IdentityOf(o) in ids)
    && OnlyMerges(s, out)
    && (forall f :: f in s && IdentityOf(f) in ids ==> MergedIn(s, out, f))
  }

  ghost predicate MergedIn(s: seq<Finding>, out: seq<Finding>, f: Finding) {
    exists o :: o in out && MergesGroupOf(s, f, o)
  }

  lemma MergeNextIdentity(
    s: seq<Finding>, ids: seq<Identity>, i: nat, out: seq<Finding>, t: seq<Finding>, next: seq<Finding>)
    requires StrictlySorted(ids, CompareIdentity) && i < |ids|
    requires MergedSoFar(s, ids[..i], out) && IsIdentityOf(s, ids[i], t)
    requires StrictlySorted(next, CompareClaims) && CoversGroups(t, next)
    requires forall o :: o in next ==> IdentityOf(o) == ids[i]
    ensures MergedSoFar(s, ids[..i + 1], out + next)
  {
    hide MergesGroupOf, CompareIdentity, IsIdentityOf, CoversGroups, OnlyMerges, MergedIn;
    assert ids[..i + 1] == ids[..i] + [ids[i]];
    ConcatInOrder(ids, i, out, next);
    forall o | o in next ensures exists f :: f in s && MergesGroupOf(s, f, o) {
      var f := SourceOf(t, next, o);
      LiftMerge(s, ids[i], t, f, o);
    }
    OnlyMergesJoin(s, out, next);
    forall f | f in s && IdentityOf(f) in ids[..i + 1] ensures MergedIn(s, out + next, f) {
      if IdentityOf(f) in ids[..i] {
        MergedInMore(s, out, next, f);
      } else {
        IdentityMembers(s, ids[i], t);
        var o := OutputOf(t, next, f);
        LiftMerge(s, ids[i], t, f, o);
        MergedInNow(s, out, next, f, o);
      }
    }
  }

  lemma OnlyMergesJoin(s: seq<Finding>, out: seq<Finding>, next: seq<Finding>)
    requires OnlyMerges(s, out)
    requires forall o :: o in next ==> exists f :: f in s && MergesGroupOf(s, f, o)
    ensures OnlyMerges(s, out + next)
  {
    hide MergesGroupOf;
  }

  lemma MergedInMore(s: seq<Finding>, out: seq<Finding>, next: seq<Finding>, f: Finding)
    requires MergedIn(s, out, f)
    ensures MergedIn(s, out + next, f)
  {
    hide MergesGroupOf;
    var o :| o in out && MergesGroupOf(s, f, o);
    assert o in out + next;
  }

  lemma MergedInNow(s: seq<Finding>, out: seq<Finding>, next: seq<Finding>, f: Finding, o: Finding)
    requires o in next && MergesGroupOf(s, f, o)
    ensures MergedIn(s, out + next, f)
  {
    hide MergesGroupOf;
    assert o in out + next;
  }

  lemma ConcatInOrder(ids: seq<Identity>, i: nat, out: seq<Finding>, next: seq<Finding>)
    requires StrictlySorted(ids, CompareIdentity) && i < |ids|
    requires StrictlySorted(out, CompareClaims) && StrictlySorted(next, CompareClaims)
    requires forall o :: o in out ==> IdentityOf(o) in ids[..i]
    requires forall o :: o in next ==> IdentityOf(o) == ids[i]
    ensures StrictlySorted(out + next, CompareClaims)
  {
    hide CompareIdentity, CompareKey;
    forall a, b | a in out && b in next ensures CompareClaims(a, b) < 0 {
      var k :| 0 <= k < i && ids[k] == IdentityOf(a);
    }
    forall x, y | 0 <= x < y < |out + next| ensures CompareClaims((out + next)[x], (out + next)[y]) < 0 {
      if x < |out| <= y {
        assert out[x] in out && next[y - |out|] in next;
      }
    }
  }

  lemma HeldIdentity(s: seq<Finding>, id: Identity, bucket: seq<AttributedFinding>)
    requires Holds(s, IdentityOf, id, bucket)
    ensures IsIdentityOf(s, id, FindingsOf(bucket))
  {
  }

  lemma GroupOfIdentity(s: seq<Finding>, order: seq<Identity>, groups: Groups, id: Identity)
    requires Filed(s, IdentityOf, order, groups) && id in order
    ensures id in groups && groups[id] != [] && IsIdentityOf(s, id, FindingsOf(groups[id]))
    ensures OneIdentity(FindingsOf(groups[id])) && IdentityOf(groups[id][0].finding) == id
    ensures AllBuilt(s) ==> AllBuilt(FindingsOf(groups[id]))
  {
    hide Finding.Built, IsIdentityOf, Holds;
    var t := FindingsOf(groups[id]);
    assert Holds(s, IdentityOf, id, Bucket(groups, id));
    HeldIdentity(s, id, groups[id]);
    IdentityMembers(s, id, t);
    var f :| f in s && IdentityOf(f) == id;
    assert f in t;
    assert t[0] in t;
  }

  /** All identities merged, and the claim order refined into the report order. */
  lemma AllMergedIsConverged(s: seq<Finding>, ids: seq<Identity>, out: seq<Finding>)
    requires MergedSoFar(s, ids, out) && forall f :: f in s ==> IdentityOf(f) in ids
    ensures IsConverged(s, StableSort(out, CompareReport))
  {
    hide CompareReport, CompareClaims, MergesGroupOf, TotalPreorder, StableSort, OnlyMerges;
    ReportOrder();
    var sorted := StableSort(out, CompareReport);
    StableSortPermutes(out, CompareReport);
    SameElements(sorted, out);
    SortedCanonically(out);
    OnlyMergesSame(s, out, sorted);
    forall f | f in s ensures exists o :: o in sorted && MergesGroupOf(s, f, o) {
      assert MergedIn(s, out, f);
      var o :| o in out && MergesGroupOf(s, f, o);
    }
  }

  lemma SortedCanonically(out: seq<Finding>)
    requires StrictlySorted(out, CompareClaims)
    ensures StrictlySorted(StableSort(out, CompareReport), CompareCanonical)
  {
    hide CompareReport, CompareClaims, TotalPreorder, StableSort;
    ReportOrder();
    StableSortRefines(out, CompareReport, CompareClaims);
    assert forall a, b :: Then(CompareReport, CompareClaims)(a, b) == CompareCanonical(a, b);
  }

  lemma OnlyMergesSame(s: seq<Finding>, out: seq<Finding>, sorted: seq<Finding>)
    requires OnlyMerges(s, out) && forall o :: o in sorted <==> o in out
    ensures OnlyMerges(s, sorted)
  {
    hide MergesGroupOf;
  }

  lemma BuiltFindings(input: seq<AttributedFinding>)
    requires FromConstructors(input) && WellAttributed(input)
    ensures AllBuilt(FindingsOf(input))
  {
    hide Finding.Built, Finding.IsZero, ValidRuleID;
    var fs := FindingsOf(input);
    forall f | f in fs ensures f.Built() {
      var k :| 0 <= k < |fs| && fs[k] == f;
    }
  }

  /** Converge is total: it refuses only a zero finding or an invalid rule identity,
  and on everything else returns what the findings converge to. */
  method Converge(input: seq<AttributedFinding>) returns (r: Result<seq<Finding>>)
    requires FromConstructors(input)
    ensures r.Ok? <==> WellAttributed(input)
    ensures r.Ok? ==> IsConverged(FindingsOf(input), r.value)
    ensures r.Ok? ==> SpeaksForAll(FindingsOf(input), r.value) && SaysOnce(FindingsOf(input), r.value)
    ensures r.Ok? ==> SeverestFirst(r.value) && ReadsInOrder(r.value)
  {
    hide *;
    if |input| == 0 {
      NothingConverges(input);
      BuiltFindings(input);
      ConvergedReads(FindingsOf(input), []);
      return Ok([]);
    }
    ghost var s := FindingsOf(input);
    var ok, groups, order := GroupByIdentity(input);
    if !ok {
      return Err(ErrCannotConverge);
    }
    BuiltFindings(input);
    IdentityOrder();
    FiledIdentities(s, order, groups);
    ghost var listed := order;
    order := SortDistinctFunc(order, CompareIdentity);
    var out: seq<Finding> := [];
    MergingStarts(s);
    var i := 0;
    while i < |order|
      invariant 0 <= i <= |order|
      invariant MergedSoFar(s, order[..i], out)
    {
      assert order[i] in order;
      GroupOfIdentity(s, listed, groups, order[i]);
      var next := MergeIdentity(groups[order[i]]);
      MergeNextIdentity(s, order, i, out, FindingsOf(groups[order[i]]), next);
      out := out + next;
      i := i + 1;
    }
    assert order[..i] == order;
    var findings := new Finding[|out|](k requires 0 <= k < |out| => out[k]);
    assert findings[..] == out;
    SortFindings(findings);
    AllMergedIsConverged(s, order, out);
    ConvergedReads(s, findings[..]);
    return Ok(findings[..]);
  }

  lemma NothingConverges(input: seq<AttributedFinding>)
    requires input == []
    ensures WellAttributed(input) && IsConverged(FindingsOf(input), [])
  {
  }

  lemma MergingStarts(s: seq<Finding>)
    ensures MergedSoFar(s, [], [])
  {
  }

  lemma FiledIdentities(s: seq<Finding>, order: seq<Identity>, groups: Groups)
    requires Filed(s, IdentityOf, order, groups)
    ensures Distinct(order) && TiesAreEqual(order, CompareIdentity)
    ensures forall f :: f in s ==> IdentityOf(f) in order
  {
    IdentityOrder();
  }
}
