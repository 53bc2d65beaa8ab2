/** What a claim rests on, and the confidence that admits. */
module Bases {
  import opened Orders
  import opened Results
  import opened Evidences
  import opened Graphs
  import opened Findings

  datatype EvidenceBasis = EvidenceBasis(
    supporting: seq<EvidenceID>,
    contradicting: seq<EvidenceID>,
    blocked: seq<EvidenceID>,
    missing: seq<Step>)

  ghost function Cited(ids: seq<string>): set<string> {
    set id | id in ids
  }

  /** Every citation is a node, no node is cited twice over, blocked citations are
  blocked in the graph and no other citation is. */
  ghost predicate Coherent(
    g: Graph, supporting: set<EvidenceID>, contradicting: set<EvidenceID>, blocked: set<EvidenceID>, missing: set<Step>)
  {
    && supporting + contradicting + blocked <= g.nodes.Keys
    && supporting !! contradicting && supporting !! blocked && contradicting !! blocked
    && (forall id :: id in blocked ==> g.BlockedBy(id) != [])
    && (forall id :: id in supporting + contradicting ==> g.BlockedBy(id) == [])
    && (forall step :: step in missing ==> ValidDottedName(step))
  }

  /** What a rule collected, in the order and as often as it did. */
  datatype Citations = Citations(
    supporting: seq<EvidenceID>,
    contradicting: seq<EvidenceID>,
    blocked: seq<EvidenceID>,
    missing: seq<Step>)

  /** What freezing a collection yields. */
  ghost predicate FreezesAs(g: Graph, c: Citations, r: Result<EvidenceBasis>) {
    && (r.Ok? <==> Coherent(g, Cited(c.supporting), Cited(c.contradicting), Cited(c.blocked), Cited(c.missing)))
    && (r.Ok? ==> r.value == EvidenceBasis(
      InOrder(Cited(c.supporting)), InOrder(Cited(c.contradicting)), InOrder(Cited(c.blocked)),
      InOrder(Cited(c.missing))))
  }

  class BasisBuilder {
    var supporting: seq<EvidenceID>
    var contradicting: seq<EvidenceID>
    var blocked: seq<EvidenceID>
    var missing: seq<Step>

    ghost function Collected(): Citations
      reads this
    {
      Citations(supporting, contradicting, blocked, missing)
    }

    constructor ()
      ensures supporting == [] && contradicting == [] && blocked == [] && missing == []
    {
      supporting, contradicting, blocked, missing := [], [], [], [];
    }

    method Support(ids: seq<EvidenceID>)
      modifies this`supporting
      ensures supporting == old(supporting) + ids
    {
      supporting := supporting + ids;
    }

    method Contradict(ids: seq<EvidenceID>)
      modifies this`contradicting
      ensures contradicting == old(contradicting) + ids
    {
      contradicting := contradicting + ids;
    }

    method Block(ids: seq<EvidenceID>)
      modifies this`blocked
      ensures blocked == old(blocked) + ids
    {
      blocked := blocked + ids;
    }

    method Miss(steps: seq<Step>)
      modifies this`missing
      ensures missing == old(missing) + steps
    {
      missing := missing + steps;
    }

    /** Freezing accepts exactly the coherent bases, and forgets the order and the
    repetitions in which a rule collected them. */
    method Freeze(g: Graph) returns (r: Result<EvidenceBasis>)
      ensures FreezesAs(g, Collected(), r)
      ensures r.Ok? <==>
        && (forall id :: id in supporting || id in contradicting ==> id in g.nodes && g.BlockedBy(id) == [])
        && (forall id :: id in blocked ==> id in g.nodes && g.BlockedBy(id) != [])
        && (forall id :: id in supporting ==> id !in contradicting)
        && (forall step :: step in missing ==> ValidDottedName(step))
      ensures r.Ok? ==>
        && (forall id :: id in r.value.supporting <==> id in supporting)
        && (forall id :: id in r.value.contradicting <==> id in contradicting)
        && (forall id :: id in r.value.blocked <==> id in blocked)
        && (forall step :: step in r.value.missing <==> step in missing)
    {
      hide Ascending, ValidDottedName, InOrder;
      CoherentReads(g, Collected());
      var s := NormalizeBasisIDs(g, supporting);
      if s.Err? { return Err(s.error); }
      var c := NormalizeBasisIDs(g, contradicting);
      if c.Err? { return Err(c.error); }
      var b := NormalizeBasisIDs(g, blocked);
      if b.Err? { return Err(b.error); }
      InOrderMembers(Cited(supporting));
      InOrderMembers(Cited(contradicting));
      InOrderMembers(Cited(blocked));
      var apart := Apart(s.value, c.value);
      if !apart { return Err(ErrInvalidValue); }
      apart := Apart(s.value, b.value);
      if !apart { return Err(ErrInvalidValue); }
      apart := Apart(c.value, b.value);
      if !apart { return Err(ErrInvalidValue); }
      var all := AllBlocked(g, b.value, true);
      if !all { return Err(ErrInvalidValue); }
      all := AllBlocked(g, s.value, false);
      if !all { return Err(ErrInvalidValue); }
      all := AllBlocked(g, c.value, false);
      if !all { return Err(ErrInvalidValue); }
      var m := NormalizeMissing(missing);
      if m.Err? { return Err(m.error); }
      InOrderMembers(Cited(missing));
      return Ok(EvidenceBasis(s.value, c.value, b.value, m.value));
    }
  }

  /** A collection is coherent when what supports and what contradicts ran and is told apart,
  what is blocked was blocked, and what is missing names a step. */
  lemma CoherentReads(g: Graph, c: Citations)
    ensures Coherent(g, Cited(c.supporting), Cited(c.contradicting), Cited(c.blocked), Cited(c.missing)) <==>
      && (forall id :: id in c.supporting || id in c.contradicting ==> id in g.nodes && g.BlockedBy(id) == [])
      && (forall id :: id in c.blocked ==> id in g.nodes && g.BlockedBy(id) != [])
      && (forall id :: id in c.supporting ==> id !in c.contradicting)
      && (forall step :: step in c.missing ==> ValidDottedName(step))
  {
    hide ValidDottedName;
    assert forall id :: id in Cited(c.supporting) <==> id in c.supporting;
    assert forall id :: id in Cited(c.contradicting) <==> id in c.contradicting;
    assert forall id :: id in Cited(c.blocked) <==> id in c.blocked;
    assert forall step :: step in Cited(c.missing) <==> step in c.missing;
  }

  lemma InOrderMembers(s: set<string>)
    ensures forall id :: id in InOrder(s) <==> id in s
  {
  }

  method NormalizeBasisIDs(g: Graph, ids: seq<EvidenceID>) returns (r: Result<seq<EvidenceID>>)
    ensures r.Ok? <==> Cited(ids) <= g.nodes.Keys
    ensures r.Ok? ==> r.value == InOrder(Cited(ids))
  {
    hide Ascending, InOrder;
    var out: seq<EvidenceID> := [];
    var i := 0;
    while i < |ids|
      invariant 0 <= i <= |ids|
      invariant Distinct(out) && forall id :: id in out <==> id in ids[..i]
      invariant forall id :: id in ids[..i] ==> id in g.nodes
    {
      assert ids[..i + 1] == ids[..i] + [ids[i]];
      if ids[i] !in g.nodes {
        assert ids[i] in Cited(ids);
        return Err(ErrInvalidValue);
      }
      if ids[i] !in out {
        out := out + [ids[i]];
      }
      i := i + 1;
    }
    assert ids[..|ids|] == ids;
    out := SortDistinct(out);
    InOrderUnique(out, Cited(ids));
    return Ok(out);
  }

  method NormalizeMissing(steps: seq<Step>) returns (r: Result<seq<Step>>)
    ensures r.Ok? <==> forall step :: step in Cited(steps) ==> ValidDottedName(step)
    ensures r.Ok? ==> r.value == InOrder(Cited(steps))
  {
    hide Ascending, ValidDottedName, InOrder;
    var out: seq<Step> := [];
    var i := 0;
    while i < |steps|
      invariant 0 <= i <= |steps|
      invariant Distinct(out) && forall step :: step in out <==> step in steps[..i]
      invariant forall step :: step in steps[..i] ==> ValidDottedName(step)
    {
      assert steps[..i + 1] == steps[..i] + [steps[i]];
      if !ValidDottedName(steps[i]) {
        assert steps[i] in Cited(steps);
        return Err(ErrInvalidValue);
      }
      if steps[i] !in out {
        out := out + [steps[i]];
      }
      i := i + 1;
    }
    assert steps[..|steps|] == steps;
    out := SortDistinct(out);
    InOrderUnique(out, Cited(steps));
    return Ok(out);
  }

  method Apart(left: seq<EvidenceID>, right: seq<EvidenceID>) returns (apart: bool)
    ensures apart <==> forall id :: id in left ==> id !in right
  {
    var i := 0;
    while i < |left|
      invariant 0 <= i <= |left|
      invariant forall k :: 0 <= k < i ==> left[k] !in right
    {
      if left[i] in right {
        return false;
      }
      i := i + 1;
    }
    return true;
  }

  method AllBlocked(g: Graph, ids: seq<EvidenceID>, expected: bool) returns (all: bool)
    ensures all <==> forall id :: id in ids ==> ((g.BlockedBy(id) != []) == expected)
  {
    var i := 0;
    while i < |ids|
      invariant 0 <= i <= |ids|
      invariant forall k :: 0 <= k < i ==> ((g.BlockedBy(ids[k]) != []) == expected)
    {
      if (|g.BlockedBy(ids[i])| > 0) != expected {
        assert ids[i] in ids;
        return false;
      }
      i := i + 1;
    }
    return true;
  }

  // ---- confidence ----

  datatype Authority = AuthorityNone | AuthorityDirect | AuthorityCompleteContrast

  /** HIGH is never a matter of counting: it takes the peer's own statement, or a confirmed
  claim whose every alternative was excluded with nothing left to look at. A contradiction
  leaves LOW. */
  function AdmitConfidence(kind: FindingKind, authority: Authority, basis: EvidenceBasis): (r: Result<Confidence>)
    ensures r.Err? <==>
      || kind == KindUnspecified || basis.supporting == []
      || (authority == AuthorityCompleteContrast && basis.missing != [])
    ensures r == Ok(High) <==>
      && r.Ok? && basis.contradicting == []
      && (authority == AuthorityDirect || (authority == AuthorityCompleteContrast && kind == Confirmed))
    ensures r == Ok(Medium) <==>
      && r.Ok? && basis.contradicting == []
      && (|| (authority == AuthorityCompleteContrast && kind == Hypothesis)
          || (authority == AuthorityNone && |basis.supporting| >= 2))
    ensures r == Ok(Low) <==>
      && r.Ok?
      && (basis.contradicting != [] || (authority == AuthorityNone && |basis.supporting| == 1))
  {
    if kind.KindUnspecified? then Err(ErrInvalidValue)
    else if basis.supporting == [] then Err(ErrInvalidValue)
    else if authority == AuthorityCompleteContrast && basis.missing != [] then Err(ErrInvalidValue)
    else if basis.contradicting != [] then Ok(Low)
    else
      match authority
      case AuthorityDirect => Ok(High)
      case AuthorityCompleteContrast => if kind == Confirmed then Ok(High) else Ok(Medium)
      case AuthorityNone => if |basis.supporting| >= 2 then Ok(Medium) else Ok(Low)
  }

  /** Two rules that collected the same citations, each in its own order and as often as
  it liked, freeze alike, and so are admitted at one confidence. */
  lemma CollectionOrderDoesNotMatter(
    g: Graph, a: Citations, b: Citations, r: Result<EvidenceBasis>, s: Result<EvidenceBasis>)
    requires FreezesAs(g, a, r) && FreezesAs(g, b, s)
    requires forall id :: id in a.supporting <==> id in b.supporting
    requires forall id :: id in a.contradicting <==> id in b.contradicting
    requires forall id :: id in a.blocked <==> id in b.blocked
    requires forall step :: step in a.missing <==> step in b.missing
    ensures r.Ok? <==> s.Ok?
    ensures r.Ok? ==> r.value == s.value && forall kind, authority ::
      AdmitConfidence(kind, authority, r.value) == AdmitConfidence(kind, authority, s.value)
  {
    hide InOrder, Coherent, AdmitConfidence;
    assert Cited(a.supporting) == Cited(b.supporting) && Cited(a.contradicting) == Cited(b.contradicting);
    assert Cited(a.blocked) == Cited(b.blocked) && Cited(a.missing) == Cited(b.missing);
  }

  ghost predicate Includes(a: Citations, b: Citations) {
    && Cited(a.supporting) <= Cited(b.supporting) && Cited(a.contradicting) <= Cited(b.contradicting)
    && Cited(a.blocked) <= Cited(b.blocked) && Cited(a.missing) <= Cited(b.missing)
  }

  lemma InOrderGrows(s: set<string>, t: set<string>)
    requires s <= t
    ensures |InOrder(s)| <= |InOrder(t)|
    ensures InOrder(t) == [] ==> InOrder(s) == []
  {
    hide Ascending;
    InOrderCounts(s);
    InOrderCounts(t);
    assert t == s + (t - s) && |t| == |s| + |t - s|;
  }

  lemma {:induction false} InOrderCounts(s: set<string>)
    ensures |InOrder(s)| == |s|
  {
    AscendingDistinct(InOrder(s));
    DistinctCount(InOrder(s), s);
  }

  lemma {:induction false} DistinctCount(ids: seq<string>, s: set<string>)
    requires Distinct(ids) && forall id :: id in ids <==> id in s
    ensures |ids| == |s|
  {
    if ids == [] {
      assert s == {};
    } else {
      var front, last := ids[..|ids| - 1], ids[|ids| - 1];
      assert ids == front + [last];
      DistinctCount(front, s - {last});
    }
  }

  /** Citing more: what is missing or blocked moves nothing, a contradiction only lowers,
  support beyond two moves nothing, and no number of citations reaches HIGH. */
  lemma MoreCitations(
    g: Graph, a: Citations, b: Citations, r: Result<EvidenceBasis>, s: Result<EvidenceBasis>, kind: FindingKind,
    authority: Authority)
    requires FreezesAs(g, a, r) && FreezesAs(g, b, s) && r.Ok? && s.Ok? && Includes(a, b)
    requires AdmitConfidence(kind, authority, r.value).Ok? && AdmitConfidence(kind, authority, s.value).Ok?
    ensures var less := AdmitConfidence(kind, authority, r.value).value;
      var more := AdmitConfidence(kind, authority, s.value).value;
      && (more == High ==> less == High)
      && (Cited(a.supporting) == Cited(b.supporting) ==> more.Rank() <= less.Rank())
      && (Cited(a.contradicting) == Cited(b.contradicting) && |Cited(a.supporting)| >= 2 ==> more == less)
      && (Cited(a.contradicting) == Cited(b.contradicting) && Cited(a.supporting) == Cited(b.supporting) ==>
        more == less)
  {
    hide InOrder, Coherent;
    InOrderGrows(Cited(a.supporting), Cited(b.supporting));
    InOrderGrows(Cited(a.contradicting), Cited(b.contradicting));
    InOrderCounts(Cited(a.supporting));
  }
}
