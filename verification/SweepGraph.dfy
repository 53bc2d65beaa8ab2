/** The nodes and edges a transport sweep leaves in a graph. */
module SweepGraphs {
  import opened Relations
  import opened Graphs
  import opened Identifiers
  import opened Transports

  // ---- growth ----

  /** The builder grew by nodes derived only from the given roots and from each other. */
  ghost predicate Grew(before: Content, after: Content, roots: set<EvidenceID>) {
    && (forall id :: id in before.nodes ==> id in after.nodes && after.nodes[id] == before.nodes[id])
    && (forall id :: id in before.nodes ==> Next(after.parents, id) == Next(before.parents, id))
    && (forall id :: id in before.nodes ==> Next(after.blockedBy, id) == Next(before.blockedBy, id))
    && (forall id, p :: id !in before.nodes && p in Next(after.parents, id) ==>
      p in roots || (p in after.nodes && p !in before.nodes))
  }

  /** Nothing is said in either relation about a node that is not there. */
  ghost predicate Unsaid(c: Content) {
    forall id :: id !in c.nodes ==> Next(c.parents, id) == {} && Next(c.blockedBy, id) == {}
  }

  lemma GrewNothing(c: Content, roots: set<EvidenceID>)
    requires Unsaid(c)
    ensures Grew(c, c, roots)
  {
  }

  lemma StepShows(c: Content, scope: SweepScope, m: Measured, from: EvidenceID)
    ensures var id, after := MeasuredId(scope, m), WithStep(c, scope, m, from);
      && after.nodes == c.nodes[id := MeasuredNode(scope, m)]
      && (forall other :: other != id ==> Next(after.parents, other) == Next(c.parents, other))
      && (forall other :: other != id ==> Next(after.blockedBy, other) == Next(c.blockedBy, other))
      && (forall p :: p in Next(after.parents, id) ==> p == from || p in Next(c.parents, id))
  {
    hide MeasuredId, MeasuredNode;
  }

  /** One more node under a root or under a node that was added. */
  lemma GrewNode(
    before: Content, after: Content, roots: set<EvidenceID>, scope: SweepScope, m: Measured, from: EvidenceID)
    requires Grew(before, after, roots) && MeasuredId(scope, m) !in after.nodes
    requires from in roots || (from in after.nodes && from !in before.nodes)
    ensures Grew(before, WithStep(after, scope, m, from), roots)
  {
    hide MeasuredId, MeasuredNode, WithStep, Next;
    StepShows(after, scope, m, from);
  }

  lemma GrewTwice(a: Content, b: Content, c: Content, roots: set<EvidenceID>, more: set<EvidenceID>)
    requires Grew(a, b, roots) && Grew(b, c, more)
    ensures Grew(a, c, roots + more)
  {
    forall id, p | id !in a.nodes && p in Next(c.parents, id)
      ensures p in roots + more || (p in c.nodes && p !in a.nodes)
    {
      if id in b.nodes {
        assert p in Next(b.parents, id);
      }
    }
  }

  lemma KeptByGrowth(before: Content, after: Content, roots: set<EvidenceID>)
    requires Grew(before, after, roots)
    ensures forall id :: id in before.nodes ==> id in after.nodes && after.nodes[id] == before.nodes[id]
    ensures forall id :: id in before.nodes ==> Next(after.parents, id) == Next(before.parents, id)
    ensures forall id :: id in before.nodes ==> Next(after.blockedBy, id) == Next(before.blockedBy, id)
  {
  }

  // ---- one step ----

  /** Step j is a node of its own, derived from one node, and blocked by it exactly when
  it never ran. */
  ghost predicate RecordedStep(scope: SweepScope, parent: EvidenceID, sweep: seq<Measured>, j: nat, c: Content) {
    && j < |sweep| && MeasuredId(scope, sweep[j]) in c.nodes
    && c.nodes[MeasuredId(scope, sweep[j])] == MeasuredNode(scope, sweep[j])
    && Next(c.parents, MeasuredId(scope, sweep[j])) == {ParentOf(scope, parent, sweep, j)}
    && Next(c.blockedBy, MeasuredId(scope, sweep[j])) ==
      if sweep[j].blocked then {ParentOf(scope, parent, sweep, j)} else {}
  }

  lemma StepRecorded(
    scope: SweepScope, parent: EvidenceID, sweep: seq<Measured>, k: nat, c: Content, m: Measured, from: EvidenceID)
    requires k < |sweep| && m == sweep[k] && from == ParentOf(scope, parent, sweep, k) && from != ""
    requires MeasuredId(scope, m) !in c.nodes && Unsaid(c)
    requires forall j :: 0 <= j < k ==> RecordedStep(scope, parent, sweep, j, c)
    ensures forall j :: 0 <= j < k + 1 ==> RecordedStep(scope, parent, sweep, j, WithStep(c, scope, m, from))
    ensures Unsaid(WithStep(c, scope, m, from))
  {
    hide MeasuredId, MeasuredNode, ParentOf;
    var id, after := MeasuredId(scope, m), WithStep(c, scope, m, from);
    assert Next(after.parents, id) == {} + {from};
    assert m.blocked ==> Next(after.blockedBy, id) == {} + {from};
    forall other | other != id
      ensures Next(after.parents, other) == Next(c.parents, other)
      ensures Next(after.blockedBy, other) == Next(c.blockedBy, other)
    {
    }
    forall j | 0 <= j < k ensures RecordedStep(scope, parent, sweep, j, after) {
      assert RecordedStep(scope, parent, sweep, j, c);
    }
  }

  // ---- the whole sweep ----

  /** The first k steps of the sweep are recorded under the parent. */
  ghost predicate SweptTo(
    c: Content, scope: SweepScope, parent: EvidenceID, sweep: seq<Measured>, k: nat, after: Content)
  {
    && k <= |sweep|
    && Grew(c, after, {parent}) && Unsaid(after)
    && (forall j :: 0 <= j < k ==> MeasuredId(scope, sweep[j]) !in c.nodes)
    && (forall j :: 0 <= j < k ==> RecordedStep(scope, parent, sweep, j, after))
  }

  lemma SweptNext(c: Content, scope: SweepScope, parent: EvidenceID, sweep: seq<Measured>, k: nat, now: Content)
    requires SweptTo(c, scope, parent, sweep, k, now) && k < |sweep| && parent in c.nodes && parent != ""
    requires MeasuredId(scope, sweep[k]) !in now.nodes && MeasuredId(scope, sweep[k]) !in c.nodes
    requires forall j :: 0 <= j < k ==> MeasuredId(scope, sweep[j]) != ""
    ensures SweptTo(
      c, scope, parent, sweep, k + 1, WithStep(now, scope, sweep[k], ParentOf(scope, parent, sweep, k)))
  {
    hide MeasuredId, WithStep, Grew, Unsaid;
    var from := ParentOf(scope, parent, sweep, k);
    if 0 < sweep[k].under <= k {
      assert RecordedStep(scope, parent, sweep, sweep[k].under - 1, now);
    }
    StepRecorded(scope, parent, sweep, k, now, sweep[k], from);
    GrewNode(c, now, {parent}, scope, sweep[k], from);
  }

  lemma SweptStarts(c: Content, scope: SweepScope, parent: EvidenceID, sweep: seq<Measured>)
    requires Unsaid(c)
    ensures SweptTo(c, scope, parent, sweep, 0, Grown(c, scope, parent, sweep[..0]))
  {
    hide MeasuredId, WithStep, Grew, Unsaid, RecordedStep;
    GrewNothing(c, {parent});
  }

  lemma SameParent(
    scope: SweepScope, parent: EvidenceID, before: seq<Measured>, m: Measured, sweep: seq<Measured>, k: nat)
    requires k < |sweep| && before == sweep[..k] && m == sweep[k]
    ensures ParentOf(scope, parent, before + [m], k) == ParentOf(scope, parent, sweep, k)
  {
    hide MeasuredId;
  }

  lemma {:induction false} Swept(c: Content, scope: SweepScope, parent: EvidenceID, sweep: seq<Measured>, k: nat)
    requires ValidSweep(sweep) && scope.Built() && FreshFor(c.nodes, scope, sweep) && k <= |sweep|
    requires Unsaid(c) && parent in c.nodes && parent != ""
    ensures SweptTo(c, scope, parent, sweep, k, Grown(c, scope, parent, sweep[..k]))
  {
    hide MeasuredId, WithStep, Grew, Unsaid, ValidMeasured, RecordedStep, SweptTo, ParentOf, Grown;
    if k == 0 {
      SweptStarts(c, scope, parent, sweep);
    } else {
      Swept(c, scope, parent, sweep, k - 1);
      var before, m := sweep[..k - 1], sweep[k - 1];
      assert sweep[..k] == before + [m] && m in sweep;
      SameParent(scope, parent, before, m, sweep, k - 1);
      GrownBy(c, scope, parent, before, m);
      NotYetRecorded(c, scope, parent, sweep, k - 1);
      SweptNext(c, scope, parent, sweep, k - 1, Grown(c, scope, parent, before));
    }
  }

  lemma NotYetRecorded(c: Content, scope: SweepScope, parent: EvidenceID, sweep: seq<Measured>, k: nat)
    requires ValidSweep(sweep) && scope.Built() && FreshFor(c.nodes, scope, sweep) && k < |sweep|
    ensures MeasuredId(scope, sweep[k]) !in Grown(c, scope, parent, sweep[..k]).nodes
    ensures forall j :: 0 <= j < |sweep| ==> MeasuredId(scope, sweep[j]) != ""
  {
    hide MeasuredId, ValidMeasured, Grown;
    SweepIdsDiffer(scope, sweep);
    GrownNodes(c, scope, parent, sweep[..k]);
    assert sweep[k] in sweep;
    forall j | 0 <= j < |sweep| ensures MeasuredId(scope, sweep[j]) != "" {
      assert sweep[j] in sweep;
      IdIsNotEmpty(scope, sweep[j]);
    }
  }

  lemma LegalSaysNothing(c: Content)
    requires c.Legal()
    ensures EndpointsPresent(c.nodes, c.parents) && Unsaid(c)
  {
    hide Filed, Acyclic;
  }
}
