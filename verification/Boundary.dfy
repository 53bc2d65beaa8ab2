/** Where observation of a subject stopped succeeding, and the finding that says so. */
module Boundaries {
  import opened Text
  import opened Orders
  import opened Results
  import opened Evidences
  import opened Graphs
  import opened GraphQueries
  import opened Findings
  import opened ConvergenceLaws
  import opened Reports

  datatype Boundary = Boundary(
    subject: Subject,
    lastGood: EvidenceID,
    firstFailure: EvidenceID,
    blocked: seq<EvidenceID>,
    notMeasured: seq<EvidenceID>)

  predicate Broken(e: Evidence) {
    e.state == Fail || e.state == Degraded
  }

  predicate Inconclusive(e: Evidence) {
    e.state == Unknown || e.state == Skipped
  }

  // ---- what a boundary is, read from the graph ----

  /** The least broken node about the subject, in (layer, step, identifier) order. */
  ghost predicate IsFirstFailure(g: Graph, subject: Subject, id: EvidenceID) {
    && id in g.nodes && About(g, g.nodes[id], subject) && Broken(g.nodes[id])
    && forall e :: About(g, e, subject) && Broken(e) ==> CompareByLayer(g.nodes[id], e) <= 0
  }

  ghost predicate WorkedAbove(g: Graph, subject: Subject, layer: Layer, e: Evidence) {
    About(g, e, subject) && e.state == Pass && e.layer.Rank() < layer.Rank()
  }

  /** The greatest PASS about the subject at a strictly lower layer, or nothing when
  there is none. */
  ghost predicate IsLastGood(g: Graph, subject: Subject, layer: Layer, id: EvidenceID) {
    if id == "" then forall e :: !WorkedAbove(g, subject, layer, e)
    else
      && id in g.nodes && WorkedAbove(g, subject, layer, g.nodes[id])
      && forall e :: WorkedAbove(g, subject, layer, e) ==> CompareByLayer(e, g.nodes[id]) <= 0
  }

  ghost predicate IsNotMeasured(g: Graph, subject: Subject, ids: seq<EvidenceID>) {
    && Ascending(ids)
    && forall id :: id in ids <==> id in g.nodes && About(g, g.nodes[id], subject) && Inconclusive(g.nodes[id])
  }

  ghost predicate IsBoundary(g: Graph, b: Boundary) {
    && IsFirstFailure(g, b.subject, b.firstFailure)
    && IsLastGood(g, b.subject, g.nodes[b.firstFailure].layer, b.lastGood)
    && IsNotMeasured(g, b.subject, b.notMeasured)
    && IsBlockedChain(g, b.firstFailure, b.blocked)
  }

  ghost predicate HasBroken(g: Graph, subject: Subject) {
    exists e :: About(g, e, subject) && Broken(e)
  }

  // ---- finding it by walking the chain ----

  /** The forward half of the walk: the first broken node of the chain. */
  method FirstBroken(g: Graph, subject: Subject, chain: seq<Evidence>) returns (at: int)
    requires IsChain(g, subject, chain)
    ensures at == -1 <==> !HasBroken(g, subject)
    ensures at != -1 ==>
      0 <= at < |chain| && IsFirstFailure(g, subject, chain[at].id) && g.nodes[chain[at].id] == chain[at]
  {
    hide CompareByLayer, IsChain, IsFirstFailure;
    ChainMembers(g, subject, chain);
    var i := 0;
    while i < |chain|
      invariant 0 <= i <= |chain|
      invariant forall k :: 0 <= k < i ==> !Broken(chain[k])
    {
      if chain[i].state == Fail || chain[i].state == Degraded {
        FirstInChain(g, subject, chain, i);
        return i;
      }
      i := i + 1;
    }
    NoneInChain(g, subject, chain);
    return -1;
  }

  lemma ChainMembers(g: Graph, subject: Subject, chain: seq<Evidence>)
    requires IsChain(g, subject, chain)
    ensures forall k :: 0 <= k < |chain| ==> About(g, chain[k], subject)
    ensures forall e :: About(g, e, subject) ==> exists k :: 0 <= k < |chain| && chain[k] == e
  {
    hide CompareByLayer;
    assert forall k :: 0 <= k < |chain| ==> chain[k] in chain;
  }

  lemma ChainOrder(g: Graph, subject: Subject, chain: seq<Evidence>, i: nat, j: nat)
    requires IsChain(g, subject, chain) && i <= j < |chain|
    ensures CompareByLayer(chain[i], chain[j]) <= 0
    ensures chain[i].layer.Rank() <= chain[j].layer.Rank()
  {
    LayerOrder();
  }

  lemma FirstInChain(g: Graph, subject: Subject, chain: seq<Evidence>, i: nat)
    requires IsChain(g, subject, chain) && i < |chain| && Broken(chain[i])
    requires forall k :: 0 <= k < i ==> !Broken(chain[k])
    ensures HasBroken(g, subject)
    ensures IsFirstFailure(g, subject, chain[i].id) && g.nodes[chain[i].id] == chain[i]
  {
    hide CompareByLayer, IsChain;
    ChainMembers(g, subject, chain);
    forall e | About(g, e, subject) && Broken(e) ensures CompareByLayer(chain[i], e) <= 0 {
      var k :| 0 <= k < |chain| && chain[k] == e;
      ChainOrder(g, subject, chain, i, k);
    }
  }

  lemma NoneInChain(g: Graph, subject: Subject, chain: seq<Evidence>)
    requires IsChain(g, subject, chain) && forall k :: 0 <= k < |chain| ==> !Broken(chain[k])
    ensures !HasBroken(g, subject)
  {
    hide CompareByLayer, IsChain;
    ChainMembers(g, subject, chain);
  }

  /** The backward half: from the failure towards the start of the chain. */
  method LastGoodBefore(g: Graph, subject: Subject, chain: seq<Evidence>, failure: nat) returns (id: EvidenceID)
    requires Frozen(g) && IsChain(g, subject, chain) && failure < |chain|
    ensures IsLastGood(g, subject, chain[failure].layer, id)
  {
    hide Frozen, CompareByLayer, IsChain, IsLastGood;
    var layer := chain[failure].layer;
    ChainMembers(g, subject, chain);
    var i := failure;
    while i > 0
      invariant 0 <= i <= failure
      invariant forall k :: i <= k < failure ==> !WorkedAbove(g, subject, layer, chain[k])
    {
      i := i - 1;
      if chain[i].state == Pass && chain[i].layer.Rank() < layer.Rank() {
        LastInChain(g, subject, chain, failure, i);
        return chain[i].id;
      }
    }
    NoneWorked(g, subject, chain, failure);
    return "";
  }

  /** Nothing from the failure on is at a strictly lower layer. */
  lemma BelowFailure(g: Graph, subject: Subject, chain: seq<Evidence>, failure: nat, e: Evidence) returns (k: nat)
    requires IsChain(g, subject, chain) && failure < |chain| && WorkedAbove(g, subject, chain[failure].layer, e)
    ensures k < failure && chain[k] == e
  {
    hide CompareByLayer, IsChain;
    ChainMembers(g, subject, chain);
    k :| 0 <= k < |chain| && chain[k] == e;
    if failure <= k {
      ChainOrder(g, subject, chain, failure, k);
    }
  }

  lemma LastInChain(g: Graph, subject: Subject, chain: seq<Evidence>, failure: nat, i: nat)
    requires Frozen(g) && IsChain(g, subject, chain) && i < failure < |chain|
    requires WorkedAbove(g, subject, chain[failure].layer, chain[i])
    requires forall k :: i < k < failure ==> !WorkedAbove(g, subject, chain[failure].layer, chain[k])
    ensures IsLastGood(g, subject, chain[failure].layer, chain[i].id)
  {
    hide Frozen, CompareByLayer, IsChain;
    FiledById(g);
    forall e | WorkedAbove(g, subject, chain[failure].layer, e) ensures CompareByLayer(e, chain[i]) <= 0 {
      var k := BelowFailure(g, subject, chain, failure, e);
      ChainOrder(g, subject, chain, k, i);
    }
  }

  lemma NoneWorked(g: Graph, subject: Subject, chain: seq<Evidence>, failure: nat)
    requires IsChain(g, subject, chain) && failure < |chain|
    requires forall k :: 0 <= k < failure ==> !WorkedAbove(g, subject, chain[failure].layer, chain[k])
    ensures IsLastGood(g, subject, chain[failure].layer, "")
  {
    hide CompareByLayer, IsChain;
    forall e ensures !WorkedAbove(g, subject, chain[failure].layer, e) {
      if WorkedAbove(g, subject, chain[failure].layer, e) {
        var k := BelowFailure(g, subject, chain, failure, e);
      }
    }
  }

  method NotMeasuredIn(g: Graph, subject: Subject, chain: seq<Evidence>) returns (ids: seq<EvidenceID>)
    requires Frozen(g) && IsChain(g, subject, chain)
    ensures IsNotMeasured(g, subject, ids)
  {
    hide Frozen, CompareByLayer, Ascending, IsChain;
    var out: seq<EvidenceID> := [];
    var i := 0;
    while i < |chain|
      invariant 0 <= i <= |chain|
      invariant forall id :: id in out <==> exists k :: 0 <= k < i && chain[k].id == id && Inconclusive(chain[k])
      invariant Distinct(out)
    {
      if chain[i].state == Unknown || chain[i].state == Skipped {
        NewInChain(g, subject, chain, i);
        assert chain[i].id !in out;
        out := out + [chain[i].id];
      }
      i := i + 1;
    }
    ids := SortDistinct(out);
    InChain(g, subject, chain, ids);
  }

  lemma NewInChain(g: Graph, subject: Subject, chain: seq<Evidence>, i: nat)
    requires IsChain(g, subject, chain) && i < |chain|
    ensures forall k :: 0 <= k < i ==> chain[k].id != chain[i].id
  {
    hide CompareByLayer;
    LayerOrder();
    forall k | 0 <= k < i ensures chain[k].id != chain[i].id {
      assert chain[k] in chain && chain[i] in chain;
      assert CompareByLayer(chain[k], chain[i]) < 0;
      assert CompareByLayer(chain[i], chain[k]) > 0;
    }
  }

  lemma InChain(g: Graph, subject: Subject, chain: seq<Evidence>, ids: seq<EvidenceID>)
    requires Frozen(g) && IsChain(g, subject, chain) && Ascending(ids)
    requires forall id :: id in ids <==> exists k :: 0 <= k < |chain| && chain[k].id == id && Inconclusive(chain[k])
    ensures IsNotMeasured(g, subject, ids)
  {
    hide Frozen, CompareByLayer, Ascending, IsChain;
    FiledById(g);
    ChainMembers(g, subject, chain);
  }

  method BoundaryFor(g: Graph, subject: Subject) returns (b: Option<Boundary>)
    requires Frozen(g)
    ensures b.Some? <==> HasBroken(g, subject)
    ensures b.Some? ==> b.value.subject == subject && IsBoundary(g, b.value) && BoundarySays(g, b.value)
    ensures b.Some? <==> exists id :: BrokeAt(g, subject, id)
  {
    hide Frozen, IsChain, HasBroken, BrokeAt, BoundarySays, IsFirstFailure, IsLastGood, IsNotMeasured, IsBlockedChain;
    var nodes := NodesForSubject(g, subject);
    BrokenReads(g, subject);
    if |nodes| == 0 {
      NoneInChain(g, subject, nodes);
      return None;
    }
    var failure := FirstBroken(g, subject, nodes);
    if failure < 0 {
      return None;
    }
    var lastGood := LastGoodBefore(g, subject, nodes, failure);
    var notMeasured := NotMeasuredIn(g, subject, nodes);
    var blocked := BlockedChain(g, nodes[failure].id);
    b := Some(Boundary(subject, lastGood, nodes[failure].id, blocked, notMeasured));
    BoundaryReads(g, b.value);
  }

  lemma BrokenReads(g: Graph, subject: Subject)
    requires Frozen(g)
    ensures HasBroken(g, subject) <==> exists id :: BrokeAt(g, subject, id)
  {
    hide Frozen;
    NodesAbout(g, subject);
    if e :| About(g, e, subject) && Broken(e) {
      assert BrokeAt(g, subject, e.id);
    }
    if id :| BrokeAt(g, subject, id) {
      assert About(g, g.nodes[id], subject) && Broken(g.nodes[id]);
    }
  }

  // ---- what a boundary says ----

  /** The node is about the subject and failed or degraded. */
  ghost predicate BrokeAt(g: Graph, subject: Subject, id: EvidenceID) {
    id in g.nodes && g.nodes[id].subject == subject && (g.nodes[id].state == Fail || g.nodes[id].state == Degraded)
  }

  /** The node is about the subject, passed, and lies at a layer above this one. */
  ghost predicate WorkedAt(g: Graph, subject: Subject, layer: Layer, id: EvidenceID) {
    && id in g.nodes && g.nodes[id].subject == subject && g.nodes[id].state == Pass
    && g.nodes[id].layer != layer && NoDeeper(g.nodes[id].layer, layer)
  }

  /** Nothing about the subject broke before the first failure, nothing that worked above it
  comes after the last good node, and what was not measured is what neither passed nor
  broke. */
  ghost predicate BoundarySays(g: Graph, b: Boundary) {
    && BrokeAt(g, b.subject, b.firstFailure)
    && (forall id :: BrokeAt(g, b.subject, id) && id != b.firstFailure ==>
      MeasuredFirst(g.nodes[b.firstFailure], g.nodes[id]))
    && (b.lastGood != "" ==> WorkedAt(g, b.subject, g.nodes[b.firstFailure].layer, b.lastGood))
    && (forall id :: WorkedAt(g, b.subject, g.nodes[b.firstFailure].layer, id) && id != b.lastGood ==>
      b.lastGood != "" && b.lastGood in g.nodes && MeasuredFirst(g.nodes[id], g.nodes[b.lastGood]))
    && (forall id :: id in b.notMeasured <==>
      && id in g.nodes && g.nodes[id].subject == b.subject
      && (g.nodes[id].state == Unknown || g.nodes[id].state == Skipped))
    && (forall i, j :: 0 <= i < j < |b.notMeasured| ==> TextBefore(b.notMeasured[i], b.notMeasured[j]))
  }

  lemma NodesAbout(g: Graph, subject: Subject)
    requires Frozen(g)
    ensures forall id :: id in g.nodes ==> (About(g, g.nodes[id], subject) <==> g.nodes[id].subject == subject)
    ensures forall id :: id in g.nodes ==> g.nodes[id].id == id && id != ""
  {
    hide Frozen;
    FiledById(g);
  }

  lemma FailureReads(g: Graph, b: Boundary, id: EvidenceID)
    requires Frozen(g) && IsFirstFailure(g, b.subject, b.firstFailure)
    ensures BrokeAt(g, b.subject, b.firstFailure)
    ensures BrokeAt(g, b.subject, id) && id != b.firstFailure ==> MeasuredFirst(g.nodes[b.firstFailure], g.nodes[id])
  {
    hide Frozen, CompareByLayer, MeasuredFirst;
    NodesAbout(g, b.subject);
    if BrokeAt(g, b.subject, id) {
      LayerOrderReads(g.nodes[b.firstFailure], g.nodes[id]);
    }
  }

  lemma LastGoodReads(g: Graph, b: Boundary, layer: Layer, id: EvidenceID)
    requires Frozen(g) && IsLastGood(g, b.subject, layer, b.lastGood)
    ensures b.lastGood != "" ==> WorkedAt(g, b.subject, layer, b.lastGood)
    ensures WorkedAt(g, b.subject, layer, id) && id != b.lastGood ==>
      b.lastGood != "" && b.lastGood in g.nodes && MeasuredFirst(g.nodes[id], g.nodes[b.lastGood])
  {
    hide Frozen, CompareByLayer, MeasuredFirst, NoDeeper, Layer.Rank;
    NodesAbout(g, b.subject);
    if b.lastGood != "" {
      LayersCompare(g.nodes[b.lastGood].layer, layer);
    }
    if WorkedAt(g, b.subject, layer, id) {
      LayersCompare(g.nodes[id].layer, layer);
      assert WorkedAbove(g, b.subject, layer, g.nodes[id]);
      LayerOrderReads(g.nodes[id], g.nodes[b.lastGood]);
    }
  }

  lemma BoundaryReads(g: Graph, b: Boundary)
    requires Frozen(g) && IsBoundary(g, b)
    ensures BoundarySays(g, b)
  {
    hide Frozen, MeasuredFirst, TextBefore, IsFirstFailure, IsLastGood, IsBlockedChain, NoDeeper;
    NodesAbout(g, b.subject);
    FailureIsNode(g, b.subject, b.firstFailure);
    var layer := g.nodes[b.firstFailure].layer;
    forall id
      ensures BrokeAt(g, b.subject, b.firstFailure)
      ensures BrokeAt(g, b.subject, id) && id != b.firstFailure ==> MeasuredFirst(g.nodes[b.firstFailure], g.nodes[id])
      ensures b.lastGood != "" ==> WorkedAt(g, b.subject, layer, b.lastGood)
      ensures WorkedAt(g, b.subject, layer, id) && id != b.lastGood ==>
        b.lastGood != "" && b.lastGood in g.nodes && MeasuredFirst(g.nodes[id], g.nodes[b.lastGood])
    {
      FailureReads(g, b, id);
      LastGoodReads(g, b, layer, id);
    }
    forall i, j | 0 <= i < j < |b.notMeasured| ensures TextBefore(b.notMeasured[i], b.notMeasured[j]) {
      CompareIsTextOrder(b.notMeasured[i], b.notMeasured[j]);
    }
  }

  lemma FailureIsNode(g: Graph, subject: Subject, id: EvidenceID)
    requires IsFirstFailure(g, subject, id)
    ensures id in g.nodes
  {
  }

  /** One boundary per subject that has a broken node, in subject order. */
  ghost predicate AreBoundaries(g: Graph, bs: seq<Boundary>) {
    && (forall i, j :: 0 <= i < j < |bs| ==> CompareSubjects(bs[i].subject, bs[j].subject) < 0)
    && (forall b :: b in bs ==> IsBoundary(g, b))
    && (forall s :: HasBroken(g, s) ==> exists b :: b in bs && b.subject == s)
  }

  ghost predicate Walked(g: Graph, subjects: seq<Subject>, n: nat, bs: seq<Boundary>, at: seq<nat>) {
    && n <= |subjects| && |at| == |bs|
    && (forall i, j :: 0 <= i < j < |at| ==> at[i] < at[j])
    && (forall i :: 0 <= i < |at| ==> at[i] < n && bs[i].subject == subjects[at[i]] && IsBoundary(g, bs[i]))
    && (forall k :: 0 <= k < n && HasBroken(g, subjects[k]) ==> k in at)
  }

  method AllBoundaries(g: Graph) returns (bs: seq<Boundary>)
    requires Frozen(g)
    ensures AreBoundaries(g, bs)
    ensures forall i, j :: 0 <= i < j < |bs| ==> SubjectFirst(bs[i].subject, bs[j].subject)
    ensures forall b :: b in bs ==> BoundarySays(g, b)
    ensures forall s, id :: BrokeAt(g, s, id) ==> exists b :: b in bs && b.subject == s
  {
    hide Frozen, IsBoundary, HasBroken, AreBoundaries, StrictlySorted, CompareSubjects, HasNodes, BoundarySays, BrokeAt,
      SubjectFirst;
    var subjects := Subjects(g);
    bs := [];
    ghost var at: seq<nat> := [];
    var i := 0;
    while i < |subjects|
      invariant 0 <= i <= |subjects|
      invariant Walked(g, subjects, i, bs, at)
    {
      var b := BoundaryFor(g, subjects[i]);
      if b.Some? {
        bs := bs + [b.value];
        assert forall k :: k in at + [i] <==> k in at || k == i;
        at := at + [i];
      }
      i := i + 1;
    }
    WalkedAll(g, subjects, bs, at);
    BoundariesRead(g, bs);
  }

  lemma BoundariesRead(g: Graph, bs: seq<Boundary>)
    requires Frozen(g) && AreBoundaries(g, bs)
    ensures forall i, j :: 0 <= i < j < |bs| ==> SubjectFirst(bs[i].subject, bs[j].subject)
    ensures forall b :: b in bs ==> BoundarySays(g, b)
    ensures forall s, id :: BrokeAt(g, s, id) ==> exists b :: b in bs && b.subject == s
  {
    hide Frozen, IsBoundary, HasBroken, CompareSubjects, BoundarySays, BrokeAt, SubjectFirst;
    forall i, j | 0 <= i < j < |bs| ensures SubjectFirst(bs[i].subject, bs[j].subject) {
      SubjectOrderReads(bs[i].subject, bs[j].subject);
    }
    forall b | b in bs ensures BoundarySays(g, b) {
      BoundaryReads(g, b);
    }
    forall s, id | BrokeAt(g, s, id) ensures exists b :: b in bs && b.subject == s {
      BrokenReads(g, s);
    }
  }

  lemma WalkedAll(g: Graph, subjects: seq<Subject>, bs: seq<Boundary>, at: seq<nat>)
    requires Walked(g, subjects, |subjects|, bs, at) && StrictlySorted(subjects, CompareSubjects)
    requires forall s :: s in subjects <==> HasNodes(g, s)
    ensures AreBoundaries(g, bs)
  {
    hide IsBoundary, CompareSubjects, HasBroken;
    forall s | HasBroken(g, s) ensures exists b :: b in bs && b.subject == s {
      BrokenHasNodes(g, s);
      var k :| 0 <= k < |subjects| && subjects[k] == s;
      var i :| 0 <= i < |at| && at[i] == k;
      assert bs[i] in bs;
    }
  }

  lemma BrokenHasNodes(g: Graph, s: Subject)
    requires HasBroken(g, s)
    ensures HasNodes(g, s)
  {
  }

  // ---- what boundaries guarantee ----

  /** A subject has one boundary: the graph determines every part of it. */
  lemma BoundaryIsUnique(g: Graph, a: Boundary, b: Boundary)
    requires Frozen(g) && IsBoundary(g, a) && IsBoundary(g, b) && a.subject == b.subject
    ensures a == b
  {
    hide Frozen, CompareByLayer, Ascending, BlockedThrough;
    LayerOrder();
    FiledById(g);
    var x, y := g.nodes[a.firstFailure], g.nodes[b.firstFailure];
    assert CompareByLayer(x, y) <= 0 && CompareByLayer(y, x) <= 0;
    assert a.firstFailure == b.firstFailure;
    LastGoodIsUnique(g, a.subject, x.layer, a.lastGood, b.lastGood);
    AscendingUnique(a.notMeasured, b.notMeasured);
    AscendingUnique(a.blocked, b.blocked);
  }

  lemma LastGoodIsUnique(g: Graph, subject: Subject, layer: Layer, a: EvidenceID, b: EvidenceID)
    requires Frozen(g) && IsLastGood(g, subject, layer, a) && IsLastGood(g, subject, layer, b)
    ensures a == b
  {
    hide Frozen, CompareByLayer;
    LayerOrder();
    FiledById(g);
    if a != "" && b != "" {
      assert CompareByLayer(g.nodes[a], g.nodes[b]) <= 0 && CompareByLayer(g.nodes[b], g.nodes[a]) <= 0;
    }
  }

  /** A step that did not run because of another is never where anything broke. */
  lemma BlockedIsNoFailure(g: Graph, b: Boundary, id: EvidenceID)
    requires Frozen(g) && IsBoundary(g, b)
    ensures !BlockedThrough(g, id, b.firstFailure)
    ensures forall x :: x in b.blocked ==> x in g.nodes && g.nodes[x].state == Skipped
  {
    hide Frozen, CompareByLayer, Ascending, BlockedThrough, IsLastGood, IsNotMeasured;
    if BlockedThrough(g, id, b.firstFailure) {
      BlockedNodesAreSkipped(g, id, b.firstFailure);
    }
    forall x | x in b.blocked ensures x in g.nodes && g.nodes[x].state == Skipped {
      BlockedNodesAreSkipped(g, b.firstFailure, x);
    }
  }

  ghost function FailureRank(g: Graph, b: Boundary): int
    requires IsBoundary(g, b)
  {
    g.nodes[b.firstFailure].layer.Rank()
  }

  /** A DEGRADED node lies above every failure. */
  ghost predicate ShallowerDegraded(g: Graph, layer: Layer) {
    exists id :: id in g.nodes && g.nodes[id].state == Degraded && g.nodes[id].layer.Rank() < layer.Rank()
  }

  /** The summary and the boundaries tell one story: something failed at the summary's
  layer, so some boundary is at least as shallow; and the shallowest boundary is
  exactly there if and only if nothing degraded lies above it. */
  lemma SummaryMeetsBoundaries(g: Graph, bs: seq<Boundary>, layer: Layer)
    requires Frozen(g) && AreBoundaries(g, bs) && IsFirstBroken(g, layer) && layer != LayerUnspecified
    ensures exists b :: b in bs && FailureRank(g, b) <= layer.Rank()
    ensures (forall b :: b in bs ==> layer.Rank() <= FailureRank(g, b)) <==> !ShallowerDegraded(g, layer)
  {
    hide Frozen, IsLastGood, IsNotMeasured, IsBlockedChain;
    FiledById(g);
    var id :| id in InState(g, Fail) && g.nodes[id].layer == layer;
    var b0 := BoundaryAbove(g, bs, g.nodes[id]);
    if x :| x in g.nodes && g.nodes[x].state == Degraded && g.nodes[x].layer.Rank() < layer.Rank() {
      var b := BoundaryAbove(g, bs, g.nodes[x]);
    } else {
      forall b | b in bs ensures layer.Rank() <= FailureRank(g, b) {
        var failure := g.nodes[b.firstFailure];
        assert failure.state == Fail ==> b.firstFailure in InState(g, Fail);
      }
    }
  }

  lemma BoundaryAbove(g: Graph, bs: seq<Boundary>, e: Evidence) returns (b: Boundary)
    requires AreBoundaries(g, bs) && e.id in g.nodes && g.nodes[e.id] == e && Broken(e)
    ensures b in bs && IsBoundary(g, b) && FailureRank(g, b) <= e.layer.Rank()
  {
    hide IsLastGood, IsNotMeasured, IsBlockedChain;
    assert About(g, e, e.subject);
    assert HasBroken(g, e.subject);
    b :| b in bs && b.subject == e.subject;
    assert IsBoundary(g, b);
    assert CompareByLayer(g.nodes[b.firstFailure], e) <= 0;
  }

  // ---- the finding ----

  const CODE_FAILURE_BOUNDARY := "DIAG_FAILURE_BOUNDARY"

  /** The wording: one line naming the failing stage, or both stages of a contrast, and
  a detail chosen by what else is known. */
  datatype Wording = Wording(
    firstStage: Layer -> string,
    contrast: (Layer, Layer) -> string,
    detail: (bool, bool) -> string)
  {
    ghost predicate Valid() {
      && (forall l :: ValidIdentifier(firstStage(l)))
      && (forall good, failing :: ValidIdentifier(contrast(good, failing)))
      && (forall hasGood, gaps :: ValidProse(detail(hasGood, gaps)))
    }
  }

  function VantageDependentLayer(l: Layer): bool {
    l == LayerDNS || l == LayerTCP || l == LayerTLS
  }

  /** The wording a boundary calls for: a contrast when something last worked, a detail
  that says so when nothing did, and that says so when stages were not measured. */
  ghost predicate Worded(g: Graph, b: Boundary, w: Wording, f: Finding)
    requires b.firstFailure in g.nodes && (b.lastGood == "" || b.lastGood in g.nodes)
  {
    && f.summary == (if b.lastGood == "" then w.firstStage(g.nodes[b.firstFailure].layer)
                     else w.contrast(g.nodes[b.lastGood].layer, g.nodes[b.firstFailure].layer))
    && f.detail == w.detail(b.lastGood != "", b.notMeasured != [])
  }

  /** A finding that states one boundary at full confidence: it cites the failure and what
  last worked, and nothing else, and is filed at the failure's layer. */
  ghost predicate StatesBoundary(g: Graph, b: Boundary, w: Wording, f: Finding) {
    && f.Built() && f.code == CODE_FAILURE_BOUNDARY && f.kind == Confirmed && f.severity == Info
    && f.confidence == High && f.recommendations == []
    && b.firstFailure in g.nodes && (b.lastGood == "" || b.lastGood in g.nodes) && Worded(g, b, w, f)
    && f.subject == b.subject && f.layer == g.nodes[b.firstFailure].layer
    && (forall ref :: ref in f.evidenceRefs <==> ref == b.firstFailure || (b.lastGood != "" && ref == b.lastGood))
    && f.vantageDependent == VantageDependentLayer(f.layer) && f.discriminator == ""
  }

  method BoundaryFinding(g: Graph, b: Boundary, w: Wording) returns (f: Option<Finding>)
    requires Frozen(g) && IsBoundary(g, b) && w.Valid()
    ensures f.Some? && StatesBoundary(g, b, w, f.value)
    ensures f.value.code == "DIAG_FAILURE_BOUNDARY" && f.value.kind == Confirmed && f.value.severity == Info
    ensures f.value.confidence == High && f.value.subject == b.subject && f.value.layer == g.nodes[b.firstFailure].layer
    ensures f.value.vantageDependent <==>
      f.value.layer == LayerDNS || f.value.layer == LayerTCP || f.value.layer == LayerTLS
    ensures f.value.summary == if b.lastGood == "" then w.firstStage(g.nodes[b.firstFailure].layer)
      else w.contrast(g.nodes[b.lastGood].layer, g.nodes[b.firstFailure].layer)
    ensures f.value.detail == w.detail(b.lastGood != "", b.notMeasured != []) && f.value.recommendations == []
    ensures forall ref :: ref in f.value.evidenceRefs <==>
      ref == b.firstFailure || (b.lastGood != "" && ref == b.lastGood)
  {
    hide Frozen, IsNotMeasured, IsBlockedChain, CompareByLayer, ValidIdentifier, ValidProse, ValidCode, Ascending,
      Finding.Built, Finding.FieldsValid, StatesBoundary, Normalized;
    FiledById(g);
    var failing := g.nodes[b.firstFailure];
    var refs := [failing.id];
    var summary := w.firstStage(failing.layer);
    if b.lastGood != "" {
      var good := g.nodes[b.lastGood];
      refs := refs + [good.id];
      summary := w.contrast(good.layer, failing.layer);
    }
    var input := Finding(
      CODE_FAILURE_BOUNDARY, Confirmed, Info, High, failing.layer, b.subject, summary,
      w.detail(b.lastGood != "", |b.notMeasured| > 0), refs, [], VantageDependentLayer(failing.layer), "");
    BoundaryInputValid(g, b, input);
    var r := NewFinding(input);
    NewFindingEstablishesBuilt(input);
    NormalizedRefs(input);
    StatesIt(g, b, w, input, r.value);
    f := Some(r.value);
    StatedFields(g, b, w, f.value);
  }

  lemma StatedFields(g: Graph, b: Boundary, w: Wording, f: Finding)
    requires StatesBoundary(g, b, w, f)
    ensures f.code == "DIAG_FAILURE_BOUNDARY" && f.kind == Confirmed && f.severity == Info
    ensures b.firstFailure in g.nodes && (b.lastGood == "" || b.lastGood in g.nodes)
    ensures f.confidence == High && f.subject == b.subject
    ensures f.layer == g.nodes[b.firstFailure].layer
    ensures f.vantageDependent <==> f.layer == LayerDNS || f.layer == LayerTCP || f.layer == LayerTLS
    ensures f.summary == if b.lastGood == "" then w.firstStage(g.nodes[b.firstFailure].layer)
      else w.contrast(g.nodes[b.lastGood].layer, g.nodes[b.firstFailure].layer)
    ensures f.detail == w.detail(b.lastGood != "", b.notMeasured != []) && f.recommendations == []
    ensures forall ref :: ref in f.evidenceRefs <==> ref == b.firstFailure || (b.lastGood != "" && ref == b.lastGood)
  {
    hide Finding.Built;
  }

  lemma StatesIt(g: Graph, b: Boundary, w: Wording, input: Finding, f: Finding)
    requires f.Built() && f == input.(evidenceRefs := f.evidenceRefs)
    requires b.firstFailure in g.nodes && (b.lastGood == "" || b.lastGood in g.nodes)
    requires forall ref :: ref in f.evidenceRefs <==> ref == b.firstFailure || (b.lastGood != "" && ref == b.lastGood)
    requires var layer := g.nodes[b.firstFailure].layer;
      input == Finding(
        CODE_FAILURE_BOUNDARY, Confirmed, Info, High, layer, b.subject,
        if b.lastGood == "" then w.firstStage(layer) else w.contrast(g.nodes[b.lastGood].layer, layer),
        w.detail(b.lastGood != "", |b.notMeasured| > 0), input.evidenceRefs, [], VantageDependentLayer(layer), "")
    ensures StatesBoundary(g, b, w, f)
  {
    hide Finding.Built;
  }

  lemma BoundaryInputValid(g: Graph, b: Boundary, f: Finding)
    requires Frozen(g) && IsBoundary(g, b)
    requires f.code == CODE_FAILURE_BOUNDARY && f.kind == Confirmed && f.severity == Info && f.confidence == High
    requires f.layer == g.nodes[b.firstFailure].layer && f.subject == b.subject
    requires ValidIdentifier(f.summary) && ValidProse(f.detail) && f.discriminator == "" && f.recommendations == []
    requires f.evidenceRefs != [] && forall ref :: ref in f.evidenceRefs ==> ref in g.nodes
    ensures f.FieldsValid() && f.RefsValid() && f.AdviceBuilt() && f.subject.Built()
  {
    hide Frozen, ValidIdentifier, ValidProse, IsLastGood, IsNotMeasured, IsBlockedChain, CompareByLayer,
      Subject.Built, ValidCode, InState, HasBroken;
    NodesAreBuilt(g);
    CodeIsValid();
  }

  lemma NodesAreBuilt(g: Graph)
    requires Frozen(g)
    ensures forall id :: id in g.nodes ==>
      ValidIdentifier(id) && g.nodes[id].layer.Valid() && g.nodes[id].subject.Built()
  {
    hide LegalGraph, GraphOf, ValidIdentifier, ValidDottedName, Subject.Built;
  }

  lemma CodeIsValid()
    ensures ValidCode(CODE_FAILURE_BOUNDARY)
  {
    assert CODE_FAILURE_BOUNDARY[4] == '_';
  }

  lemma NormalizedRefs(f: Finding)
    ensures forall ref :: ref in Normalized(f).evidenceRefs <==> ref in f.evidenceRefs
    ensures Normalized(f) == f.(evidenceRefs := Normalized(f).evidenceRefs)
  {
  }

  /** The rule: one finding per boundary, in order, and every reference is a node. */
  method FailureBoundary(g: Graph, w: Wording) returns (out: seq<Finding>, ghost bs: seq<Boundary>)
    requires Frozen(g) && w.Valid()
    ensures AreBoundaries(g, bs) && |out| == |bs|
    ensures forall i :: 0 <= i < |out| ==> StatesBoundary(g, bs[i], w, out[i])
    ensures CitesOnly(g, out) && forall f :: f in out ==> f.Built()
  {
    hide Frozen, IsBoundary, StatesBoundary, Wording.Valid, HasBroken, CompareSubjects, CitesOnly, Finding.Built;
    var boundaries := AllBoundaries(g);
    bs := boundaries;
    out := [];
    var i := 0;
    while i < |boundaries|
      invariant 0 <= i <= |boundaries| && |out| == i
      invariant forall k :: 0 <= k < i ==> StatesBoundary(g, bs[k], w, out[k])
    {
      assert boundaries[i] in boundaries;
      var f := BoundaryFinding(g, boundaries[i], w);
      out := out + [f.value];
      i := i + 1;
    }
    StatedCites(g, bs, w, out);
  }

  lemma StatedCites(g: Graph, bs: seq<Boundary>, w: Wording, out: seq<Finding>)
    requires AreBoundaries(g, bs) && |out| == |bs| && forall i :: 0 <= i < |out| ==> StatesBoundary(g, bs[i], w, out[i])
    ensures CitesOnly(g, out) && forall f :: f in out ==> f.Built()
  {
    hide CompareByLayer, IsNotMeasured, IsBlockedChain, HasBroken, CompareSubjects, Finding.Built;
    forall ref | CitedBy(out, ref) ensures ref in g.nodes {
      var f :| f in out && ref in f.evidenceRefs;
      var i :| 0 <= i < |out| && out[i] == f;
      assert bs[i] in bs && IsBoundary(g, bs[i]);
    }
  }
}
