/** The shared graph queries diagnosis reads a frozen graph through. */
module GraphQueries {
  import opened Text
  import opened Orders
  import opened Relations
  import opened Evidences
  import opened Graphs

  // ---- one subject's nodes, in layer order ----

  /** (layer, step, identifier). */
  function CompareByLayer(a: Evidence, b: Evidence): int {
    var l := CompareInt(a.layer.Rank(), b.layer.Rank());
    if l != 0 then l
    else
      var s := Compare(a.step, b.step);
      if s != 0 then s else Compare(a.id, b.id)
  }

  lemma LayerOrder()
    ensures TotalPreorder(CompareByLayer)
    ensures forall a, b :: CompareByLayer(a, b) == 0 ==> a.id == b.id
  {
    CompareTotal();
  }

  /** Shallower first, then in the order of the steps' and the nodes' names. */
  ghost predicate MeasuredFirst(a: Evidence, b: Evidence) {
    || (a.layer != b.layer && NoDeeper(a.layer, b.layer))
    || (a.layer == b.layer && TextBefore(a.step, b.step))
    || (a.layer == b.layer && a.step == b.step && TextBefore(a.id, b.id))
  }

  lemma LayerOrderReads(a: Evidence, b: Evidence)
    ensures CompareByLayer(a, b) < 0 <==> MeasuredFirst(a, b)
    ensures CompareByLayer(a, b) == 0 <==> a.layer == b.layer && a.step == b.step && a.id == b.id
  {
    hide Compare, TextBefore, Layer.Rank, NoDeeper;
    LayersCompare(a.layer, b.layer);
    CompareIsTextOrder(a.step, b.step);
    CompareIsTextOrder(a.id, b.id);
  }

  /** The target before the endpoints, and those in the order of their references. */
  ghost predicate SubjectFirst(a: Subject, b: Subject) {
    || (a.kind != b.kind && NoLaterKind(a.kind, b.kind))
    || (a.kind == b.kind && TextBefore(a.ref, b.ref))
  }

  lemma SubjectOrderReads(a: Subject, b: Subject)
    ensures CompareSubjects(a, b) < 0 <==> SubjectFirst(a, b)
  {
    hide Compare, TextBefore, SubjectKind.Rank, NoLaterKind;
    SubjectKindsCompare(a.kind, b.kind);
    CompareIsTextOrder(a.ref, b.ref);
  }

  ghost predicate About(g: Graph, e: Evidence, subject: Subject) {
    e.id in g.nodes && g.nodes[e.id] == e && e.subject == subject
  }

  /** The subject's whole chain: every node about it, once, in layer order. */
  ghost predicate IsChain(g: Graph, subject: Subject, chain: seq<Evidence>) {
    && StrictlySorted(chain, CompareByLayer)
    && forall e :: e in chain <==> About(g, e, subject)
  }

  method NodesForSubject(g: Graph, subject: Subject) returns (chain: seq<Evidence>)
    requires Frozen(g)
    ensures IsChain(g, subject, chain)
    ensures forall e :: e in chain <==> e.id in g.nodes && g.nodes[e.id] == e && e.subject == subject
    ensures forall i, j :: 0 <= i < j < |chain| ==> MeasuredFirst(chain[i], chain[j])
  {
    hide Frozen, Ascending, CompareByLayer, MeasuredFirst;
    FrozenOrder(g);
    FiledById(g);
    if subject.IsZero() {
      return [];
    }
    var out: seq<Evidence> := [];
    var i := 0;
    while i < |g.order|
      invariant 0 <= i <= |g.order|
      invariant Picked(g, subject, out, g.order[..i])
    {
      var node := g.nodes[g.order[i]];
      PickNext(g, subject, out, i);
      if node.subject == subject {
        out := out + [node];
      }
      i := i + 1;
    }
    assert g.order[..|g.order|] == g.order;
    LayerOrder();
    chain := SortDistinctFunc(out, CompareByLayer);
    forall i, j | 0 <= i < j < |chain| ensures MeasuredFirst(chain[i], chain[j]) {
      LayerOrderReads(chain[i], chain[j]);
    }
  }

  /** The nodes about one subject among those seen, each once. */
  ghost predicate Picked(g: Graph, subject: Subject, out: seq<Evidence>, seen: seq<EvidenceID>) {
    && (forall e :: e in out <==> About(g, e, subject) && e.id in seen)
    && Distinct(out)
  }

  lemma PickNext(g: Graph, subject: Subject, out: seq<Evidence>, i: nat)
    requires Distinct(g.order) && i < |g.order| && g.order[i] in g.nodes && g.nodes[g.order[i]].id == g.order[i]
    requires Picked(g, subject, out, g.order[..i])
    ensures var node := g.nodes[g.order[i]];
      Picked(g, subject, if node.subject == subject then out + [node] else out, g.order[..i + 1])
  {
    var node, seen := g.nodes[g.order[i]], g.order[..i];
    assert g.order[..i + 1] == seen + [g.order[i]];
    assert g.order[i] !in seen;
    assert node !in out;
  }

  lemma FiledById(g: Graph)
    requires Frozen(g)
    ensures forall id :: id in g.nodes ==> g.nodes[id].id == id && !g.nodes[id].subject.IsZero() && id != ""
  {
    hide LegalGraph, GraphOf;
  }

  // ---- the subjects of a graph ----

  lemma SubjectOrder()
    ensures TotalPreorder(CompareSubjects)
    ensures forall a, b :: CompareSubjects(a, b) == 0 ==> a == b
  {
    CompareTotal();
  }

  ghost predicate HasNodes(g: Graph, subject: Subject) {
    exists id :: id in g.nodes && g.nodes[id].subject == subject
  }

  method Subjects(g: Graph) returns (subjects: seq<Subject>)
    requires Frozen(g)
    ensures StrictlySorted(subjects, CompareSubjects)
    ensures forall s :: s in subjects <==> HasNodes(g, s)
    ensures forall i, j :: 0 <= i < j < |subjects| ==> SubjectFirst(subjects[i], subjects[j])
  {
    hide Frozen, Ascending, CompareSubjects, SubjectFirst;
    FrozenOrder(g);
    FiledById(g);
    var out: seq<Subject> := [];
    var i := 0;
    while i < |g.order|
      invariant 0 <= i <= |g.order|
      invariant Distinct(out)
      invariant forall s :: s in out ==> HasNodes(g, s)
      invariant forall k :: 0 <= k < i ==> g.nodes[g.order[k]].subject in out
    {
      var subject := g.nodes[g.order[i]].subject;
      assert g.order[i] in g.nodes;
      if !subject.IsZero() && subject !in out {
        out := out + [subject];
      }
      i := i + 1;
    }
    AllSubjectsSeen(g, out);
    SubjectOrder();
    subjects := SortDistinctFunc(out, CompareSubjects);
    forall i, j | 0 <= i < j < |subjects| ensures SubjectFirst(subjects[i], subjects[j]) {
      SubjectOrderReads(subjects[i], subjects[j]);
    }
  }

  lemma AllSubjectsSeen(g: Graph, out: seq<Subject>)
    requires forall id :: id in g.nodes ==> id in g.order
    requires forall k :: 0 <= k < |g.order| ==> g.order[k] in g.nodes && g.nodes[g.order[k]].subject in out
    ensures forall s :: HasNodes(g, s) ==> s in out
  {
  }

  // ---- everything that did not run because of one node ----

  /** The nodes blocked by id, directly or through other blocked nodes. */
  ghost predicate BlockedThrough(g: Graph, id: EvidenceID, x: EvidenceID) {
    x != id && Reaches(BlockRelation(g), x, id)
  }

  ghost predicate IsBlockedChain(g: Graph, id: EvidenceID, out: seq<EvidenceID>) {
    Ascending(out) && forall x :: x in out <==> BlockedThrough(g, id, x)
  }

  /** The inverse of blocked-by, listed once instead of rescanned per hop. */
  method InvertBlockedBy(g: Graph) returns (blocks: Adjacency)
    requires Frozen(g)
    ensures forall b, x :: x in Listed(blocks, b) <==> b in Next(BlockRelation(g), x)
    ensures forall b, x :: x in Listed(blocks, b) ==> x in g.nodes
  {
    hide Frozen, Ascending, Next;
    FrozenOrder(g);
    DistinctBlockers(g);
    blocks := map[];
    var i := 0;
    while i < |g.order|
      invariant 0 <= i <= |g.order|
      invariant ListsChildren(blocks, g.blockedBy, g.order[..i])
    {
      ghost var before := blocks;
      blocks := ListUnder(blocks, g.BlockedBy(g.order[i]), g.order[i]);
      AppendChild(before, blocks, g.blockedBy, g.order, i);
      i := i + 1;
    }
    assert g.order[..|g.order|] == g.order;
    ListsInverse(g, blocks);
  }

  lemma DistinctBlockers(g: Graph)
    requires Frozen(g)
    ensures forall c :: Distinct(g.BlockedBy(c))
  {
    forall c ensures Distinct(g.BlockedBy(c)) {
      BlockersExplainSkips(g, c, c);
      AscendingDistinct(g.BlockedBy(c));
    }
  }

  lemma ListsInverse(g: Graph, blocks: Adjacency)
    requires Frozen(g) && ListsChildren(blocks, g.blockedBy, g.order)
    ensures forall b, x :: x in Listed(blocks, b) <==> b in Next(BlockRelation(g), x)
    ensures forall b, x :: x in Listed(blocks, b) ==> x in g.nodes
  {
    FrozenOrder(g);
    forall b, x
      ensures (x in Listed(blocks, b) <==> b in Next(BlockRelation(g), x)) && (x in Listed(blocks, b) ==> x in g.nodes)
    {
      assert ListsOne(Listed(blocks, b), g.blockedBy, g.order, b);
      BlockersExplainSkips(g, x, b);
    }
  }

  lemma {:induction false} BackwardClosed(rel: Relation, inside: set<EvidenceID>, p: seq<EvidenceID>)
    requires Path(rel, p) && p[|p| - 1] in inside
    requires forall x, y :: y in inside && y in Next(rel, x) ==> x in inside
    ensures p[0] in inside
  {
    if |p| > 1 {
      BackwardClosed(rel, inside, p[1..]);
      assert p[1] in Next(rel, p[0]);
    }
  }

  lemma BackwardClosedIsAll(rel: Relation, inside: set<EvidenceID>, id: EvidenceID)
    requires id in inside
    requires forall x, y :: y in inside && y in Next(rel, x) ==> x in inside
    ensures forall x :: Reaches(rel, x, id) ==> x in inside
  {
    forall x | Reaches(rel, x, id) ensures x in inside {
      var p :| Path(rel, p) && p[0] == x && p[|p| - 1] == id;
      BackwardClosed(rel, inside, p);
    }
  }

  lemma DistinctJoin(a: seq<EvidenceID>, b: seq<EvidenceID>)
    requires Distinct(a) && Distinct(b)
    requires forall x :: x in b ==> x !in a
    ensures Distinct(a + b)
  {
    forall i, j | 0 <= i < j < |a + b| ensures (a + b)[i] != (a + b)[j] {
      if i < |a| <= j {
        assert b[j - |a|] in b;
      }
    }
  }

  /** The breadth-first walk is exact: it finds the transitive closure, without id. */
  method BlockedChain(g: Graph, id: EvidenceID) returns (out: seq<EvidenceID>)
    requires Frozen(g)
    ensures IsBlockedChain(g, id, out)
  {
    hide Frozen, BlockRelation, Reaches, Next, Listed, Ascending;
    var blocks := InvertBlockedBy(g);
    ghost var rel := BlockRelation(g);
    ReachesSelf(rel, id);
    var visited := {id};
    out := [];
    var queue := [id];
    while |queue| > 0
      invariant forall x :: x in visited <==> x == id || x in out
      invariant id !in out && Distinct(out)
      invariant visited <= g.nodes.Keys + {id}
      invariant forall x :: x in queue ==> x in visited
      invariant forall x :: x in visited ==> Reaches(rel, x, id)
      invariant forall x, y :: y in visited && y in Next(rel, x) ==> x in visited || y in queue
      decreases g.nodes.Keys + {id} - visited, |queue|
    {
      var current := queue[0];
      ghost var before, visitedBefore := queue, visited;
      queue := queue[1..];
      assert before == [current] + queue;
      var added;
      added, visited := Enqueue(Listed(blocks, current), visited);
      forall x | x in added ensures Reaches(rel, x, id) {
        ReachesStep(rel, x, current, id);
      }
      DistinctJoin(out, added);
      out := out + added;
      queue := queue + added;
      assert added != [] ==> added[0] in visited && added[0] !in visitedBefore;
    }
    BackwardClosedIsAll(rel, visited, id);
    out := SortDistinct(out);
  }

  /** One step of the walk: marks what is new among next and lists it once. */
  method Enqueue(next: seq<EvidenceID>, seen: set<EvidenceID>)
    returns (added: seq<EvidenceID>, visited: set<EvidenceID>)
    ensures Distinct(added)
    ensures forall x :: x in added <==> x in next && x !in seen
    ensures forall x :: x in visited <==> x in seen || x in next
  {
    added, visited := [], seen;
    var i := 0;
    while i < |next|
      invariant 0 <= i <= |next|
      invariant Distinct(added)
      invariant forall x :: x in added <==> x in next[..i] && x !in seen
      invariant forall x :: x in visited <==> x in seen || x in next[..i]
    {
      assert next[..i + 1] == next[..i] + [next[i]];
      if next[i] !in visited {
        visited := visited + {next[i]};
        added := added + [next[i]];
      }
      i := i + 1;
    }
    assert next[..|next|] == next;
  }

  /** A blocked node never ran: every member of a blocked chain is SKIPPED. */
  lemma BlockedNodesAreSkipped(g: Graph, id: EvidenceID, x: EvidenceID)
    requires Frozen(g) && BlockedThrough(g, id, x)
    ensures x in g.nodes && g.nodes[x].state == Skipped
  {
    hide Frozen;
    var rel := BlockRelation(g);
    var p :| Path(rel, p) && p[0] == x && p[|p| - 1] == id;
    assert p[1] in Next(rel, p[0]);
    BlockersExplainSkips(g, x, p[1]);
  }
}
