/** Whole runs of a graph builder: any sequence of calls, refused ones included. */
module BuilderRuns {
  import opened Orders
  import opened Relations
  import opened Results
  import opened Evidences
  import opened Graphs

  datatype Call =
    | AddEvidence(e: Evidence)
    | AddParent(child: EvidenceID, parent: EvidenceID)
    | AddBlockedBy(skipped: EvidenceID, blocker: EvidenceID)

  const EMPTY := Content(map[], map[], map[])

  ghost predicate Accepts(s: Content, c: Call) {
    match c
    case AddEvidence(e) => !e.IsZero() && e.id !in s.nodes
    case AddParent(child, parent) =>
      child in s.nodes && parent in s.nodes && child != parent && Acyclic(WithEdge(s.parents, child, parent))
    case AddBlockedBy(skipped, blocker) =>
      skipped in s.nodes && blocker in s.nodes && skipped != blocker && s.nodes[skipped].state == Skipped
      && Acyclic(WithEdge(s.blockedBy, skipped, blocker))
  }

  /** A refused call changes nothing. */
  ghost function After(s: Content, c: Call): Content {
    if !Accepts(s, c) then s
    else
      match c
      case AddEvidence(e) => s.(nodes := s.nodes[e.id := e])
      case AddParent(child, parent) => s.(parents := WithEdge(s.parents, child, parent))
      case AddBlockedBy(skipped, blocker) => s.(blockedBy := WithEdge(s.blockedBy, skipped, blocker))
  }

  ghost function AfterAll(calls: seq<Call>): Content {
    if calls == [] then EMPTY else After(AfterAll(calls[..|calls| - 1]), calls[|calls| - 1])
  }

  ghost predicate Callable(calls: seq<Call>) {
    forall c :: c in calls ==> c.AddEvidence? ==> c.e.IsZero() || c.e.Built()
  }

  ghost predicate AllAccepted(calls: seq<Call>) {
    calls != [] ==>
      AllAccepted(calls[..|calls| - 1]) && Accepts(AfterAll(calls[..|calls| - 1]), calls[|calls| - 1])
  }

  /** A run from an empty builder to its graph: the freeze never fails, and the graph
  is the one the calls that were accepted describe. */
  method BuildGraph(calls: seq<Call>) returns (g: Result<Graph>, refused: bool)
    requires Callable(calls)
    ensures var s := AfterAll(calls); g == Ok(GraphOf(s.nodes, s.parents, s.blockedBy))
    ensures refused <==> !AllAccepted(calls)
  {
    hide Acyclic, Filed, LegalGraph, GraphOf, Evidence.Built, Evidence.IsZero;
    var builder := new GraphBuilder();
    refused := false;
    var i := 0;
    while i < |calls|
      invariant 0 <= i <= |calls| && builder.Valid() && fresh(builder)
      invariant builder.Contents() == AfterAll(calls[..i])
      invariant refused <==> !AllAccepted(calls[..i])
    {
      assert calls[..i + 1][..i] == calls[..i];
      assert calls[i] in calls;
      var r;
      match calls[i] {
        case AddEvidence(e) => r := builder.AddEvidence(e);
        case AddParent(child, parent) => r := builder.AddParent(child, parent);
        case AddBlockedBy(skipped, blocker) => r := builder.AddBlockedBy(skipped, blocker);
      }
      refused := refused || r.Refused?;
      i := i + 1;
    }
    assert calls[..|calls|] == calls;
    g := builder.Freeze();
  }

  lemma LegalNext(s: Content, c: Call)
    requires s.Legal() && (c.AddEvidence? ==> c.e.IsZero() || c.e.Built())
    ensures After(s, c).Legal()
  {
    hide Acyclic, Evidence.Built, Evidence.IsZero;
  }

  lemma EmptyIsLegal()
    ensures EMPTY.Legal()
  {
    NoEdgesNoCycle();
  }

  /** Safety over every run: whatever calls were made, in whatever order, both relations
  are acyclic with their endpoints present, only SKIPPED nodes have blockers, and so
  freezing succeeds with a frozen graph. */
  lemma {:induction false} EveryRunFreezes(calls: seq<Call>)
    requires Callable(calls)
    ensures AfterAll(calls).Legal()
    ensures var s := AfterAll(calls); Frozen(GraphOf(s.nodes, s.parents, s.blockedBy))
  {
    hide Content.Legal, After, LegalGraph, Filed;
    if calls == [] {
      EmptyIsLegal();
    } else {
      var front, last := calls[..|calls| - 1], calls[|calls| - 1];
      assert last in calls;
      EveryRunFreezes(front);
      LegalNext(AfterAll(front), last);
    }
    LegalFreezes(AfterAll(calls));
  }

  lemma LegalFreezes(s: Content)
    requires s.Legal()
    ensures Frozen(GraphOf(s.nodes, s.parents, s.blockedBy))
  {
    hide LegalGraph, Filed;
    GraphOfIsFrozen(s.nodes, s.parents, s.blockedBy);
  }

  // ---- the order of the calls does not matter ----

  ghost predicate ListsEdges(rel: Relation) {
    forall from :: from in rel ==> rel[from] != {}
  }

  ghost predicate NodesSaid(calls: seq<Call>, nodes: map<EvidenceID, Evidence>) {
    && (forall id :: id in nodes ==> AddEvidence(nodes[id]) in calls && nodes[id].id == id)
    && (forall e :: AddEvidence(e) in calls ==> e.id in nodes && nodes[e.id] == e)
  }

  ghost predicate ParentsSaid(calls: seq<Call>, parents: Relation) {
    (forall c, p :: p in Next(parents, c) <==> AddParent(c, p) in calls) && ListsEdges(parents)
  }

  ghost predicate BlockersSaid(calls: seq<Call>, blockedBy: Relation) {
    (forall c, b :: b in Next(blockedBy, c) <==> AddBlockedBy(c, b) in calls) && ListsEdges(blockedBy)
  }

  /** The content is what the calls said, nothing more and nothing less. */
  ghost predicate Says(calls: seq<Call>, s: Content) {
    NodesSaid(calls, s.nodes) && ParentsSaid(calls, s.parents) && BlockersSaid(calls, s.blockedBy)
  }

  lemma SaysNext(calls: seq<Call>, s: Content, c: Call)
    requires Says(calls, s) && Accepts(s, c)
    ensures Says(calls + [c], After(s, c))
  {
    hide Acyclic, NodesSaid, ParentsSaid, BlockersSaid, Next, WithEdge;
    NodesNext(calls, s.nodes, c);
    ParentsNext(calls, s.parents, c);
    BlockersNext(calls, s.blockedBy, c);
  }

  lemma NodesNext(calls: seq<Call>, nodes: map<EvidenceID, Evidence>, c: Call)
    requires NodesSaid(calls, nodes)
    ensures c.AddEvidence? && c.e.id !in nodes ==> NodesSaid(calls + [c], nodes[c.e.id := c.e])
    ensures !c.AddEvidence? ==> NodesSaid(calls + [c], nodes)
  {
    assert forall x :: x in calls + [c] <==> x in calls || x == c;
  }

  lemma ParentsNext(calls: seq<Call>, rel: Relation, c: Call)
    requires ParentsSaid(calls, rel)
    ensures c.AddParent? ==> ParentsSaid(calls + [c], WithEdge(rel, c.child, c.parent))
    ensures !c.AddParent? ==> ParentsSaid(calls + [c], rel)
  {
    assert forall x :: x in calls + [c] <==> x in calls || x == c;
  }

  lemma BlockersNext(calls: seq<Call>, rel: Relation, c: Call)
    requires BlockersSaid(calls, rel)
    ensures c.AddBlockedBy? ==> BlockersSaid(calls + [c], WithEdge(rel, c.skipped, c.blocker))
    ensures !c.AddBlockedBy? ==> BlockersSaid(calls + [c], rel)
  {
    assert forall x :: x in calls + [c] <==> x in calls || x == c;
  }

  lemma {:induction false} AcceptedRunSays(calls: seq<Call>)
    requires AllAccepted(calls)
    ensures Says(calls, AfterAll(calls))
  {
    hide Accepts, After, Says;
    if calls == [] {
      NothingSaid();
    } else {
      var front, last := calls[..|calls| - 1], calls[|calls| - 1];
      AcceptedRunSays(front);
      SaysNext(front, AfterAll(front), last);
      assert calls == front + [last];
    }
  }

  lemma NothingSaid()
    ensures Says([], EMPTY)
  {
  }

  lemma SaidIsOne(a: seq<Call>, b: seq<Call>, s: Content, t: Content)
    requires Says(a, s) && Says(b, t) && forall c :: c in a <==> c in b
    ensures s == t
  {
    assert s.nodes.Keys == t.nodes.Keys;
    assert s.nodes == t.nodes;
    SameRelation(s.parents, t.parents);
    SameRelation(s.blockedBy, t.blockedBy);
  }

  lemma SameRelation(r: Relation, q: Relation)
    requires ListsEdges(r) && ListsEdges(q) && forall from, to :: to in Next(r, from) <==> to in Next(q, from)
    ensures r == q
  {
    forall from ensures Next(r, from) == Next(q, from) && (from in r <==> from in q) {
      assert Next(r, from) == Next(q, from);
    }
    assert r.Keys == q.Keys;
  }

  /** Two runs of accepted calls with the same calls in any order freeze into the same
  graph. */
  lemma CallOrderDoesNotMatter(a: seq<Call>, b: seq<Call>)
    requires AllAccepted(a) && AllAccepted(b) && multiset(a) == multiset(b)
    ensures AfterAll(a) == AfterAll(b)
  {
    hide AllAccepted, AfterAll, Says;
    SameElements(a, b);
    AcceptedRunSays(a);
    AcceptedRunSays(b);
    SaidIsOne(a, b, AfterAll(a), AfterAll(b));
  }
}
