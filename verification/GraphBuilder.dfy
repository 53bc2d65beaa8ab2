/** The evidence graph: a mutable builder that keeps two relations acyclic, and the
immutable value it freezes into. */
module Graphs {
  import opened Orders
  import opened Relations
  import opened Results
  import opened Evidences

  type Adjacency = map<EvidenceID, seq<EvidenceID>>

  datatype Graph = Graph(
    order: seq<EvidenceID>,
    nodes: map<EvidenceID, Evidence>,
    parents: Adjacency,
    children: Adjacency,
    blockedBy: Adjacency)
  {
    function Parents(id: EvidenceID): seq<EvidenceID> {
      Listed(parents, id)
    }

    function Children(id: EvidenceID): seq<EvidenceID> {
      Listed(children, id)
    }

    function BlockedBy(id: EvidenceID): seq<EvidenceID> {
      Listed(blockedBy, id)
    }
  }

  function Listed(rel: Adjacency, id: EvidenceID): seq<EvidenceID> {
    if id in rel then rel[id] else []
  }

  // ---- what a graph must satisfy ----

  ghost predicate EndpointsPresent(nodes: map<EvidenceID, Evidence>, rel: Relation) {
    forall from :: from in rel ==> from in nodes && forall to :: to in rel[from] ==> to in nodes
  }

  ghost predicate LegalRelation(nodes: map<EvidenceID, Evidence>, rel: Relation) {
    && EndpointsPresent(nodes, rel)
    && (forall from :: from in rel ==> from !in rel[from])
    && Acyclic(rel)
  }

  ghost predicate OnlySkippedBlocked(nodes: map<EvidenceID, Evidence>, blockedBy: Relation) {
    forall id :: id in blockedBy ==> id in nodes && nodes[id].state == Skipped
  }

  /** Nodes are filed under their own identifiers and were validated when built. */
  ghost predicate Filed(nodes: map<EvidenceID, Evidence>) {
    forall id :: id in nodes ==> nodes[id].id == id && nodes[id].Built()
  }

  ghost predicate LegalGraph(nodes: map<EvidenceID, Evidence>, parents: Relation, blockedBy: Relation) {
    LegalRelation(nodes, parents) && LegalRelation(nodes, blockedBy) && OnlySkippedBlocked(nodes, blockedBy)
  }

  // ---- the graph a legal builder stands for ----

  ghost function InOrderEach(rel: Relation): Adjacency {
    map from | from in rel :: InOrder(rel[from])
  }

  ghost function ChildrenOf(nodes: map<EvidenceID, Evidence>, parents: Relation, parent: EvidenceID): set<EvidenceID> {
    set child | child in nodes && parent in Next(parents, child)
  }

  ghost function Inverted(nodes: map<EvidenceID, Evidence>, parents: Relation): Adjacency {
    map parent | parent in Nodes(parents) && ChildrenOf(nodes, parents, parent) != {} ::
      InOrder(ChildrenOf(nodes, parents, parent))
  }

  /** Freeze's result as a function of the node map and the two edge sets alone. */
  ghost function GraphOf(nodes: map<EvidenceID, Evidence>, parents: Relation, blockedBy: Relation): Graph {
    Graph(InOrder(nodes.Keys), nodes, InOrderEach(parents), Inverted(nodes, parents), InOrderEach(blockedBy))
  }

  ghost function RelationOf(adj: Adjacency): Relation {
    map from | from in adj :: set to | to in adj[from]
  }

  lemma InRelation(adj: Adjacency, from: EvidenceID, to: EvidenceID)
    ensures to in Next(RelationOf(adj), from) <==> to in Listed(adj, from)
  {
  }

  lemma RelationOfInOrder(rel: Relation)
    ensures RelationOf(InOrderEach(rel)) == rel
  {
    forall from | from in rel ensures (set to | to in InOrder(rel[from])) == rel[from] {
    }
  }

  ghost function ParentRelation(g: Graph): Relation {
    RelationOf(g.parents)
  }

  ghost function BlockRelation(g: Graph): Relation {
    RelationOf(g.blockedBy)
  }

  /** The graphs GraphBuilder.Freeze returns on a builder driven through its methods. */
  ghost predicate Frozen(g: Graph) {
    && Filed(g.nodes)
    && LegalGraph(g.nodes, ParentRelation(g), BlockRelation(g))
    && g == GraphOf(g.nodes, ParentRelation(g), BlockRelation(g))
  }

  lemma GraphOfIsFrozen(nodes: map<EvidenceID, Evidence>, parents: Relation, blockedBy: Relation)
    requires Filed(nodes) && LegalGraph(nodes, parents, blockedBy)
    ensures Frozen(GraphOf(nodes, parents, blockedBy)) && GraphOf(nodes, parents, blockedBy).nodes == nodes
    ensures ParentRelation(GraphOf(nodes, parents, blockedBy)) == parents
    ensures BlockRelation(GraphOf(nodes, parents, blockedBy)) == blockedBy
  {
    hide Filed, LegalGraph;
    RelationOfInOrder(parents);
    RelationOfInOrder(blockedBy);
  }

  lemma FrozenOrder(g: Graph)
    requires Frozen(g)
    ensures Ascending(g.order) && Distinct(g.order)
    ensures forall id :: id in g.order <==> id in g.nodes
  {
    AscendingDistinct(g.order);
  }

  /** Children and parents of a frozen graph are one relation read both ways. */
  lemma ChildrenInvertParents(g: Graph, c: EvidenceID, p: EvidenceID)
    requires Frozen(g)
    ensures c in g.Children(p) <==> p in g.Parents(c)
    ensures p in g.Parents(c) <==> p in Next(ParentRelation(g), c)
    ensures p in g.Parents(c) ==> c in g.nodes && p in g.nodes && c != p
    ensures Ascending(g.Children(p)) && Ascending(g.Parents(c))
  {
    hide Filed, Acyclic;
    var parents := ParentRelation(g);
    InRelation(g.parents, c, p);
    if p in Next(parents, c) {
      assert p in Nodes(parents) && c in ChildrenOf(g.nodes, parents, p);
    }
  }

  /** A blocked node is SKIPPED, and the nodes that explain it are in the graph. */
  lemma BlockersExplainSkips(g: Graph, c: EvidenceID, b: EvidenceID)
    requires Frozen(g)
    ensures b in g.BlockedBy(c) <==> b in Next(BlockRelation(g), c)
    ensures b in g.BlockedBy(c) ==> c in g.nodes && b in g.nodes && g.nodes[c].state == Skipped
    ensures Ascending(g.BlockedBy(c))
  {
    hide Filed, Acyclic;
    InRelation(g.blockedBy, c, b);
  }

  // ---- edges of a new node ----

  lemma ReachedIsNode(nodes: map<EvidenceID, Evidence>, rel: Relation, a: EvidenceID, b: EvidenceID)
    requires EndpointsPresent(nodes, rel) && a in nodes && Reaches(rel, a, b)
    ensures b in nodes
  {
    var p :| Path(rel, p) && p[0] == a && p[|p| - 1] == b;
    if |p| > 1 {
      assert p[|p| - 1] in Next(rel, p[|p| - 2]);
    }
  }

  lemma FreshEdgeKeepsAcyclic(nodes: map<EvidenceID, Evidence>, rel: Relation, id: EvidenceID, from: EvidenceID)
    requires LegalRelation(nodes, rel) && id !in nodes && from in nodes
    ensures Acyclic(WithEdge(rel, id, from))
  {
    hide Acyclic, Reaches;
    EdgeClosesCycle(rel, id, from);
    if Reaches(rel, from, id) {
      ReachedIsNode(nodes, rel, from, id);
    }
  }

  // ---- the builder ----

  /** What a builder holds. */
  datatype Content = Content(nodes: map<EvidenceID, Evidence>, parents: Relation, blockedBy: Relation) {
    ghost predicate Legal() {
      Filed(nodes) && LegalGraph(nodes, parents, blockedBy)
    }
  }

  class GraphBuilder {
    var nodes: map<EvidenceID, Evidence>
    var parents: Relation
    var blockedBy: Relation

    ghost function Contents(): Content
      reads this
    {
      Content(nodes, parents, blockedBy)
    }

    /** What every run of the methods below keeps. */
    ghost predicate Valid()
      reads this
    {
      Filed(nodes) && LegalGraph(nodes, parents, blockedBy)
    }

    constructor ()
      ensures Valid() && nodes == map[] && parents == map[] && blockedBy == map[]
    {
      nodes, parents, blockedBy := map[], map[], map[];
      new;
      NoEdgesNoCycle();
    }

    /** An identifier enters once; a repeated one changes nothing. */
    method AddEvidence(e: Evidence) returns (r: Outcome)
      requires Valid()
      requires e.IsZero() || e.Built()
      modifies this`nodes
      ensures Valid()
      ensures r.Done? <==> !e.IsZero() && e.id !in old(nodes)
      ensures nodes == if r.Done? then old(nodes)[e.id := e] else old(nodes)
    {
      if e.IsZero() {
        return Refused(ErrInvalidGraph);
      }
      if e.id in nodes {
        return Refused(ErrInvalidGraph);
      }
      nodes := nodes[e.id := e];
      return Done;
    }

    /** The edge is refused exactly when an endpoint is missing, it is a self edge,
    or it would close a cycle. */
    method AddParent(child: EvidenceID, parent: EvidenceID) returns (r: Outcome)
      requires Valid()
      modifies this`parents
      ensures Valid()
      ensures r.Done? <==>
        child in nodes && parent in nodes && child != parent && Acyclic(WithEdge(old(parents), child, parent))
      ensures parents == if r.Done? then WithEdge(old(parents), child, parent) else old(parents)
    {
      hide Filed;
      EdgeClosesCycle(parents, child, parent);
      if child !in nodes {
        return Refused(ErrInvalidGraph);
      }
      if parent !in nodes {
        return Refused(ErrInvalidGraph);
      }
      if child == parent {
        return Refused(ErrInvalidGraph);
      }
      var cyclic := Reachable(parents, parent, child);
      if cyclic {
        return Refused(ErrInvalidGraph);
      }
      parents := WithEdge(parents, child, parent);
      return Done;
    }

    /** As AddParent, and only SKIPPED evidence may be blocked. */
    method AddBlockedBy(skipped: EvidenceID, blocker: EvidenceID) returns (r: Outcome)
      requires Valid()
      modifies this`blockedBy
      ensures Valid()
      ensures r.Done? <==>
        && skipped in nodes && blocker in nodes && skipped != blocker
        && nodes[skipped].state == Skipped
        && Acyclic(WithEdge(old(blockedBy), skipped, blocker))
      ensures blockedBy == if r.Done? then WithEdge(old(blockedBy), skipped, blocker) else old(blockedBy)
    {
      hide Filed;
      EdgeClosesCycle(blockedBy, skipped, blocker);
      if skipped !in nodes {
        return Refused(ErrInvalidGraph);
      }
      if blocker !in nodes {
        return Refused(ErrInvalidGraph);
      }
      if skipped == blocker {
        return Refused(ErrInvalidGraph);
      }
      if nodes[skipped].state != Skipped {
        return Refused(ErrInvalidGraph);
      }
      var cyclic := Reachable(blockedBy, blocker, skipped);
      if cyclic {
        return Refused(ErrInvalidGraph);
      }
      blockedBy := WithEdge(blockedBy, skipped, blocker);
      return Done;
    }

    /** Freeze re-validates whatever the builder holds, and is exact: it accepts a
    structure if and only if the structure is a legal graph. */
    method Freeze() returns (r: Result<Graph>)
      ensures r.Ok? <==> LegalGraph(nodes, parents, blockedBy)
      ensures r.Ok? ==> r.value == GraphOf(nodes, parents, blockedBy)
    {
      hide Ascending, Acyclic, Distinct;
      var order := SortedElements(nodes.Keys);
      var frozenParents := FreezeRelation(nodes, parents);
      if frozenParents.Err? {
        return Err(frozenParents.error);
      }
      var frozenBlockedBy := FreezeRelation(nodes, blockedBy);
      if frozenBlockedBy.Err? {
        return Err(frozenBlockedBy.error);
      }
      var todo := blockedBy.Keys;
      while todo != {}
        invariant todo <= blockedBy.Keys
        invariant forall id :: id in blockedBy && id !in todo ==> nodes[id].state == Skipped
        decreases todo
      {
        var id :| id in todo;
        if nodes[id].state != Skipped {
          return Err(ErrInvalidGraph);
        }
        todo := todo - {id};
      }
      AscendingDistinct(order);
      forall c | c in frozenParents.value ensures Distinct(frozenParents.value[c]) {
        AscendingDistinct(frozenParents.value[c]);
      }
      var children := DeriveChildren(order, frozenParents.value);
      InOrderUnique(order, nodes.Keys);
      ChildrenAreInverse(nodes, parents, order, frozenParents.value, children);
      return Ok(Graph(order, nodes, frozenParents.value, children, frozenBlockedBy.value));
    }
  }

  lemma CycleHasEdge(rel: Relation, x: EvidenceID)
    requires OnCycle(rel, x)
    ensures Next(rel, x) != {}
  {
    var p :| Path(rel, p) && |p| >= 2 && p[0] == x && p[|p| - 1] == x;
    assert p[1] in Next(rel, x);
  }

  lemma NoEdgesNoCycle()
    ensures Acyclic(map[])
  {
    forall x ensures !OnCycle(map[], x) {
      if OnCycle(map[], x) {
        CycleHasEdge(map[], x);
      }
    }
  }

  method FreezeRelation(nodes: map<EvidenceID, Evidence>, rel: Relation) returns (r: Result<Adjacency>)
    ensures r.Ok? <==> LegalRelation(nodes, rel)
    ensures r.Ok? ==> r.value == InOrderEach(rel)
  {
    hide Acyclic, Ascending, OnCycle;
    var out: Adjacency := map[];
    var todo := rel.Keys;
    while todo != {}
      invariant todo <= rel.Keys
      invariant out.Keys == rel.Keys - todo
      invariant forall from :: from in out ==> LegalTargets(nodes, rel, from) && out[from] == InOrder(rel[from])
      decreases todo
    {
      var from :| from in todo;
      var legal := CheckTargets(nodes, rel, from);
      if !legal {
        return Err(ErrInvalidGraph);
      }
      var ids := SortedElements(rel[from]);
      InOrderUnique(ids, rel[from]);
      out := out[from := ids];
      todo := todo - {from};
    }
    assert forall from :: from in rel ==> LegalTargets(nodes, rel, from);
    var cycle, found := FindCycle(rel);
    if found {
      return Err(ErrInvalidGraph);
    }
    return Ok(out);
  }

  ghost predicate LegalTargets(nodes: map<EvidenceID, Evidence>, rel: Relation, from: EvidenceID)
    requires from in rel
  {
    from in nodes && from !in rel[from] && forall to :: to in rel[from] ==> to in nodes
  }

  method CheckTargets(nodes: map<EvidenceID, Evidence>, rel: Relation, from: EvidenceID) returns (legal: bool)
    requires from in rel
    ensures legal <==> LegalTargets(nodes, rel, from)
  {
    if from !in nodes {
      return false;
    }
    var targets := rel[from];
    while targets != {}
      invariant targets <= rel[from]
      invariant forall to :: to in rel[from] && to !in targets ==> to in nodes && to != from
      decreases targets
    {
      var to :| to in targets;
      if to !in nodes {
        return false;
      }
      if to == from {
        return false;
      }
      targets := targets - {to};
    }
    return true;
  }

  /** One parent's list so far: each node seen that names it, once. */
  ghost predicate ListsOne(list: seq<EvidenceID>, parents: Adjacency, seen: seq<EvidenceID>, p: EvidenceID) {
    Distinct(list) && forall c :: c in list <==> c in seen && p in Listed(parents, c)
  }

  ghost predicate ListsChildren(children: Adjacency, parents: Adjacency, seen: seq<EvidenceID>) {
    && (forall p :: ListsOne(Listed(children, p), parents, seen, p))
    && (forall p :: p in children ==> children[p] != [])
  }

  /** Children are derived from the parent edges, walking the nodes in order. */
  method DeriveChildren(order: seq<EvidenceID>, parents: Adjacency) returns (children: Adjacency)
    requires Distinct(order) && forall c :: c in parents ==> Distinct(parents[c])
    ensures ListsChildren(children, parents, order)
    ensures forall p :: p in children ==> Ascending(children[p])
  {
    children := map[];
    var i := 0;
    while i < |order|
      invariant 0 <= i <= |order|
      invariant ListsChildren(children, parents, order[..i])
    {
      ghost var before := children;
      assert Distinct(Listed(parents, order[i]));
      children := ListUnder(children, Listed(parents, order[i]), order[i]);
      AppendChild(before, children, parents, order, i);
      i := i + 1;
    }
    assert order[..|order|] == order;
    children := SortEach(children, parents, order);
  }

  /** Appends one child to the list of each of its parents. */
  method ListUnder(before: Adjacency, ps: seq<EvidenceID>, child: EvidenceID) returns (children: Adjacency)
    requires Distinct(ps)
    ensures forall p :: p !in ps ==> (p in children <==> p in before) && Listed(children, p) == Listed(before, p)
    ensures forall p :: p in ps ==> p in children && children[p] == Listed(before, p) + [child]
  {
    children := before;
    var j := 0;
    while j < |ps|
      invariant 0 <= j <= |ps|
      invariant forall p :: p !in ps[..j] ==>
        (p in children <==> p in before) && Listed(children, p) == Listed(before, p)
      invariant forall p :: p in ps[..j] ==> p in children && children[p] == Listed(before, p) + [child]
    {
      assert ps[..j + 1] == ps[..j] + [ps[j]];
      assert ps[j] !in ps[..j];
      children := children[ps[j] := Listed(children, ps[j]) + [child]];
      j := j + 1;
    }
    assert ps[..|ps|] == ps;
  }

  lemma AppendChild(before: Adjacency, after: Adjacency, parents: Adjacency, order: seq<EvidenceID>, i: nat)
    requires Distinct(order) && i < |order|
    requires ListsChildren(before, parents, order[..i])
    requires forall p :: p !in Listed(parents, order[i]) ==>
      (p in after <==> p in before) && Listed(after, p) == Listed(before, p)
    requires forall p :: p in Listed(parents, order[i]) ==> p in after && after[p] == Listed(before, p) + [order[i]]
    ensures ListsChildren(after, parents, order[..i + 1])
  {
    var child, seen := order[i], order[..i];
    assert order[..i + 1] == seen + [child];
    forall p ensures ListsOne(Listed(after, p), parents, seen + [child], p) && (p in after ==> after[p] != []) {
      assert ListsOne(Listed(before, p), parents, seen, p);
      if p in Listed(parents, child) {
        AppendOne(Listed(before, p), parents, seen, p, child);
      } else {
        SkipOne(Listed(before, p), parents, seen, p, child);
      }
    }
  }

  lemma AppendOne(list: seq<EvidenceID>, parents: Adjacency, seen: seq<EvidenceID>, p: EvidenceID, child: EvidenceID)
    requires ListsOne(list, parents, seen, p) && child !in seen && p in Listed(parents, child)
    ensures ListsOne(list + [child], parents, seen + [child], p)
  {
  }

  lemma SkipOne(list: seq<EvidenceID>, parents: Adjacency, seen: seq<EvidenceID>, p: EvidenceID, child: EvidenceID)
    requires ListsOne(list, parents, seen, p) && p !in Listed(parents, child)
    ensures ListsOne(list, parents, seen + [child], p)
  {
  }

  method SortEach(children: Adjacency, ghost parents: Adjacency, ghost seen: seq<EvidenceID>) returns (r: Adjacency)
    requires ListsChildren(children, parents, seen)
    ensures ListsChildren(r, parents, seen)
    ensures forall p :: p in r ==> Ascending(r[p])
  {
    r := children;
    var todo := children.Keys;
    while todo != {}
      invariant todo <= children.Keys == r.Keys
      invariant ListsChildren(r, parents, seen)
      invariant forall p :: p in r && p !in todo ==> Ascending(r[p])
      decreases todo
    {
      var parent :| parent in todo;
      assert ListsOne(Listed(r, parent), parents, seen, parent);
      var sorted := SortDistinct(r[parent]);
      SortedListsOne(sorted, r[parent], parents, seen, parent);
      ghost var before := r;
      r := r[parent := sorted];
      forall p ensures ListsOne(Listed(r, p), parents, seen, p) {
        assert ListsOne(Listed(before, p), parents, seen, p);
      }
      todo := todo - {parent};
    }
  }

  lemma SortedListsOne(
    sorted: seq<EvidenceID>, list: seq<EvidenceID>, parents: Adjacency, seen: seq<EvidenceID>, p: EvidenceID)
    requires ListsOne(list, parents, seen, p)
    requires Ascending(sorted) && forall x :: x in sorted <==> x in list
    ensures ListsOne(sorted, parents, seen, p)
  {
    AscendingDistinct(sorted);
  }

  lemma ChildrenAreInverse(
    nodes: map<EvidenceID, Evidence>, parents: Relation, order: seq<EvidenceID>, listed: Adjacency, children: Adjacency)
    requires EndpointsPresent(nodes, parents)
    requires forall x :: x in order <==> x in nodes
    requires listed == InOrderEach(parents) && ListsChildren(children, listed, order)
    requires forall p :: p in children ==> Ascending(children[p])
    ensures children == Inverted(nodes, parents)
  {
    hide Ascending, EndpointsPresent;
    var inv := Inverted(nodes, parents);
    forall p ensures (p in children <==> p in inv) && (p in inv ==> children[p] == inv[p]) {
      assert ListsOne(Listed(children, p), listed, order, p);
      InverseAt(nodes, parents, order, listed, children, p);
    }
    assert children.Keys == inv.Keys;
  }

  lemma InverseAt(
    nodes: map<EvidenceID, Evidence>, parents: Relation, order: seq<EvidenceID>, listed: Adjacency, children: Adjacency,
    p: EvidenceID)
    requires forall x :: x in order <==> x in nodes
    requires listed == InOrderEach(parents)
    requires ListsOne(Listed(children, p), listed, order, p)
    requires p in children ==> children[p] != [] && Ascending(children[p])
    ensures p in children <==> p in Nodes(parents) && ChildrenOf(nodes, parents, p) != {}
    ensures p in children ==> children[p] == InOrder(ChildrenOf(nodes, parents, p))
  {
    var list, cs := Listed(children, p), ChildrenOf(nodes, parents, p);
    assert forall c :: p in Listed(listed, c) <==> p in Next(parents, c);
    assert forall c :: c in list <==> c in cs;
    if p in children {
      assert list[0] in cs;
      InOrderUnique(list, cs);
    }
    assert cs == {} || exists c :: c in cs;
  }
}
