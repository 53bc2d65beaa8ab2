/** Finite relations between evidence nodes, their paths and cycles, and the two
searches the graph builder runs over them. */
module Relations {
  import opened Orders

  type EvidenceID = string
  type Relation = map<EvidenceID, set<EvidenceID>>

  function Next(rel: Relation, id: EvidenceID): set<EvidenceID> {
    if id in rel then rel[id] else {}
  }

  ghost function Nodes(rel: Relation): set<EvidenceID> {
    rel.Keys + set x, y | x in rel && y in rel[x] :: y
  }

  ghost predicate Path(rel: Relation, p: seq<EvidenceID>) {
    p != [] && forall i :: 0 <= i < |p| - 1 ==> p[i + 1] in Next(rel, p[i])
  }

  /** A possibly empty walk leads from a to b. */
  ghost predicate Reaches(rel: Relation, a: EvidenceID, b: EvidenceID) {
    exists p :: Path(rel, p) && p[0] == a && p[|p| - 1] == b
  }

  /** A walk of at least one edge leads from a to b. */
  ghost predicate Leads(rel: Relation, a: EvidenceID, b: EvidenceID) {
    exists p :: Path(rel, p) && |p| >= 2 && p[0] == a && p[|p| - 1] == b
  }

  ghost predicate OnCycle(rel: Relation, x: EvidenceID) {
    Leads(rel, x, x)
  }

  ghost predicate Acyclic(rel: Relation) {
    forall x :: !OnCycle(rel, x)
  }

  lemma ReachesSelf(rel: Relation, a: EvidenceID)
    ensures Reaches(rel, a, a)
  {
    assert Path(rel, [a]);
  }

  lemma ReachesStep(rel: Relation, a: EvidenceID, b: EvidenceID, c: EvidenceID)
    requires b in Next(rel, a) && Reaches(rel, b, c)
    ensures Leads(rel, a, c) && Reaches(rel, a, c)
  {
    var p :| Path(rel, p) && p[0] == b && p[|p| - 1] == c;
    var q := [a] + p;
    assert Path(rel, q) && q[0] == a && q[|q| - 1] == c;
  }

  lemma ReachesExtend(rel: Relation, a: EvidenceID, b: EvidenceID, c: EvidenceID)
    requires Reaches(rel, a, b) && c in Next(rel, b)
    ensures Leads(rel, a, c) && Reaches(rel, a, c)
  {
    var p :| Path(rel, p) && p[0] == a && p[|p| - 1] == b;
    var q := p + [c];
    assert Path(rel, q) && q[0] == a && q[|q| - 1] == c;
  }

  lemma LeadsJoin(rel: Relation, a: EvidenceID, b: EvidenceID, c: EvidenceID)
    requires Leads(rel, a, b) && Reaches(rel, b, c)
    ensures Leads(rel, a, c)
  {
    var p :| Path(rel, p) && |p| >= 2 && p[0] == a && p[|p| - 1] == b;
    var q :| Path(rel, q) && q[0] == b && q[|q| - 1] == c;
    var r := p + q[1..];
    assert forall i :: |p| <= i < |r| ==> r[i] == q[i - |p| + 1];
    assert Path(rel, r) && r[0] == a && r[|r| - 1] == c;
  }

  lemma ReachesJoin(rel: Relation, a: EvidenceID, b: EvidenceID, c: EvidenceID)
    requires Reaches(rel, a, b) && Reaches(rel, b, c)
    ensures Reaches(rel, a, c)
  {
    var p :| Path(rel, p) && p[0] == a && p[|p| - 1] == b;
    if |p| >= 2 {
      LeadsJoin(rel, a, b, c);
    }
  }

  lemma {:induction false} StaysInside(rel: Relation, inside: set<EvidenceID>, p: seq<EvidenceID>)
    requires Path(rel, p) && p[0] in inside
    requires forall x :: x in inside ==> Next(rel, x) <= inside
    ensures p[|p| - 1] in inside
  {
    if |p| > 1 {
      StaysInside(rel, inside, p[1..]);
    }
  }

  // ---- adding one edge ----

  function WithEdge(rel: Relation, from: EvidenceID, to: EvidenceID): Relation {
    rel[from := Next(rel, from) + {to}]
  }

  /** A walk over the enlarged relation either never used the new edge, or it
  splits into a walk that reaches the edge and a walk that leaves it. */
  lemma {:induction false} SplitAtNewEdge(rel: Relation, from: EvidenceID, to: EvidenceID, p: seq<EvidenceID>)
    requires Path(WithEdge(rel, from, to), p)
    ensures Path(rel, p) || (Reaches(rel, p[0], from) && Reaches(rel, to, p[|p| - 1]))
  {
    if |p| > 1 {
      var tail := p[1..];
      SplitAtNewEdge(rel, from, to, tail);
      if p[1] in Next(rel, p[0]) {
        if Path(rel, tail) {
          assert Path(rel, p) by {
            forall i | 0 <= i < |p| - 1 ensures p[i + 1] in Next(rel, p[i]) {
              if i > 0 { assert tail[i] in Next(rel, tail[i - 1]); }
            }
          }
        } else {
          ReachesStep(rel, p[0], p[1], from);
        }
      } else {
        ReachesSelf(rel, from);
        if Path(rel, tail) {
          assert Reaches(rel, to, tail[|tail| - 1]);
        }
      }
    }
  }

  /** One new edge closes a cycle exactly when its target already reached its source. */
  lemma EdgeClosesCycle(rel: Relation, from: EvidenceID, to: EvidenceID)
    requires Acyclic(rel)
    ensures Acyclic(WithEdge(rel, from, to)) <==> !Reaches(rel, to, from)
  {
    var more := WithEdge(rel, from, to);
    if Reaches(rel, to, from) {
      var p :| Path(rel, p) && p[0] == to && p[|p| - 1] == from;
      var q := [from] + p;
      assert Path(more, q) && |q| >= 2 && q[0] == from && q[|q| - 1] == from;
      assert OnCycle(more, from);
    } else {
      forall x ensures !OnCycle(more, x) {
        if OnCycle(more, x) {
          var p :| Path(more, p) && |p| >= 2 && p[0] == x && p[|p| - 1] == x;
          SplitAtNewEdge(rel, from, to, p);
          if Path(rel, p) {
            assert OnCycle(rel, x);
          } else {
            ReachesJoin(rel, to, x, from);
          }
        }
      }
    }
  }

  // ---- reachable ----

  /** Everything recorded so far is reachable, and no edge leaves it unrecorded. */
  ghost predicate Frontier(
    rel: Relation, start: EvidenceID, target: EvidenceID, seen: set<EvidenceID>, stack: seq<EvidenceID>)
  {
    && (start in seen || start in stack)
    && (forall x :: x in seen || x in stack ==> x != target && Reaches(rel, start, x))
    && (forall x, y :: x in seen && y in Next(rel, x) ==> y in seen || y in stack)
  }

  lemma FrontierStarts(rel: Relation, start: EvidenceID, target: EvidenceID)
    requires start != target
    ensures Frontier(rel, start, target, {}, [start])
  {
    ReachesSelf(rel, start);
  }

  lemma FrontierHolds(
    rel: Relation, start: EvidenceID, target: EvidenceID, seen: set<EvidenceID>, stack: seq<EvidenceID>, x: EvidenceID)
    requires Frontier(rel, start, target, seen, stack) && (x in seen || x in stack)
    ensures x != target && Reaches(rel, start, x)
  {
  }

  lemma FrontierStep(
    rel: Relation, start: EvidenceID, target: EvidenceID,
    seen: set<EvidenceID>, rest: seq<EvidenceID>, current: EvidenceID, pushed: seq<EvidenceID>)
    requires Frontier(rel, start, target, seen, rest + [current])
    requires target !in pushed && forall x :: x in pushed ==> Reaches(rel, start, x)
    requires current in seen || forall x :: x in pushed <==> x in Next(rel, current)
    ensures Frontier(rel, start, target, seen + {current}, rest + pushed)
  {
    hide Reaches, Next;
    forall x ensures x in rest + [current] <==> x in rest || x == current {
    }
    forall x ensures x in rest + pushed <==> x in rest || x in pushed {
    }
  }

  /** The explicit-stack walk. Entries may be stacked more than once. */
  method Reachable(rel: Relation, start: EvidenceID, target: EvidenceID) returns (found: bool)
    ensures found <==> Reaches(rel, start, target)
  {
    hide Reaches, Next, Nodes, Frontier;
    ReachesSelf(rel, start);
    if start == target {
      return true;
    }
    var seen: set<EvidenceID> := {};
    var stack := [start];
    FrontierStarts(rel, start, target);
    ghost var all := Nodes(rel) + {start};
    while |stack| > 0
      invariant Frontier(rel, start, target, seen, stack)
      invariant seen <= all && forall x :: x in stack ==> x in all
      decreases all - seen, |stack|
    {
      var current := stack[|stack| - 1];
      ghost var before := stack;
      stack := stack[..|stack| - 1];
      assert before == stack + [current];
      if current in seen {
        FrontierStep(rel, start, target, seen, stack, current, []);
        assert seen + {current} == seen && stack + [] == stack;
        continue;
      }
      ghost var seenBefore := seen;
      seen := seen + {current};
      assert current in all - seenBefore && current !in all - seen;
      FrontierHolds(rel, start, target, seenBefore, before, current);
      var pushed;
      pushed, found := Push(rel, current, target);
      if found {
        ReachesExtend(rel, start, current, target);
        return;
      }
      forall x | x in pushed ensures Reaches(rel, start, x) && x in all {
        ReachesExtend(rel, start, current, x);
        NextIsNode(rel, current, x);
      }
      FrontierStep(rel, start, target, seenBefore, stack, current, pushed);
      stack := stack + pushed;
    }
    ClosedIsUnreached(rel, seen, start, target);
    return false;
  }

  /** Stacks every successor of one node, in any order, unless one is the target. */
  method Push(rel: Relation, current: EvidenceID, target: EvidenceID) returns (pushed: seq<EvidenceID>, found: bool)
    ensures found <==> target in Next(rel, current)
    ensures !found ==> forall x :: x in pushed <==> x in Next(rel, current)
  {
    pushed := [];
    var todo := Next(rel, current);
    while todo != {}
      invariant todo <= Next(rel, current) && target !in Next(rel, current) - todo
      invariant forall x :: x in pushed <==> x in Next(rel, current) - todo
      decreases todo
    {
      var next :| next in todo;
      if next == target {
        return pushed, true;
      }
      todo := todo - {next};
      pushed := pushed + [next];
    }
    return pushed, false;
  }

  lemma ClosedIsUnreached(rel: Relation, seen: set<EvidenceID>, start: EvidenceID, target: EvidenceID)
    requires Frontier(rel, start, target, seen, [])
    ensures !Reaches(rel, start, target)
  {
    if Reaches(rel, start, target) {
      var p :| Path(rel, p) && p[0] == start && p[|p| - 1] == target;
      StaysInside(rel, seen, p);
    }
  }

  // ---- findCycle ----

  datatype Mark = OnPath | Finished

  /** Every edge out of a finished node goes to a node finished before it. */
  ghost predicate FinishOrder(rel: Relation, done: seq<EvidenceID>) {
    && (forall i, j :: 0 <= i < j < |done| ==> done[i] != done[j])
    && (forall i, y :: 0 <= i < |done| && y in Next(rel, done[i]) ==> y in done[..i])
  }

  lemma {:induction false} WalksFinishEarlier(rel: Relation, done: seq<EvidenceID>, p: seq<EvidenceID>, i: nat)
    returns (j: nat)
    requires FinishOrder(rel, done)
    requires Path(rel, p) && i < |done| && p[0] == done[i]
    ensures j <= i && done[j] == p[|p| - 1]
    ensures |p| >= 2 ==> j < i
    decreases i
  {
    if |p| == 1 {
      return i;
    }
    assert p[1] in done[..i];
    var k :| 0 <= k < i && done[k] == p[1];
    j := WalksFinishEarlier(rel, done, p[1..], k);
  }

  lemma FinishNext(rel: Relation, done: seq<EvidenceID>, id: EvidenceID)
    requires FinishOrder(rel, done) && id !in done
    requires forall y :: y in Next(rel, id) ==> y in done
    ensures FinishOrder(rel, done + [id])
  {
    var more := done + [id];
    forall i, y | 0 <= i < |more| && y in Next(rel, more[i]) ensures y in more[..i] {
      assert i < |done| ==> more[..i] == done[..i];
      assert i == |done| ==> more[..i] == done;
    }
  }

  lemma ExtendPath(rel: Relation, path: seq<EvidenceID>, id: EvidenceID)
    requires path != [] ==> Path(rel, path) && id in Next(rel, path[|path| - 1])
    ensures Path(rel, path + [id])
  {
  }

  lemma NextIsNode(rel: Relation, id: EvidenceID, to: EvidenceID)
    requires to in Next(rel, id)
    ensures to in Nodes(rel)
  {
  }

  /** Meeting a node of the current path again closes a cycle through it. */
  lemma BackOnPath(rel: Relation, path: seq<EvidenceID>, id: EvidenceID)
    requires id in path && Path(rel, path) && id in Next(rel, path[|path| - 1])
    ensures OnCycle(rel, id)
  {
    var k :| 0 <= k < |path| && path[k] == id;
    var loop := path[k..] + [id];
    assert Path(rel, loop) && |loop| >= 2 && loop[0] == id && loop[|loop| - 1] == id;
  }

  /** What the marks mean: the current path, and everything finished, in order. */
  ghost predicate Coloured(
    rel: Relation, mark: map<EvidenceID, Mark>, done: seq<EvidenceID>, path: seq<EvidenceID>)
  {
    && (forall x :: x in path <==> x in mark && mark[x] == OnPath)
    && (forall x :: x in done <==> x in mark && mark[x] == Finished)
    && FinishOrder(rel, done)
    && (path != [] ==> Path(rel, path))
  }

  lemma Enter(rel: Relation, mark: map<EvidenceID, Mark>, done: seq<EvidenceID>, path: seq<EvidenceID>, id: EvidenceID)
    requires Coloured(rel, mark, done, path) && id !in mark
    requires path != [] ==> id in Next(rel, path[|path| - 1])
    ensures Coloured(rel, mark[id := OnPath], done, path + [id])
  {
    hide FinishOrder;
    ExtendPath(rel, path, id);
  }

  lemma Leave(rel: Relation, mark: map<EvidenceID, Mark>, done: seq<EvidenceID>, path: seq<EvidenceID>, id: EvidenceID)
    requires Coloured(rel, mark, done, path + [id]) && id !in path
    requires path != [] ==> Path(rel, path)
    requires forall y :: y in Next(rel, id) ==> y in done
    ensures Coloured(rel, mark[id := Finished], done + [id], path)
  {
    hide FinishOrder, Path, Next;
    assert id in path + [id];
    FinishNext(rel, done, id);
  }

  /** The three-colour search behind findCycle: unvisited, on the current path, finished. */
  class CycleSearch {
    const rel: Relation
    var mark: map<EvidenceID, Mark>
    ghost var done: seq<EvidenceID>

    ghost predicate Consistent(path: seq<EvidenceID>)
      reads this
    {
      Coloured(rel, mark, done, path)
    }

    constructor (rel: Relation)
      ensures this.rel == rel && mark == map[] && done == []
    {
      this.rel := rel;
      mark := map[];
      done := [];
    }

    method Visit(id: EvidenceID, ghost path: seq<EvidenceID>) returns (node: EvidenceID, found: bool)
      requires Consistent(path) && id in Nodes(rel)
      requires path != [] ==> id in Next(rel, path[|path| - 1])
      modifies this
      ensures found ==> OnCycle(rel, node)
      ensures !found ==> Consistent(path) && id in done
      ensures !found ==> forall x :: x in old(done) ==> x in done
      ensures old(mark).Keys <= mark.Keys
      decreases Nodes(rel) - mark.Keys
    {
      hide Ascending, OnCycle, Coloured, Path, Nodes;
      ColoursOf(path, id);
      if id in mark && mark[id] == OnPath {
        BackOnPath(rel, path, id);
        return id, true;
      }
      if id in mark {
        return "", false;
      }
      assert id in Nodes(rel) - mark.Keys;
      Enter(rel, mark, done, path, id);
      mark := mark[id := OnPath];
      var next := SortedElements(Next(rel, id));
      var i := 0;
      while i < |next|
        invariant 0 <= i <= |next|
        invariant Consistent(path + [id])
        invariant old(mark).Keys + {id} <= mark.Keys
        invariant forall x :: x in old(done) ==> x in done
        invariant forall k :: 0 <= k < i ==> next[k] in done
      {
        assert next[i] in Next(rel, id);
        NextIsNode(rel, id, next[i]);
        node, found := Visit(next[i], path + [id]);
        if found {
          return;
        }
        i := i + 1;
      }
      Leave(rel, mark, done, path, id);
      mark := mark[id := Finished];
      done := done + [id];
      return "", false;
    }

    lemma ColoursOf(path: seq<EvidenceID>, id: EvidenceID)
      requires Consistent(path)
      ensures id in path <==> id in mark && mark[id] == OnPath
      ensures id in done <==> id in mark && mark[id] == Finished
      ensures path != [] ==> Path(rel, path)
    {
    }
  }

  /** findCycle is exact: it reports a node if and only if there is a cycle, and
  the node it reports lies on one. */
  method FindCycle(rel: Relation) returns (node: EvidenceID, found: bool)
    ensures found <==> !Acyclic(rel)
    ensures found ==> OnCycle(rel, node)
  {
    hide OnCycle, Ascending;
    var search := new CycleSearch(rel);
    var starts := SortedElements(rel.Keys);
    var i := 0;
    while i < |starts|
      invariant 0 <= i <= |starts|
      invariant search.Consistent([])
      invariant forall k :: 0 <= k < i ==> starts[k] in search.done
    {
      assert starts[i] in rel.Keys;
      node, found := search.Visit(starts[i], []);
      if found {
        return;
      }
      i := i + 1;
    }
    forall x ensures !OnCycle(rel, x) {
      FinishedHasNoCycle(rel, search.done, x);
    }
    return "", false;
  }

  lemma FinishedHasNoCycle(rel: Relation, done: seq<EvidenceID>, x: EvidenceID)
    requires FinishOrder(rel, done)
    requires forall k :: k in rel ==> k in done
    ensures !OnCycle(rel, x)
  {
    if OnCycle(rel, x) {
      var p :| Path(rel, p) && |p| >= 2 && p[0] == x && p[|p| - 1] == x;
      assert p[1] in Next(rel, x);
      var i :| 0 <= i < |done| && done[i] == x;
      var j := WalksFinishEarlier(rel, done, p, i);
    }
  }
}
