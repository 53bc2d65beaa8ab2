/** The shape a recorded sweep has in a frozen graph, seen from its advertisement. */
module SweepShapes {
  import opened Relations
  import opened Evidences
  import opened Graphs
  import opened Identifiers
  import opened Hosts
  import opened Transports
  import opened SweepGraphs
  import opened Completeness
  import opened CompletenessLaws

  // ---- the chain ----

  /** A lookup comes first or not at all, connections hang under it or under the root,
  and a handshake follows its connection, skipped exactly when that did not pass. */
  ghost predicate Shaped(sweep: seq<Measured>, named: bool) {
    forall j :: 0 <= j < |sweep| ==> StepShaped(sweep, named, j)
  }

  ghost predicate StepShaped(sweep: seq<Measured>, named: bool, j: nat)
    requires j < |sweep|
  {
    var m := sweep[j];
    && (m.step == STEP_LOOKUP <==> named && j == 0)
    && (m.step == STEP_LOOKUP ==> m.under == 0)
    && (m.step == STEP_CONNECT ==> m.under == if named then 1 else 0)
    && (m.step == STEP_HANDSHAKE ==>
      && m.under == j > 0 && sweep[j - 1].step == STEP_CONNECT
      && (m.seen.state == Skipped <==> sweep[j - 1].seen.state != Pass))
    && TransportStep(m.step)
  }

  lemma {:induction false} ChainShape(
    p: Params, net: Network, start: seq<Measured>, addresses: seq<string>, left: nat, cause: FailureClass)
    requires SoundNetwork(net) && (start == [] || start == [LookupStep(p, net.lookup.seen)])
    ensures Shaped(Chain(p, net, start, addresses, left, cause), start != [])
    ensures start <= Chain(p, net, start, addresses, left, cause)
    ensures addresses != [] ==> exists j ::
      0 <= j < |Chain(p, net, start, addresses, left, cause)|
      && Chain(p, net, start, addresses, left, cause)[j].step == STEP_CONNECT
  {
    hide JoinHostPort, SoundNetwork;
    StepNames();
    if addresses != [] {
      var k := |addresses| - 1;
      ChainShape(p, net, start, addresses[..k], left, cause);
      var before := Chain(p, net, start, addresses[..k], left, cause);
      var connect := ConnectSeen(net, addresses[k], k < left, cause);
      HandshakeAnswers(net, addresses[k]);
      AttemptShape(p, net, before, start, addresses[k], connect);
      assert Chain(p, net, start, addresses, left, cause)[|before|].step == STEP_CONNECT;
    }
  }

  lemma HandshakeAnswers(net: Network, address: string)
    requires SoundNetwork(net)
    ensures net.handshake(address).state != Skipped
  {
  }

  lemma AttemptShape(
    p: Params, net: Network, before: seq<Measured>, start: seq<Measured>, address: string, connect: Seen)
    requires Shaped(before, start != []) && |start| <= 1 && start <= before && net.handshake(address).state != Skipped
    ensures Shaped(before + Attempt(p, net, address, connect, |start|, |before|), start != [])
  {
    hide JoinHostPort;
    StepNames();
    var sweep, named := before + Attempt(p, net, address, connect, |start|, |before|), start != [];
    forall j | 0 <= j < |sweep| ensures StepShaped(sweep, named, j) {
      if j < |before| {
        assert StepShaped(before, named, j);
      }
    }
  }

  // ---- the steps in the graph ----

  ghost predicate IsStep(scope: SweepScope, sweep: seq<Measured>, j: nat, id: EvidenceID) {
    j < |sweep| && MeasuredId(scope, sweep[j]) == id
  }

  /** Only steps of the sweep hang under its root and under its steps. */
  ghost predicate Alone(scope: SweepScope, root: EvidenceID, sweep: seq<Measured>, c: Content) {
    forall child, p :: p in Next(c.parents, child) && (p == root || exists a: nat :: IsStep(scope, sweep, a, p)) ==>
      exists j: nat :: IsStep(scope, sweep, j, child)
  }

  /** A sweep with all its steps recorded and nobody else's under them. */
  ghost predicate Placed(scope: SweepScope, root: EvidenceID, sweep: seq<Measured>, c: Content) {
    && ValidSweep(sweep) && (forall j :: 0 <= j < |sweep| ==> RecordedStep(scope, root, sweep, j, c))
    && (forall j :: 0 <= j < |sweep| ==> MeasuredId(scope, sweep[j]) != root)
    && Alone(scope, root, sweep, c)
  }

  /** The graph a builder's content freezes into. */
  ghost predicate FreezesInto(c: Content, g: Graph) {
    Frozen(g) && g.nodes == c.nodes && ParentRelation(g) == c.parents && BlockRelation(g) == c.blockedBy
  }

  lemma StepNode(scope: SweepScope, root: EvidenceID, sweep: seq<Measured>, c: Content, j: nat)
    requires Placed(scope, root, sweep, c) && j < |sweep|
    ensures var id := MeasuredId(scope, sweep[j]);
      id in c.nodes && c.nodes[id].step == sweep[j].step && c.nodes[id].state == sweep[j].seen.state
      && c.nodes[id].failureClass == sweep[j].seen.failureClass
      && Next(c.parents, id) == {ParentOf(scope, root, sweep, j)}
  {
    hide MeasuredId, ValidSweep, Alone, ParentOf;
    assert RecordedStep(scope, root, sweep, j, c);
  }

  /** The children of the root or of a step: the steps derived from it. */
  lemma StepChildren(
    scope: SweepScope, root: EvidenceID, sweep: seq<Measured>, c: Content, g: Graph, p: EvidenceID, x: EvidenceID)
    requires Placed(scope, root, sweep, c) && FreezesInto(c, g)
    requires p == root || exists a: nat :: IsStep(scope, sweep, a, p)
    ensures x in g.Children(p) <==> exists j: nat :: IsStep(scope, sweep, j, x) && ParentOf(scope, root, sweep, j) == p
  {
    hide MeasuredId, ValidSweep, ParentOf, Frozen, RecordedStep;
    ChildrenInvertParents(g, x, p);
    if x in g.Children(p) {
      var j: nat :| IsStep(scope, sweep, j, x);
      StepNode(scope, root, sweep, c, j);
    }
    if j: nat :| IsStep(scope, sweep, j, x) && ParentOf(scope, root, sweep, j) == p {
      StepNode(scope, root, sweep, c, j);
    }
  }

  lemma BelowStep(
    scope: SweepScope, root: EvidenceID, sweep: seq<Measured>, c: Content, g: Graph, p: EvidenceID, step: Step,
    x: EvidenceID)
    requires Placed(scope, root, sweep, c) && FreezesInto(c, g)
    requires p == root || exists a: nat :: IsStep(scope, sweep, a, p)
    ensures x in Below(g, p, step) <==>
      exists j: nat :: IsStep(scope, sweep, j, x) && ParentOf(scope, root, sweep, j) == p && sweep[j].step == step
  {
    hide MeasuredId, ValidSweep, ParentOf, Frozen, Placed;
    StepChildren(scope, root, sweep, c, g, p, x);
    forall j: nat | IsStep(scope, sweep, j, x) ensures x in g.nodes && g.nodes[x].step == sweep[j].step {
      StepNode(scope, root, sweep, c, j);
    }
  }

  /** Which step a step of a shaped sweep hangs under. */
  lemma ParentOfShaped(scope: SweepScope, root: EvidenceID, sweep: seq<Measured>, named: bool, j: nat)
    requires Shaped(sweep, named) && j < |sweep| && (named ==> sweep[0].step == STEP_LOOKUP)
    ensures sweep[j].step == STEP_LOOKUP ==> ParentOf(scope, root, sweep, j) == root && j == 0
    ensures sweep[j].step == STEP_CONNECT ==>
      ParentOf(scope, root, sweep, j) == if named then MeasuredId(scope, sweep[0]) else root
    ensures sweep[j].step == STEP_HANDSHAKE ==>
      j > 0 && sweep[j - 1].step == STEP_CONNECT && ParentOf(scope, root, sweep, j) == MeasuredId(scope, sweep[j - 1])
  {
    hide MeasuredId;
    StepNames();
    assert StepShaped(sweep, named, j);
  }

  ghost function Connections(scope: SweepScope, sweep: seq<Measured>): set<EvidenceID> {
    set j | 0 <= j < |sweep| && sweep[j].step == STEP_CONNECT :: MeasuredId(scope, sweep[j])
  }

  lemma ConnectionIsStep(scope: SweepScope, sweep: seq<Measured>, c: EvidenceID) returns (i: nat)
    requires c in Connections(scope, sweep)
    ensures IsStep(scope, sweep, i, c) && sweep[i].step == STEP_CONNECT
  {
    hide MeasuredId;
    i :| 0 <= i < |sweep| && sweep[i].step == STEP_CONNECT && MeasuredId(scope, sweep[i]) == c;
  }

  lemma StepAt(scope: SweepScope, sweep: seq<Measured>, i: nat, j: nat, id: EvidenceID)
    requires ValidSweep(sweep) && IsStep(scope, sweep, i, id) && IsStep(scope, sweep, j, id)
    ensures i == j
  {
    hide MeasuredId, ValidMeasured;
    SweepIdsDiffer(scope, sweep);
  }

  /** What hangs under a node, when it hangs only there. */
  lemma RootsAre(scope: SweepScope, root: EvidenceID, sweep: seq<Measured>, c: Content, g: Graph, named: bool)
    requires Placed(scope, root, sweep, c) && FreezesInto(c, g) && Shaped(sweep, named)
    requires named ==> sweep != [] && sweep[0].step == STEP_LOOKUP
    ensures forall x :: x in Roots(g, root) <==>
      exists j: nat :: IsStep(scope, sweep, j, x) && sweep[j].step == if named then STEP_LOOKUP else STEP_CONNECT
  {
    hide MeasuredId, ParentOf, Frozen, Placed, Shaped, FreezesInto;
    forall x ensures x in Roots(g, root) <==>
      exists j: nat :: IsStep(scope, sweep, j, x) && sweep[j].step == if named then STEP_LOOKUP else STEP_CONNECT
    {
      StepChildren(scope, root, sweep, c, g, root, x);
      forall j: nat | IsStep(scope, sweep, j, x)
        ensures ParentOf(scope, root, sweep, j) == root <==>
          sweep[j].step == if named then STEP_LOOKUP else STEP_CONNECT
      {
        HangsUnderRoot(scope, root, sweep, c, named, j);
      }
    }
  }

  lemma HangsUnderRoot(scope: SweepScope, root: EvidenceID, sweep: seq<Measured>, c: Content, named: bool, j: nat)
    requires Placed(scope, root, sweep, c) && Shaped(sweep, named) && j < |sweep|
    requires named ==> sweep[0].step == STEP_LOOKUP
    ensures ParentOf(scope, root, sweep, j) == root <==>
      sweep[j].step == if named then STEP_LOOKUP else STEP_CONNECT
  {
    hide MeasuredId, ParentOf, ValidSweep, Alone, RecordedStep;
    StepNames();
    ParentOfShaped(scope, root, sweep, named, j);
    assert StepShaped(sweep, named, j);
  }

  /** A name's sweep: one lookup under the advertisement, every connection under it. */
  lemma NamedShape(scope: SweepScope, root: EvidenceID, sweep: seq<Measured>, c: Content, g: Graph)
    requires Placed(scope, root, sweep, c) && FreezesInto(c, g) && Shaped(sweep, true)
    requires sweep != [] && sweep[0].step == STEP_LOOKUP
    ensures IsLookup(g, root, MeasuredId(scope, sweep[0]))
    ensures Below(g, MeasuredId(scope, sweep[0]), STEP_CONNECT) == Connections(scope, sweep)
  {
    hide MeasuredId, ParentOf, Frozen, Placed, Shaped, FreezesInto, Below, Roots;
    var lookup := MeasuredId(scope, sweep[0]);
    assert IsStep(scope, sweep, 0, lookup);
    RootsAre(scope, root, sweep, c, g, true);
    forall x ensures x in Roots(g, root) <==> x == lookup {
      forall j: nat | IsStep(scope, sweep, j, x) && sweep[j].step == STEP_LOOKUP ensures j == 0 {
        LookupIsFirst(sweep, j);
      }
    }
    forall x ensures x in Below(g, root, STEP_LOOKUP) <==> x == lookup {
      BelowStep(scope, root, sweep, c, g, root, STEP_LOOKUP, x);
      HangsUnderRoot(scope, root, sweep, c, true, 0);
      forall j: nat | IsStep(scope, sweep, j, x) && sweep[j].step == STEP_LOOKUP ensures j == 0 {
        LookupIsFirst(sweep, j);
      }
    }
    forall x ensures x in Below(g, lookup, STEP_CONNECT) <==> x in Connections(scope, sweep) {
      BelowStep(scope, root, sweep, c, g, lookup, STEP_CONNECT, x);
      forall j: nat | IsStep(scope, sweep, j, x) && sweep[j].step == STEP_CONNECT
        ensures ParentOf(scope, root, sweep, j) == lookup
      {
        ParentOfShaped(scope, root, sweep, true, j);
      }
      ConnectionsAre(scope, sweep, x);
    }
  }

  lemma LookupIsFirst(sweep: seq<Measured>, j: nat)
    requires Shaped(sweep, true) && j < |sweep| && sweep[j].step == STEP_LOOKUP
    ensures j == 0
  {
    assert StepShaped(sweep, true, j);
  }

  lemma ConnectionsAre(scope: SweepScope, sweep: seq<Measured>, x: EvidenceID)
    ensures x in Connections(scope, sweep) <==>
      exists j: nat :: IsStep(scope, sweep, j, x) && sweep[j].step == STEP_CONNECT
  {
    hide MeasuredId;
    if x in Connections(scope, sweep) {
      var j := ConnectionIsStep(scope, sweep, x);
    }
  }

  /** An address needs no lookup: its connections hang under the advertisement. */
  lemma LiteralSweepShape(scope: SweepScope, root: EvidenceID, sweep: seq<Measured>, c: Content, g: Graph)
    requires Placed(scope, root, sweep, c) && FreezesInto(c, g) && Shaped(sweep, false)
    ensures Roots(g, root) == Connections(scope, sweep) == Below(g, root, STEP_CONNECT)
  {
    hide MeasuredId, ParentOf, Frozen, Placed, Shaped, FreezesInto, Below, Roots;
    RootsAre(scope, root, sweep, c, g, false);
    forall x
      ensures x in Roots(g, root) <==> x in Connections(scope, sweep)
      ensures x in Below(g, root, STEP_CONNECT) <==> x in Connections(scope, sweep)
    {
      ConnectionsAre(scope, sweep, x);
      BelowStep(scope, root, sweep, c, g, root, STEP_CONNECT, x);
      forall j: nat | IsStep(scope, sweep, j, x) && sweep[j].step == STEP_CONNECT
        ensures ParentOf(scope, root, sweep, j) == root
      {
        HangsUnderRoot(scope, root, sweep, c, false, j);
      }
    }
  }

  /** The handshake over a connection is the next step, if it is a handshake at all. */
  lemma HandshakeIsNext(
    scope: SweepScope, root: EvidenceID, sweep: seq<Measured>, c: Content, g: Graph, named: bool, i: nat, x: EvidenceID)
    requires Placed(scope, root, sweep, c) && FreezesInto(c, g) && Shaped(sweep, named) && i < |sweep|
    requires named ==> sweep[0].step == STEP_LOOKUP
    requires x in Below(g, MeasuredId(scope, sweep[i]), STEP_HANDSHAKE)
    ensures IsStep(scope, sweep, i + 1, x) && sweep[i + 1].step == STEP_HANDSHAKE
  {
    hide MeasuredId, ParentOf, Frozen, Shaped, FreezesInto, Below, Alone, RecordedStep, ValidSweep;
    assert IsStep(scope, sweep, i, MeasuredId(scope, sweep[i]));
    BelowStep(scope, root, sweep, c, g, MeasuredId(scope, sweep[i]), STEP_HANDSHAKE, x);
    var j: nat :| IsStep(scope, sweep, j, x) && sweep[j].step == STEP_HANDSHAKE
      && ParentOf(scope, root, sweep, j) == MeasuredId(scope, sweep[i]);
    ParentOfShaped(scope, root, sweep, named, j);
    StepAt(scope, sweep, i, j - 1, MeasuredId(scope, sweep[i]));
  }

  /** The sweep is of the shape the verdict is read from. */
  lemma ShapeIsRead(scope: SweepScope, root: EvidenceID, sweep: seq<Measured>, c: Content, g: Graph, named: bool)
    requires Placed(scope, root, sweep, c) && FreezesInto(c, g) && Shaped(sweep, named)
    requires named ==> sweep != [] && sweep[0].step == STEP_LOOKUP
    ensures WellFormed(g, Connections(scope, sweep)) && HandshakesFollow(g, Connections(scope, sweep))
  {
    hide MeasuredId, Frozen, Shaped, FreezesInto, Below, Placed, Connections, FollowsOn;
    var connections := Connections(scope, sweep);
    forall d | d in connections ensures |Below(g, d, STEP_HANDSHAKE)| <= 1 {
      var i := ConnectionIsStep(scope, sweep, d);
      forall x, y | x in Below(g, d, STEP_HANDSHAKE) && y in Below(g, d, STEP_HANDSHAKE) ensures x == y {
        HandshakeIsNext(scope, root, sweep, c, g, named, i, x);
        HandshakeIsNext(scope, root, sweep, c, g, named, i, y);
      }
      AtMostOne(Below(g, d, STEP_HANDSHAKE));
    }
    forall d, x | d in connections && x in Below(g, d, STEP_HANDSHAKE)
      ensures FollowsOn(g, d, x)
    {
      HandshakeFollows(scope, root, sweep, c, g, named, d, x);
    }
  }

  lemma HandshakeFollows(
    scope: SweepScope, root: EvidenceID, sweep: seq<Measured>, c: Content, g: Graph, named: bool, d: EvidenceID,
    x: EvidenceID)
    requires Placed(scope, root, sweep, c) && FreezesInto(c, g) && Shaped(sweep, named)
    requires named ==> sweep != [] && sweep[0].step == STEP_LOOKUP
    requires d in Connections(scope, sweep) && x in Below(g, d, STEP_HANDSHAKE)
    ensures FollowsOn(g, d, x)
  {
    hide MeasuredId, Frozen, Shaped, Placed, Connections, ParentOf, RecordedStep;
    var i := ConnectionIsStep(scope, sweep, d);
    HandshakeIsNext(scope, root, sweep, c, g, named, i, x);
    HandshakeTells(sweep, named, i + 1);
    StepNode(scope, root, sweep, c, i);
    StepNode(scope, root, sweep, c, i + 1);
    forall e | x in Below(g, e, STEP_HANDSHAKE) ensures e == d {
      ParentOfShaped(scope, root, sweep, named, i + 1);
      OnlyParent(scope, root, sweep, c, g, i + 1, e);
    }
  }

  lemma HandshakeTells(sweep: seq<Measured>, named: bool, j: nat)
    requires Shaped(sweep, named) && j < |sweep| && sweep[j].step == STEP_HANDSHAKE
    ensures j > 0 && (sweep[j].seen.state == Skipped <==> sweep[j - 1].seen.state != Pass)
  {
    assert StepShaped(sweep, named, j);
  }

  lemma OnlyParent(
    scope: SweepScope, root: EvidenceID, sweep: seq<Measured>, c: Content, g: Graph, j: nat, e: EvidenceID)
    requires Placed(scope, root, sweep, c) && FreezesInto(c, g) && j < |sweep|
    requires MeasuredId(scope, sweep[j]) in g.Children(e)
    ensures e == ParentOf(scope, root, sweep, j)
  {
    hide MeasuredId, Frozen, Placed, ParentOf;
    StepNode(scope, root, sweep, c, j);
    ChildrenInvertParents(g, MeasuredId(scope, sweep[j]), e);
  }

  lemma {:induction false} AtMostOne<T>(s: set<T>)
    requires forall x, y :: x in s && y in s ==> x == y
    ensures |s| <= 1
  {
    if x :| x in s {
      assert s == {x};
    }
  }
}
