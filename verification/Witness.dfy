/** Graphs at the edge of the verdict: each is built and frozen like any other. */
module Witnesses {
  import opened Text
  import opened Relations
  import opened Evidences
  import opened Graphs
  import opened Advertisements
  import opened Recording
  import opened Transports
  import opened Completeness
  import opened CompletenessLaws
  import opened Verdicts

  // ---- a missed address leaves the verdict open ----

  /** One name with two addresses: one failed, the other was never tried. */
  ghost predicate TwoAddresses(g: Graph, ad: EvidenceID, l: EvidenceID, a: EvidenceID, b: EvidenceID) {
    && Frozen(g) && ad != l && l != a && l != b && a != b && ad != a && ad != b
    && RecordsStep(g, l, STEP_LOOKUP) && InState(g, l, Pass)
    && RecordsStep(g, a, STEP_CONNECT) && InState(g, a, Fail)
    && RecordsStep(g, b, STEP_CONNECT) && InState(g, b, Skipped) && g.nodes[b].failureClass == ExecLocalTimeout
    && forall x :: Next(ParentRelation(g), x) == if x == l then {ad} else if x == a || x == b then {l} else {}
  }

  lemma TwoAddressChildren(g: Graph, ad: EvidenceID, l: EvidenceID, a: EvidenceID, b: EvidenceID)
    requires TwoAddresses(g, ad, l, a, b)
    ensures Roots(g, ad) == {l} && Roots(g, l) == {a, b} && Roots(g, a) == {} && Roots(g, b) == {}
  {
    hide Frozen, RecordsStep, InState, ParentRelation, Next;
    forall x
      ensures x in Roots(g, ad) <==> x == l
      ensures x in Roots(g, l) <==> x == a || x == b
      ensures x !in Roots(g, a) && x !in Roots(g, b)
    {
      ChildrenInvertParents(g, x, ad);
      ChildrenInvertParents(g, x, l);
      ChildrenInvertParents(g, x, a);
      ChildrenInvertParents(g, x, b);
    }
  }

  lemma NothingBelow(g: Graph, id: EvidenceID, step: Step)
    requires Roots(g, id) == {}
    ensures Below(g, id, step) == {}
  {
    forall x ensures x !in Below(g, id, step) {
      assert x !in Roots(g, id);
    }
  }

  /** Resolved by the predicate, unreachable as measured, and reachable had the missed
  address answered: only the context can tell such a run from a finished one. */
  lemma MissedAddress(g: Graph, ad: EvidenceID, l: EvidenceID, a: EvidenceID, b: EvidenceID)
    requires TwoAddresses(g, ad, l, a, b)
    ensures Resolved(g, ad) && !LookupStopped(g, ad) && !VerdictStands(g, ad)
  {
    hide Frozen, VerdictStands, ParentRelation;
    TwoAddressChildren(g, ad, l, a, b);
    StepNames();
    var connections := {a, b};
    assert l in Roots(g, ad) && a in Roots(g, l) && b in Roots(g, l);
    assert Below(g, ad, STEP_LOOKUP) == {l} && Below(g, l, STEP_CONNECT) == connections;
    NothingBelow(g, a, STEP_HANDSHAKE);
    NothingBelow(g, b, STEP_HANDSHAKE);
    assert NamedSweep(g, ad, l);
    assert Sweep(g, ad, connections);
    OneSweep(g, ad, connections);
    OneLookup(g, ad, l);
    assert Unattempted(g, b);
    ResolvedIffVerdictStands(g, ad, connections);
  }

  function NodeFor(id: EvidenceID, layer: Layer, step: Step, state: State, failureClass: FailureClass): Evidence {
    Evidence(id, Subject(SubjectKindEndpoint, id), layer, step, state, failureClass)
  }

  lemma NodeForIsBuilt(id: EvidenceID, layer: Layer, step: Step, state: State, failureClass: FailureClass)
    requires ValidIdentifier(id) && ValidDottedName(step) && layer.Valid()
    requires (state == Pass ==> failureClass == FailureNone) && (state == Fail ==> failureClass != FailureNone)
    ensures NodeFor(id, layer, step, state, failureClass).Built()
    ensures !NodeFor(id, layer, step, state, failureClass).IsZero()
  {
    hide ValidDottedName;
  }

  /** The four nodes of such a graph. */
  function FourNodes(ad: EvidenceID, l: EvidenceID, a: EvidenceID, b: EvidenceID): map<EvidenceID, Evidence> {
    map[
      ad := NodeFor(ad, LayerTopology, STEP_BROKER_ADVERTISED, Pass, FailureNone),
      l := NodeFor(l, LayerDNS, STEP_LOOKUP, Pass, FailureNone),
      a := NodeFor(a, LayerTCP, STEP_CONNECT, Fail, OtherFailure(0)),
      b := NodeFor(b, LayerTCP, STEP_CONNECT, Skipped, ExecLocalTimeout)]
  }

  function ThreeEdges(ad: EvidenceID, l: EvidenceID, a: EvidenceID, b: EvidenceID): Relation {
    WithEdge(WithEdge(WithEdge(map[], l, ad), a, l), b, l)
  }

  lemma FourNodesShape(g: Graph, ad: EvidenceID, l: EvidenceID, a: EvidenceID, b: EvidenceID)
    requires ad != l && ad != a && ad != b && l != a && l != b && a != b
    requires Frozen(g) && g.nodes == FourNodes(ad, l, a, b) && ParentRelation(g) == ThreeEdges(ad, l, a, b)
    ensures TwoAddresses(g, ad, l, a, b) && Promised(g, ad)
  {
    hide Frozen, ParentRelation, ThreeEdges, Next;
    EdgesShape(ad, l, a, b);
  }

  lemma EdgesShape(ad: EvidenceID, l: EvidenceID, a: EvidenceID, b: EvidenceID)
    requires l != a && l != b && a != b
    ensures forall x ::
      Next(ThreeEdges(ad, l, a, b), x) == if x == l then {ad} else if x == a || x == b then {l} else {}
  {
    assert {} + {ad} == {ad} && {} + {l} == {l};
  }

  /** Such a graph is built and frozen like any other. */
  method TwoAddressGraph(ad: EvidenceID, l: EvidenceID, a: EvidenceID, b: EvidenceID) returns (g: Graph)
    requires ValidIdentifier(ad) && ValidIdentifier(l) && ValidIdentifier(a) && ValidIdentifier(b)
    requires ad != l && ad != a && ad != b && l != a && l != b && a != b
    ensures TwoAddresses(g, ad, l, a, b) && Promised(g, ad)
  {
    hide Filed, LegalGraph, ValidIdentifier, ValidDottedName, Evidence.Built, Evidence.IsZero, GraphOf, NodeFor,
      Frozen, TwoAddresses, Promised, WithEdge, FourNodes, ThreeEdges, TransportStep;
    FourNodesAreBuilt(ad, l, a, b);
    FourNodesNow(ad, l, a, b);
    var builder := new GraphBuilder();
    var r := builder.AddEvidence(NodeFor(ad, LayerTopology, STEP_BROKER_ADVERTISED, Pass, FailureNone));
    r := Record(builder, NodeFor(l, LayerDNS, STEP_LOOKUP, Pass, FailureNone), ad);
    r := Record(builder, NodeFor(a, LayerTCP, STEP_CONNECT, Fail, OtherFailure(0)), l);
    r := Record(builder, NodeFor(b, LayerTCP, STEP_CONNECT, Skipped, ExecLocalTimeout), l);
    var frozen := builder.Freeze();
    GraphOfIsFrozen(builder.nodes, builder.parents, builder.blockedBy);
    g := frozen.value;
    FourNodesShape(g, ad, l, a, b);
  }

  lemma FourNodesAreBuilt(ad: EvidenceID, l: EvidenceID, a: EvidenceID, b: EvidenceID)
    requires ValidIdentifier(ad) && ValidIdentifier(l) && ValidIdentifier(a) && ValidIdentifier(b)
    ensures forall e ::
      (e == NodeFor(ad, LayerTopology, STEP_BROKER_ADVERTISED, Pass, FailureNone)
       || e == NodeFor(l, LayerDNS, STEP_LOOKUP, Pass, FailureNone)
       || e == NodeFor(a, LayerTCP, STEP_CONNECT, Fail, OtherFailure(0))
       || e == NodeFor(b, LayerTCP, STEP_CONNECT, Skipped, ExecLocalTimeout)) ==>
        e.Built() && !e.IsZero()
  {
    hide ValidIdentifier, ValidDottedName, Evidence.Built, Evidence.IsZero, NodeFor;
    TransportStepIsValid(STEP_LOOKUP);
    TransportStepIsValid(STEP_CONNECT);
    StepIsValid();
    NodeForIsBuilt(ad, LayerTopology, STEP_BROKER_ADVERTISED, Pass, FailureNone);
    NodeForIsBuilt(l, LayerDNS, STEP_LOOKUP, Pass, FailureNone);
    NodeForIsBuilt(a, LayerTCP, STEP_CONNECT, Fail, OtherFailure(0));
    NodeForIsBuilt(b, LayerTCP, STEP_CONNECT, Skipped, ExecLocalTimeout);
  }

  /** The four nodes and three edges as they are added. */
  lemma FourNodesNow(ad: EvidenceID, l: EvidenceID, a: EvidenceID, b: EvidenceID)
    ensures var n0: map<EvidenceID, Evidence> := map[];
      var n1 := n0[ad := NodeFor(ad, LayerTopology, STEP_BROKER_ADVERTISED, Pass, FailureNone)];
      var n2 := n1[l := NodeFor(l, LayerDNS, STEP_LOOKUP, Pass, FailureNone)];
      var n3 := n2[a := NodeFor(a, LayerTCP, STEP_CONNECT, Fail, OtherFailure(0))];
      n3[b := NodeFor(b, LayerTCP, STEP_CONNECT, Skipped, ExecLocalTimeout)] == FourNodes(ad, l, a, b)
    ensures ThreeEdges(ad, l, a, b) == WithEdge(WithEdge(WithEdge(map[], l, ad), a, l), b, l)
    ensures forall id, layer, step, state, failureClass {:trigger NodeFor(id, layer, step, state, failureClass)} ::
      NodeFor(id, layer, step, state, failureClass).id == id
  {
    hide WithEdge;
  }

  /** A frozen graph the predicate calls resolved although its verdict is open. */
  method MissedAddressWitness() returns (g: Graph, ad: EvidenceID)
    ensures Frozen(g) && Promised(g, ad) && Resolved(g, ad) && !LookupStopped(g, ad) && !VerdictStands(g, ad)
  {
    hide *;
    LetterIsIdentifier("a", "l", "x", "y");
    g := TwoAddressGraph("a", "l", "x", "y");
    ad := "a";
    MissedAddress(g, "a", "l", "x", "y");
    TwoAddressesFrozen(g, "a", "l", "x", "y");
  }

  lemma TwoAddressesFrozen(g: Graph, ad: EvidenceID, l: EvidenceID, a: EvidenceID, b: EvidenceID)
    requires TwoAddresses(g, ad, l, a, b)
    ensures Frozen(g)
  {
  }

  lemma LetterIsIdentifier(a: string, b: string, c: string, d: string)
    requires a == "a" && b == "l" && c == "x" && d == "y"
    ensures ValidIdentifier(a) && ValidIdentifier(b) && ValidIdentifier(c) && ValidIdentifier(d)
    ensures a != b && a != c && a != d && b != c && b != d && c != d
  {
  }

  // ---- two connections under one address ----

  /** A shape no sweep produces: two connections directly under the advertisement. */
  ghost predicate TwoLiterals(g: Graph, ad: EvidenceID, a: EvidenceID, b: EvidenceID) {
    && Frozen(g) && ad != a && ad != b && a != b
    && RecordsStep(g, a, STEP_CONNECT) && InState(g, a, Fail)
    && RecordsStep(g, b, STEP_CONNECT) && InState(g, b, Fail)
    && forall x :: Next(ParentRelation(g), x) == if x == a || x == b then {ad} else {}
  }

  function ThreeNodes(ad: EvidenceID, a: EvidenceID, b: EvidenceID): map<EvidenceID, Evidence> {
    map[
      ad := NodeFor(ad, LayerTopology, STEP_BROKER_ADVERTISED, Pass, FailureNone),
      a := NodeFor(a, LayerTCP, STEP_CONNECT, Fail, OtherFailure(0)),
      b := NodeFor(b, LayerTCP, STEP_CONNECT, Fail, OtherFailure(0))]
  }

  function TwoEdges(ad: EvidenceID, a: EvidenceID, b: EvidenceID): Relation {
    WithEdge(WithEdge(map[], a, ad), b, ad)
  }

  lemma TwoEdgesShape(ad: EvidenceID, a: EvidenceID, b: EvidenceID)
    requires a != b
    ensures forall x :: Next(TwoEdges(ad, a, b), x) == if x == a || x == b then {ad} else {}
  {
    assert {} + {ad} == {ad};
  }

  lemma ThreeNodesShape(g: Graph, ad: EvidenceID, a: EvidenceID, b: EvidenceID)
    requires ad != a && ad != b && a != b
    requires Frozen(g) && g.nodes == ThreeNodes(ad, a, b) && ParentRelation(g) == TwoEdges(ad, a, b)
    ensures TwoLiterals(g, ad, a, b) && Promised(g, ad)
  {
    hide Frozen, ParentRelation, TwoEdges, Next;
    TwoEdgesShape(ad, a, b);
  }

  method TwoLiteralGraph(ad: EvidenceID, a: EvidenceID, b: EvidenceID) returns (g: Graph)
    requires ValidIdentifier(ad) && ValidIdentifier(a) && ValidIdentifier(b) && ad != a && ad != b && a != b
    ensures TwoLiterals(g, ad, a, b) && Promised(g, ad)
  {
    hide Filed, LegalGraph, ValidIdentifier, ValidDottedName, Evidence.Built, Evidence.IsZero, GraphOf, NodeFor,
      Frozen, TwoLiterals, Promised, WithEdge, ThreeNodes, TwoEdges, TransportStep;
    ThreeNodesAreBuilt(ad, a, b);
    ThreeNodesNow(ad, a, b);
    var builder := new GraphBuilder();
    var r := builder.AddEvidence(NodeFor(ad, LayerTopology, STEP_BROKER_ADVERTISED, Pass, FailureNone));
    r := Record(builder, NodeFor(a, LayerTCP, STEP_CONNECT, Fail, OtherFailure(0)), ad);
    r := Record(builder, NodeFor(b, LayerTCP, STEP_CONNECT, Fail, OtherFailure(0)), ad);
    var frozen := builder.Freeze();
    GraphOfIsFrozen(builder.nodes, builder.parents, builder.blockedBy);
    g := frozen.value;
    ThreeNodesShape(g, ad, a, b);
  }

  lemma ThreeNodesAreBuilt(ad: EvidenceID, a: EvidenceID, b: EvidenceID)
    requires ValidIdentifier(ad) && ValidIdentifier(a) && ValidIdentifier(b)
    ensures forall e ::
      (e == NodeFor(ad, LayerTopology, STEP_BROKER_ADVERTISED, Pass, FailureNone)
       || e == NodeFor(a, LayerTCP, STEP_CONNECT, Fail, OtherFailure(0))
       || e == NodeFor(b, LayerTCP, STEP_CONNECT, Fail, OtherFailure(0))) ==>
        e.Built() && !e.IsZero()
  {
    hide ValidIdentifier, ValidDottedName, Evidence.Built, Evidence.IsZero, NodeFor;
    TransportStepIsValid(STEP_CONNECT);
    StepIsValid();
    NodeForIsBuilt(ad, LayerTopology, STEP_BROKER_ADVERTISED, Pass, FailureNone);
    NodeForIsBuilt(a, LayerTCP, STEP_CONNECT, Fail, OtherFailure(0));
    NodeForIsBuilt(b, LayerTCP, STEP_CONNECT, Fail, OtherFailure(0));
  }

  lemma ThreeNodesNow(ad: EvidenceID, a: EvidenceID, b: EvidenceID)
    ensures var n0: map<EvidenceID, Evidence> := map[];
      var n1 := n0[ad := NodeFor(ad, LayerTopology, STEP_BROKER_ADVERTISED, Pass, FailureNone)];
      var n2 := n1[a := NodeFor(a, LayerTCP, STEP_CONNECT, Fail, OtherFailure(0))];
      n2[b := NodeFor(b, LayerTCP, STEP_CONNECT, Fail, OtherFailure(0))] == ThreeNodes(ad, a, b)
    ensures TwoEdges(ad, a, b) == WithEdge(WithEdge(map[], a, ad), b, ad)
    ensures forall id, layer, step, state, failureClass {:trigger NodeFor(id, layer, step, state, failureClass)} ::
      NodeFor(id, layer, step, state, failureClass).id == id
  {
    hide WithEdge;
  }

  /** Two failed connections settle it, and the advertisement counts as resolved. */
  lemma TwoLiteralsResolve(g: Graph, ad: EvidenceID, a: EvidenceID, b: EvidenceID)
    requires TwoLiterals(g, ad, a, b)
    ensures |Roots(g, ad)| > 1 && Roots(g, ad) == Below(g, ad, STEP_CONNECT) && Resolved(g, ad)
  {
    hide Frozen, ParentRelation;
    forall x
      ensures x in Roots(g, ad) <==> x == a || x == b
      ensures x !in Roots(g, a) && x !in Roots(g, b)
    {
      ChildrenInvertParents(g, x, ad);
      ChildrenInvertParents(g, x, a);
      ChildrenInvertParents(g, x, b);
    }
    assert Roots(g, ad) == {a, b} && |{a, b}| == 2 && Roots(g, a) == {} && Roots(g, b) == {};
    assert a in Roots(g, ad) && b in Roots(g, ad);
    assert Below(g, ad, STEP_CONNECT) == {a, b};
    NothingBelow(g, a, STEP_HANDSHAKE);
    NothingBelow(g, b, STEP_HANDSHAKE);
    SeveralLiteralConnectionsResolve(g, ad);
  }

  /** A frozen graph of the shape the repository's comment calls unresolved. */
  method SeveralConnectionsWitness() returns (g: Graph, ad: EvidenceID)
    ensures Frozen(g) && Promised(g, ad)
    ensures |Roots(g, ad)| > 1 && Roots(g, ad) == Below(g, ad, STEP_CONNECT) && Resolved(g, ad)
  {
    hide *;
    LetterIsIdentifier("a", "l", "x", "y");
    g := TwoLiteralGraph("a", "x", "y");
    ad := "a";
    TwoLiteralsResolve(g, "a", "x", "y");
    TwoLiteralsFrozen(g, "a", "x", "y");
  }

  lemma TwoLiteralsFrozen(g: Graph, ad: EvidenceID, a: EvidenceID, b: EvidenceID)
    requires TwoLiterals(g, ad, a, b)
    ensures Frozen(g)
  {
  }
}
