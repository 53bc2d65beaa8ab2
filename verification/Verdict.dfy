/** What the verdict on a whole run means: a run that outlived its measurements is
complete exactly when nothing its budget cut short could change what it found. */
module Verdicts {
  import opened Text
  import opened Relations
  import opened Results
  import opened Evidences
  import opened Graphs
  import opened Hosts
  import opened Identifiers
  import opened Advertisements
  import opened Recording
  import opened Transports
  import opened SweepGraphs
  import opened Reachability
  import opened Completeness
  import opened CompletenessLaws
  import opened SweepShapes
  import opened SweepPlaces
  import opened Measuring
  import opened Topologies

  // ---- one advertisement's verdict ----

  ghost predicate LookupStopped(g: Graph, ad: EvidenceID) {
    exists l :: IsLookup(g, ad, l) && Stopped(g, l)
  }

  ghost predicate Attempted(g: Graph) {
    forall id :: !Unattempted(g, id)
  }

  lemma AttemptedIsDecided(g: Graph, connections: set<EvidenceID>)
    requires Attempted(g)
    ensures Decided(g, connections)
  {
    hide Unattempted, Reached;
  }

  lemma OneLookup(g: Graph, ad: EvidenceID, l: EvidenceID)
    requires IsLookup(g, ad, l)
    ensures forall m :: IsLookup(g, ad, m) ==> m == l
    ensures LookupStopped(g, ad) <==> Stopped(g, l)
    ensures LookupFailed(g, ad) <==> InState(g, l, Fail)
  {
    hide Below, Roots, Stopped, InState;
    forall m | IsLookup(g, ad, m) ensures m == l {
      assert m in {l};
    }
  }

  lemma StoppedIsUnresolved(g: Graph, ad: EvidenceID, l: EvidenceID)
    requires Frozen(g) && IsLookup(g, ad, l) && Stopped(g, l)
    ensures !Resolved(g, ad)
  {
    hide Frozen, Below, Roots, Settled;
    OneLookup(g, ad, l);
    LookupShape(g, ad, l);
  }

  /** A sweep as the chain recorded it is resolved exactly when its lookup was not cut
  short and nothing else that was could change its verdict. */
  lemma SweepVerdict(
    g: Graph, c: Content, scope: SweepScope, ad: EvidenceID, parseAddr: AddrParser, p: Params, net: Network, left: nat,
    cause: FailureClass)
    requires SoundNetwork(net) && Attempted(g) && FreezesInto(c, g)
    requires Placed(scope, ad, SweepOf(parseAddr, p, net, left, cause), c)
    ensures Resolved(g, ad) <==> !LookupStopped(g, ad) && VerdictStands(g, ad)
  {
    hide MeasuredId, Frozen, Shaped, Below, Roots, Placed, Unattempted, VerdictStands, Chain, Addresses, Resolved,
      LookupStopped, LookupFailed, WellFormed, HandshakesFollow, Attempted, Decided, SoundNetwork;
    var start, addresses := Start(parseAddr, p, net), Addresses(parseAddr, p, net);
    var sweep, connections := SweepOf(parseAddr, p, net, left, cause),
      Connections(scope, SweepOf(parseAddr, p, net, left, cause));
    ChainShape(p, net, start, addresses, left, cause);
    AttemptedIsDecided(g, connections);
    SomeConnection(scope, sweep);
    ShapeIsRead(scope, ad, sweep, c, g, start != []);
    if start == [] {
      LiteralSweepShape(scope, ad, sweep, c, g);
      SomeAddress(parseAddr, p, net);
      assert Sweep(g, ad, connections);
      NotLookedUp(g, ad);
      ResolvedIffVerdictStands(g, ad, connections);
    } else {
      var lookup := MeasuredId(scope, sweep[0]);
      NamedShape(scope, ad, sweep, c, g);
      StepNode(scope, ad, sweep, c, 0);
      OneLookup(g, ad, lookup);
      assert sweep[0] == start[0];
      LookupEnds(net, g.nodes[lookup]);
      if Stopped(g, lookup) {
        StoppedIsUnresolved(g, ad, lookup);
      } else if InState(g, lookup, Fail) {
        FailedVerdictStands(g, ad);
      } else {
        LookupPassed(parseAddr, p, net);
        assert NamedSweep(g, ad, lookup);
        assert Sweep(g, ad, connections);
        ResolvedIffVerdictStands(g, ad, connections);
      }
    }
  }

  lemma SomeConnection(scope: SweepScope, sweep: seq<Measured>)
    ensures (exists j :: 0 <= j < |sweep| && sweep[j].step == STEP_CONNECT) ==> Connections(scope, sweep) != {}
  {
    hide MeasuredId;
    if j :| 0 <= j < |sweep| && sweep[j].step == STEP_CONNECT {
      assert MeasuredId(scope, sweep[j]) in Connections(scope, sweep);
    }
  }

  lemma SomeAddress(parseAddr: AddrParser, p: Params, net: Network)
    ensures Start(parseAddr, p, net) == [] ==> Addresses(parseAddr, p, net) != []
  {
  }

  lemma LookupPassed(parseAddr: AddrParser, p: Params, net: Network)
    requires SoundNetwork(net) && Start(parseAddr, p, net) != [] && net.lookup.seen.state == Pass
    ensures Addresses(parseAddr, p, net) != []
  {
  }

  /** A lookup that neither failed nor was cut short passed. */
  lemma LookupEnds(net: Network, node: Evidence)
    requires SoundNetwork(net)
    requires node.state == net.lookup.seen.state && node.failureClass == net.lookup.seen.failureClass
    ensures !UnknownLocal(node) && node.state != Fail ==> net.lookup.seen.state == Pass
  {
  }

  lemma NotLookedUp(g: Graph, ad: EvidenceID)
    requires Frozen(g) && LiteralSweep(g, ad)
    ensures !LookupStopped(g, ad)
  {
    hide Frozen, Below, Roots;
    forall l ensures !IsLookup(g, ad, l) {
      if IsLookup(g, ad, l) {
        LookupShape(g, ad, l);
      }
    }
  }

  // ---- every promised advertisement ----

  /** An advertisement that passed is a usable broker of the response. */
  lemma PromisedIsBroker(
    x: Exchange, es: seq<Advertisement>, brokers: seq<DiscoveredBroker>, plan: Plan, left: nat, cause: FailureClass,
    c: Content, mid: Content, n: nat, g: Graph, ad: EvidenceID)
    returns (k: nat)
    requires Listing(es) && NoneAdvertised(c.nodes) && Discovers(x, es, brokers) && n <= |brokers| && Unsaid(mid)
    requires Recorded(x, es, c.nodes, c.parents, mid.nodes, mid.parents) && Clean(mid, plan, brokers, left, cause, n)
    requires g.nodes == MeasuredTo(mid, plan, brokers, left, cause, n).nodes && Promised(g, ad)
    ensures k < |brokers| && brokers[k].usable && brokers[k].evidenceID == ad
  {
    hide Listing, NoneAdvertised, Recorded, Unsaid, Clean, MeasuredTo, IdOf, LeftAt, SweepAt, Grew, SweepRecorded,
      IdsOf;
    var after := MeasuredTo(mid, plan, brokers, left, cause, n);
    SweepsLeave(mid, plan, brokers, left, cause, n);
    KeptByGrowth(mid, after, MeasuredRoots(brokers, n));
    if ad !in mid.nodes {
      NewNodesAreSteps(mid, plan, brokers, left, cause, n, ad);
      var i: nat :| i < n && StepOf(plan, brokers, left, cause, i, ad);
      StepsAreTransport(mid, plan, brokers, left, cause, n, i, ad, after);
      DifferentSteps();
    }
    OneNodeEach(x, es, c.nodes, c.parents, mid.nodes, mid.parents);
    assert ad in IdsOf(x, es);
    k := IndexOf(x, es, ad);
    RecordedNode(x, es, es[k], c.nodes, c.parents, mid.nodes, mid.parents);
  }

  lemma IndexOf(x: Exchange, es: seq<Advertisement>, id: EvidenceID) returns (k: nat)
    requires id in IdsOf(x, es)
    ensures k < |es| && IdOf(x, es[k]) == id && es[k] in es
  {
    hide IdOf;
    k :| k < |es| && IdOf(x, es[k]) == id;
  }

  lemma StepsAreTransport(
    c: Content, plan: Plan, brokers: seq<DiscoveredBroker>, left: nat, cause: FailureClass, n: nat, i: nat,
    id: EvidenceID, after: Content)
    requires n <= |brokers| && Clean(c, plan, brokers, left, cause, n) && i < n
    requires StepOf(plan, brokers, left, cause, i, id)
    requires SweepRecorded(plan.sha256, brokers[i], SweepAt(plan, brokers, left, cause, i), after)
    ensures id in after.nodes && TransportStep(after.nodes[id].step)
  {
    hide ScopeOf, SweepAt, MeasuredId, MeasuredTo, FreshFor;
    assert CleanAt(c, plan, brokers, left, cause, i);
    var scope, sweep := ScopeOf(plan.sha256, brokers[i].evidenceID), SweepAt(plan, brokers, left, cause, i);
    var j: nat :| IsStep(scope, sweep, j, id);
    assert RecordedStep(scope, brokers[i].evidenceID, sweep, j, after);
    assert sweep[j] in sweep && ValidMeasured(sweep[j]);
  }

  lemma RecordingMissesNothing(
    x: Exchange, es: seq<Advertisement>,
    before: map<EvidenceID, Evidence>, parentsBefore: Relation, after: map<EvidenceID, Evidence>,
    parentsAfter: Relation)
    requires Recorded(x, es, before, parentsBefore, after, parentsAfter) && MissesNothing(before)
    ensures MissesNothing(after)
  {
    hide IdOf;
    forall id | id in after ensures !Missed(after[id]) {
      if id in IdsOf(x, es) {
        var k := IndexOf(x, es, id);
        RecordedNode(x, es, es[k], before, parentsBefore, after, parentsAfter);
      }
    }
  }

  lemma NothingUnattempted(g: Graph)
    requires MissesNothing(g.nodes)
    ensures Attempted(g)
  {
  }

  /** A run whose context outlived its measurements missed no address at all. */
  lemma ProducedNoneMissed(
    c: Content, x: Exchange, es: seq<Advertisement>, brokers: seq<DiscoveredBroker>, plan: Plan, left: nat,
    cause: FailureClass, mid: Content, after: Content, leftAfter: nat, g: Graph)
    requires SoundPlan(plan) && MissesNothing(c.nodes) && g.nodes == after.nodes
    requires Described(c, x, es, brokers, plan, left, cause, mid, after, leftAfter) && leftAfter > 0
    ensures Attempted(g) && NoneMissed(g)
  {
    hide Recorded, Clean, LeftAt, MeasuredTo, MissesNothing, Content.Legal, SoundPlan, BrokerOf, MetadataPassed,
      Unattempted, Promised, StopsAt;
    var n :| MeasuredUntil(mid, brokers, plan, left, cause, n, after, leftAfter);
    WithinBrokers(plan, brokers, left, n);
    RecordingMissesNothing(x, es, c.nodes, c.parents, mid.nodes, mid.parents);
    MissedOnlyWhenDone(mid, plan, brokers, left, cause, n);
    NothingUnattempted(g);
    forall ad, connections | Sweep(g, ad, connections) ensures Decided(g, connections) {
      AttemptedIsDecided(g, connections);
    }
  }

  lemma WithinBrokers(plan: Plan, brokers: seq<DiscoveredBroker>, left: nat, n: nat)
    requires StopsAt(plan, brokers, left, n)
    ensures n <= |brokers|
  {
  }

  /** A run whose context outlived its measurements is complete if and only if every
  promised advertisement was looked up to the end and nothing that was cut short could
  change its verdict. */
  lemma CompleteIffVerdictsStand(
    c: Content, x: Exchange, es: seq<Advertisement>, brokers: seq<DiscoveredBroker>, plan: Plan, left: nat,
    cause: FailureClass, mid: Content, after: Content, leftAfter: nat, g: Graph)
    requires NoneAdvertised(c.nodes) && Unswept(c.nodes) && EndpointsPresent(c.nodes, c.parents) && x.id in c.nodes
    requires Listing(es) && DigestsTellListed(plan.sha256, x, es) && SoundPlan(plan) && MissesNothing(c.nodes)
    requires Described(c, x, es, brokers, plan, left, cause, mid, after, leftAfter) && leftAfter > 0
    requires FreezesInto(after, g) && MetadataPassed(g)
    ensures CompleteRun(false, g) <==>
      forall ad :: Promised(g, ad) ==> !LookupStopped(g, ad) && VerdictStands(g, ad)
  {
    hide Frozen, Recorded, Listing, MetadataPassed, Resolved, EndpointsPresent, Clean, LeftAt, MeasuredTo, Unsaid,
      Unswept, NoneAdvertised, LookupStopped, VerdictStands, Attempted, MissesNothing, DigestsTellListed,
      Content.Legal, SoundPlan, Healthy, BrokerOf;
    var n :| MeasuredUntil(mid, brokers, plan, left, cause, n, after, leftAfter);
    assert n == |brokers|;
    LegalSaysNothing(mid);
    RecordedIsHealthy(plan.sha256, x, es, brokers, c.nodes, c.parents, mid.nodes, mid.parents);
    ProducedNoneMissed(c, x, es, brokers, plan, left, cause, mid, after, leftAfter, g);
    forall ad | Promised(g, ad) ensures Resolved(g, ad) <==> !LookupStopped(g, ad) && VerdictStands(g, ad) {
      var k := PromisedIsBroker(x, es, brokers, plan, left, cause, c, mid, n, g, ad);
      PromisedVerdict(c, x, es, brokers, plan, left, cause, mid, n, k, g);
    }
  }

  lemma PromisedVerdict(
    c: Content, x: Exchange, es: seq<Advertisement>, brokers: seq<DiscoveredBroker>, plan: Plan, left: nat,
    cause: FailureClass, mid: Content, n: nat, k: nat, g: Graph)
    requires EndpointsPresent(c.nodes, c.parents) && x.id in c.nodes && SoundPlan(plan)
    requires Discovers(x, es, brokers) && Recorded(x, es, c.nodes, c.parents, mid.nodes, mid.parents)
    requires Unsaid(mid) && EndpointsPresent(mid.nodes, mid.parents) && Healthy(plan.sha256, mid.nodes, brokers)
    requires n == |brokers| && Clean(mid, plan, brokers, left, cause, n) && k < n && brokers[k].usable
    requires FreezesInto(MeasuredTo(mid, plan, brokers, left, cause, n), g) && Attempted(g)
    ensures var ad := brokers[k].evidenceID;
      Resolved(g, ad) <==> !LookupStopped(g, ad) && VerdictStands(g, ad)
  {
    hide FreezesInto, Recorded, Resolved, EndpointsPresent, Clean, LeftAt, MeasuredTo, Unsaid, LookupStopped,
      VerdictStands, Attempted, SoundParser, SoundNetwork, Healthy, Placed, ScopeOf, SweepOf, IdOf;
    var ad := brokers[k].evidenceID;
    assert es[k] in es && brokers[k] == BrokerOf(x, es[k]);
    RecordedChildless(x, es, es[k], c.nodes, c.parents, mid.nodes, mid.parents);
    SweepIsPlaced(mid, plan, brokers, left, cause, n, k);
    SweepVerdict(
      g, MeasuredTo(mid, plan, brokers, left, cause, n), ScopeOf(plan.sha256, ad), ad, plan.parseAddr,
      ParamsOf(plan, brokers[k]), plan.network(k), Spend(LeftAt(plan, brokers, left, k), 1), cause);
  }

  // ---- the exchange that passed ----

  /** The exchange is the graph's only one, and it passed. */
  ghost predicate PassedExchange(nodes: map<EvidenceID, Evidence>, id: EvidenceID) {
    && id in nodes && nodes[id].step == STEP_METADATA && nodes[id].state == Pass
    && forall other :: other in nodes && nodes[other].step == STEP_METADATA ==> other == id
  }

  lemma OnlyExchangeCounts(g: Graph, id: EvidenceID)
    requires Frozen(g) && PassedExchange(g.nodes, id)
    ensures MetadataPassed(g)
  {
    hide Frozen;
    FrozenOrder(g);
    var i: nat :| i < |g.order| && g.order[i] == id;
    assert FirstMetadata(g, i);
  }

  /** Recording and measuring add no exchange. */
  lemma ExchangeStays(
    c: Content, x: Exchange, es: seq<Advertisement>, brokers: seq<DiscoveredBroker>, plan: Plan, left: nat,
    cause: FailureClass, mid: Content, after: Content, leftAfter: nat)
    requires Described(c, x, es, brokers, plan, left, cause, mid, after, leftAfter)
    requires PassedExchange(c.nodes, x.id)
    ensures PassedExchange(after.nodes, x.id)
  {
    hide Clean, LeftAt, MeasuredTo, Content.Legal, BrokerOf, SweepAt, Grew, SweepRecorded, StopsAt, StepOf;
    var n :| MeasuredUntil(mid, brokers, plan, left, cause, n, after, leftAfter);
    WithinBrokers(plan, brokers, left, n);
    RecordingKeepsExchange(x, es, c.nodes, c.parents, mid.nodes, mid.parents);
    LegalSaysNothing(mid);
    SweepsLeave(mid, plan, brokers, left, cause, n);
    KeptByGrowth(mid, after, MeasuredRoots(brokers, n));
    DifferentSteps();
    forall id | id in after.nodes && id !in mid.nodes ensures after.nodes[id].step != STEP_METADATA {
      NewNodesAreSteps(mid, plan, brokers, left, cause, n, id);
      var i: nat :| i < n && StepOf(plan, brokers, left, cause, i, id);
      StepIsUsable(plan, brokers, left, cause, i, id);
      StepsAreTransport(mid, plan, brokers, left, cause, n, i, id, after);
    }
  }

  lemma RecordingKeepsExchange(
    x: Exchange, es: seq<Advertisement>,
    before: map<EvidenceID, Evidence>, parentsBefore: Relation, after: map<EvidenceID, Evidence>,
    parentsAfter: Relation)
    requires Recorded(x, es, before, parentsBefore, after, parentsAfter) && PassedExchange(before, x.id)
    ensures PassedExchange(after, x.id)
  {
    hide IdOf;
    DifferentSteps();
    forall id | id in after && id !in before ensures after[id].step != STEP_METADATA {
      var k := IndexOf(x, es, id);
      RecordedNode(x, es, es[k], before, parentsBefore, after, parentsAfter);
    }
  }

  // ---- from the response to the verdict ----

  datatype Diagnosis = Diagnosis(graph: Graph, incomplete: bool)

  ghost predicate Settles(g: Graph, ad: EvidenceID) {
    !LookupStopped(g, ad) && VerdictStands(g, ad)
  }

  /** g is what c becomes once the response was listed, recorded and measured. */
  ghost predicate Delivers(
    c: Content, x: Exchange, response: seq<MetadataBroker>, brokers: seq<DiscoveredBroker>, plan: Plan, left: nat,
    cause: FailureClass, g: Graph)
  {
    exists es, mid, after, leftAfter ::
      && Described(c, x, es, brokers, plan, left, cause, mid, after, leftAfter)
      && FreezesInto(after, g)
      && exists at, n :: IsListing(plan.parseAddr, response, |response|, es, at, n)
  }

  /** The run after its Metadata exchange: it is refused exactly for a considered broker
  no sweep can be run for. Otherwise it is reported incomplete if and only if the
  context is done, or some promised verdict is open. */
  method DiagnoseTopology(ctx: Context, builder: GraphBuilder, x: Exchange, response: seq<MetadataBroker>, plan: Plan)
    returns (r: Result<Diagnosis>, brokers: seq<DiscoveredBroker>, done: bool)
    requires builder.Valid() && SoundPlan(plan) && NoneAdvertised(builder.nodes) && Unswept(builder.nodes)
    requires x.id in builder.nodes && NoControl(x.endpoint) && NoControl(x.address) && DigestsTell(plan, x, response)
    requires ctx.left == 0 || MissesNothing(builder.nodes)
    modifies ctx, builder
    ensures builder.Valid()
    ensures exists es, at, n ::
      IsListing(plan.parseAddr, response, |response|, es, at, n) && Discovers(x, es, brokers)
    ensures r.Ok? <==> AllMeasurable(plan, brokers, old(ctx.left))
    ensures r.Ok? ==> FreezesInto(builder.Contents(), r.value.graph)
    ensures r.Ok? ==>
      Delivers(old(builder.Contents()), x, response, brokers, plan, old(ctx.left), ctx.cause, r.value.graph)
    ensures r.Ok? ==> (r.value.incomplete <==> !CompleteRun(done, r.value.graph))
    ensures r.Ok? ==> (done <==> LeftAt(plan, brokers, old(ctx.left), |brokers|) == 0)
    ensures r.Ok? && MetadataPassed(r.value.graph) ==>
      (r.value.incomplete <==> done || exists ad :: Promised(r.value.graph, ad) && !Settles(r.value.graph, ad))
    ensures r.Ok? && PassedExchange(old(builder.nodes), x.id) ==> MetadataPassed(r.value.graph)
    ensures r.Ok? && !done ==> NoneMissed(r.value.graph)
    ensures r.Ok? ==> BrokersRead(builder.Contents(), plan, brokers, old(ctx.left), ctx.cause)
  {
    hide IsListing, Listing, Recorded, Filed, LegalGraph, NoneAdvertised, Unswept, DigestsTell, DigestsTellListed,
      BrokerOf, CanMeasure, NoControl, Healthy, SoundPlan, Unsaid, MeasuredUntil, LookupStopped, VerdictStands,
      MetadataPassed, CompleteRun, Promised, MissesNothing, GraphOf, AllMeasurable, LeftAt, EndpointsPresent,
      PassedExchange, NoneMissed, Described, Discovers, BrokersRead;
    ghost var c, left := builder.Contents(), ctx.left;
    var described, es;
    ghost var mid;
    described, es, brokers, mid := DescribeTopology(ctx, builder, x, response, plan);
    ghost var at, unlisted :| IsListing(plan.parseAddr, response, |response|, es, at, unlisted);
    ListedDigests(plan, x, response, es, at, unlisted);
    done := false;
    if described.Err? {
      return Err(described.error), brokers, done;
    }
    ghost var after, leftAfter := builder.Contents(), ctx.left;
    LastCheck(c, x, es, brokers, plan, left, ctx.cause, mid, after, leftAfter);
    var frozen := builder.Freeze();
    GraphOfIsFrozen(builder.nodes, builder.parents, builder.blockedBy);
    var g := frozen.value;
    assert Delivers(c, x, response, brokers, plan, left, ctx.cause, g);
    done := ctx.Err();
    var incomplete := IncompleteKafkaRun(done, g);
    LegalSaysNothing(c);
    if PassedExchange(c.nodes, x.id) {
      ExchangeStays(c, x, es, brokers, plan, left, ctx.cause, mid, after, leftAfter);
      OnlyExchangeCounts(g, x.id);
    }
    if !done {
      ProducedNoneMissed(c, x, es, brokers, plan, left, ctx.cause, mid, after, leftAfter, g);
    }
    if !done && MetadataPassed(g) {
      CompleteIffVerdictsStand(c, x, es, brokers, plan, left, ctx.cause, mid, after, leftAfter, g);
    }
    DoneIsIncomplete(g);
    r := Ok(Diagnosis(g, incomplete));
  }

  lemma DoneIsIncomplete(g: Graph)
    ensures !CompleteRun(true, g)
  {
    hide Resolved, MetadataPassed;
  }

  /** The context is done after the measurements exactly when it would have been by the
  end of the list. */
  lemma LastCheck(
    c: Content, x: Exchange, es: seq<Advertisement>, brokers: seq<DiscoveredBroker>, plan: Plan, left: nat,
    cause: FailureClass, mid: Content, after: Content, leftAfter: nat)
    requires Described(c, x, es, brokers, plan, left, cause, mid, after, leftAfter)
    ensures leftAfter == 0 <==> LeftAt(plan, brokers, left, |brokers|) == 0
    ensures leftAfter > 0 ==> left > 0
  {
    hide LeftAt, Clean, MeasuredTo, Recorded, Content.Legal, BrokerOf;
    var n :| MeasuredUntil(mid, brokers, plan, left, cause, n, after, leftAfter);
    if leftAfter == 0 {
      DoneForGood(plan, brokers, left, n);
    }
    if left == 0 {
      NothingConsidered(c, plan, brokers, left, cause);
      DoneForGood(plan, brokers, left, 0);
    }
  }
}
