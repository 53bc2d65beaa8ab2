/** From a Metadata response to the verdict on the run: advertisements are listed,
recorded and measured, the graph is frozen, and its completeness is read. */
module Topologies {
  import opened Text
  import opened Relations
  import opened Results
  import opened Evidences
  import opened Graphs
  import opened Hosts
  import opened Identifiers
  import opened Advertisements
  import opened Recording
  import opened Transports
  import opened SweepGraphs
  import opened Reachability
  import opened Measuring
  import opened SweepShapes
  import opened Completeness
  import opened CompletenessLaws

  // ---- recording makes the run healthy ----

  /** The digest tells the identifiers of the response's entries apart. */
  ghost predicate DigestsTell(plan: Plan, x: Exchange, response: seq<MetadataBroker>) {
    forall j, k :: 0 <= j < |response| && 0 <= k < |response| ==>
      var a, b := IdOf(x, Normalized(plan.parseAddr, response[j])), IdOf(x, Normalized(plan.parseAddr, response[k]));
      plan.sha256(a) == plan.sha256(b) ==> a == b
  }

  ghost predicate DigestsTellListed(sha256: string -> seq<Byte>, x: Exchange, es: seq<Advertisement>) {
    forall j, k :: 0 <= j < |es| && 0 <= k < |es| && sha256(IdOf(x, es[j])) == sha256(IdOf(x, es[k])) ==>
      IdOf(x, es[j]) == IdOf(x, es[k])
  }

  lemma IdIgnoresSubject(x: Exchange, e: Advertisement)
    ensures IdOf(x, Named(e)) == IdOf(x, e)
  {
  }

  lemma ListedDigests(
    plan: Plan, x: Exchange, response: seq<MetadataBroker>, es: seq<Advertisement>, at: seq<nat>, unrepresentable: nat)
    requires DigestsTell(plan, x, response)
    requires IsListing(plan.parseAddr, response, |response|, es, at, unrepresentable)
    ensures DigestsTellListed(plan.sha256, x, es)
  {
    hide Normalized, IdOf, FirstSaid, Unsayable, Named;
    forall j, k | 0 <= j < |es| && 0 <= k < |es| && plan.sha256(IdOf(x, es[j])) == plan.sha256(IdOf(x, es[k]))
      ensures IdOf(x, es[j]) == IdOf(x, es[k])
    {
      IdIgnoresSubject(x, Normalized(plan.parseAddr, response[at[j]]));
      IdIgnoresSubject(x, Normalized(plan.parseAddr, response[at[k]]));
    }
  }

  ghost predicate Discovers(x: Exchange, es: seq<Advertisement>, brokers: seq<DiscoveredBroker>) {
    |brokers| == |es| && forall k :: 0 <= k < |es| ==> brokers[k] == BrokerOf(x, es[k])
  }

  lemma ListedIdsDiffer(x: Exchange, es: seq<Advertisement>, j: nat, k: nat)
    requires Listing(es) && j < k < |es|
    ensures IdOf(x, es[j]) != IdOf(x, es[k])
  {
    hide IdOf, IsEntry, ValidIdentifier;
    assert es[j] in es && es[k] in es;
    assert Listing([es[j]]) && Listing([es[k]]);
    IdsNeverCollide(x, es[j], x, es[k]);
  }

  lemma IdsAreNamed(x: Exchange, e: Advertisement)
    ensures IdOf(x, e) != ""
  {
    hide IdOf;
    IdNamesStep(x, e);
    assert Split("") == [[]];
    assert Decoded("") == [Unescaped([])] + UnescapedEach([]);
  }

  /** Whatever the brokers said, recording their advertisements into a graph that has
  none leaves exactly what measuring them needs. */
  lemma RecordedIsHealthy(
    sha256: string -> seq<Byte>, x: Exchange, es: seq<Advertisement>, brokers: seq<DiscoveredBroker>,
    before: map<EvidenceID, Evidence>, parentsBefore: Relation, after: map<EvidenceID, Evidence>,
    parentsAfter: Relation)
    requires NoneAdvertised(before) && Unswept(before) && Listing(es) && DigestsTellListed(sha256, x, es)
    requires Recorded(x, es, before, parentsBefore, after, parentsAfter) && Discovers(x, es, brokers)
    ensures Healthy(sha256, after, brokers)
  {
    hide IdOf, NodeOf, Listing, Unswept, MintedByStep, IdsOf, NoneAdvertised, DigestsTellListed, DistinctDigests,
      Recorded;
    OneNodeEach(x, es, before, parentsBefore, after, parentsAfter);
    UnsweptAfter(x, es, before, parentsBefore, after, parentsAfter);
    DiscoveredDigests(sha256, x, es, brokers);
    forall k | 0 <= k < |brokers| ensures brokers[k].evidenceID in after && brokers[k].evidenceID != "" {
      assert es[k] in es;
      RecordedNode(x, es, es[k], before, parentsBefore, after, parentsAfter);
      IdsAreNamed(x, es[k]);
    }
  }

  lemma DiscoveredDigests(
    sha256: string -> seq<Byte>, x: Exchange, es: seq<Advertisement>, brokers: seq<DiscoveredBroker>)
    requires Listing(es) && DigestsTellListed(sha256, x, es) && Discovers(x, es, brokers)
    ensures DistinctDigests(sha256, brokers)
  {
    hide IdOf, Listing;
    forall j, k | 0 <= j < k < |brokers| ensures sha256(brokers[j].evidenceID) != sha256(brokers[k].evidenceID) {
      ListedIdsDiffer(x, es, j, k);
    }
  }

  lemma UnsweptAfter(
    x: Exchange, es: seq<Advertisement>,
    before: map<EvidenceID, Evidence>, parentsBefore: Relation, after: map<EvidenceID, Evidence>,
    parentsAfter: Relation)
    requires Unswept(before) && Recorded(x, es, before, parentsBefore, after, parentsAfter) && MintedByStep(after)
    requires forall id :: id in after && after[id].step == STEP_BROKER_ADVERTISED <==> id in IdsOf(x, es)
    ensures Unswept(after)
  {
    hide IdsOf, IdOf, NodeOf, Arity;
    DifferentSteps();
    forall id | id in after && TransportStep(after[id].step) ensures |Decoded(id)| == 1 + Arity(after[id].step) {
      assert id !in IdsOf(x, es);
      assert id in before;
    }
  }

  // ---- an address is missed only by a run that is over ----

  ghost predicate Missed(node: Evidence) {
    node.state == Skipped && node.step == STEP_CONNECT && LocalCause(node.failureClass)
  }

  ghost predicate MissesNothing(nodes: map<EvidenceID, Evidence>) {
    forall id :: id in nodes ==> !Missed(nodes[id])
  }

  lemma {:induction false} ChainTries(
    p: Params, net: Network, start: seq<Measured>, addresses: seq<string>, left: nat, cause: FailureClass)
    requires SoundNetwork(net) && forall m :: m in start ==> m.step == STEP_LOOKUP
    requires |addresses| <= left
    ensures forall m :: m in Chain(p, net, start, addresses, left, cause) && m.step == STEP_CONNECT ==>
      m.seen.state != Skipped
  {
    hide JoinHostPort, SoundNetwork;
    StepNames();
    if addresses != [] {
      var k := |addresses| - 1;
      ChainTries(p, net, start, addresses[..k], left, cause);
      ConnectAnswers(net, addresses[k]);
    }
  }

  lemma ConnectAnswers(net: Network, address: string)
    requires SoundNetwork(net)
    ensures net.connect(address).state != Skipped
  {
  }

  lemma {:induction false} NodesOfGrown(c: Content, scope: SweepScope, parent: EvidenceID, sweep: seq<Measured>)
    ensures var after := Grown(c, scope, parent, sweep).nodes;
      forall id :: id in after ==>
        (id in c.nodes && after[id] == c.nodes[id]) || exists m :: m in sweep && after[id] == MeasuredNode(scope, m)
  {
    hide MeasuredNode, MeasuredId, ParentOf;
    if sweep != [] {
      var k := |sweep| - 1;
      NodesOfGrown(c, scope, parent, sweep[..k]);
      assert sweep == sweep[..k] + [sweep[k]];
    }
  }

  lemma SweepMissesNothing(
    c: Content, scope: SweepScope, parent: EvidenceID, parseAddr: AddrParser, p: Params, net: Network, left: nat,
    cause: FailureClass)
    requires MissesNothing(c.nodes) && SoundNetwork(net) && |Addresses(parseAddr, p, net)| <= left
    ensures MissesNothing(Grown(c, scope, parent, SweepOf(parseAddr, p, net, left, cause)).nodes)
  {
    hide Grown, SoundNetwork, Chain, Addresses, MeasuredId;
    var sweep := SweepOf(parseAddr, p, net, left, cause);
    NodesOfGrown(c, scope, parent, sweep);
    ChainTries(p, net, Start(parseAddr, p, net), Addresses(parseAddr, p, net), left, cause);
    forall m | m in sweep ensures !Missed(MeasuredNode(scope, m)) {
    }
  }

  /** While the context is alive, no connection was skipped for want of it. */
  lemma {:induction false} MissedOnlyWhenDone(
    c: Content, plan: Plan, brokers: seq<DiscoveredBroker>, left: nat, cause: FailureClass, n: nat)
    requires SoundPlan(plan) && n <= |brokers| && (left == 0 || MissesNothing(c.nodes))
    ensures LeftAt(plan, brokers, left, n) == 0 || MissesNothing(MeasuredTo(c, plan, brokers, left, cause, n).nodes)
  {
    hide Grown, SweepOf, Addresses, MissesNothing, ScopeOf, MeasuredTo, LeftAt, Clean, CleanAt, SoundParser,
      SoundNetwork;
    if n == 0 {
      NothingConsidered(c, plan, brokers, left, cause);
    } else {
      var i := n - 1;
      MissedOnlyWhenDone(c, plan, brokers, left, cause, i);
      Considers(c, plan, brokers, left, cause, i);
      var before, p, net := MeasuredTo(c, plan, brokers, left, cause, i), ParamsOf(plan, brokers[i]), plan.network(i);
      var after := Spend(LeftAt(plan, brokers, left, i), 1);
      if LeftAt(plan, brokers, left, n) > 0 && brokers[i].usable {
        SweepMissesNothing(before, p.scope, p.parent, plan.parseAddr, p, net, after, cause);
      }
    }
  }

  // ---- what comes before the exchange ----

  /** A sweep without a scope, such as the one of the bootstrap endpoint, leaves the
  graph as unswept and unadvertised as it found it. */
  lemma BootstrapSweepKeeps(c: Content, parent: EvidenceID, sweep: seq<Measured>)
    requires Unswept(c.nodes) && NoneAdvertised(c.nodes) && ValidSweep(sweep)
    ensures Unswept(Grown(c, ZERO_SCOPE, parent, sweep).nodes)
    ensures NoneAdvertised(Grown(c, ZERO_SCOPE, parent, sweep).nodes)
  {
    hide MeasuredId, Grown, Arity;
    DifferentSteps();
    NodesOfGrown(c, ZERO_SCOPE, parent, sweep);
    var after := Grown(c, ZERO_SCOPE, parent, sweep).nodes;
    GrownFiled(c, ZERO_SCOPE, parent, sweep);
    forall id | id in after && !(id in c.nodes && after[id] == c.nodes[id])
      ensures Decoded(id)[0] == after[id].step && |Decoded(id)| == 1 + Arity(after[id].step)
      ensures after[id].step != STEP_BROKER_ADVERTISED
    {
      var m :| m in sweep && after[id] == MeasuredNode(ZERO_SCOPE, m);
      UnscopedText(m);
    }
  }

  lemma UnscopedText(m: Measured)
    requires ValidMeasured(m)
    ensures Decoded(MeasuredId(ZERO_SCOPE, m))[0] == m.step
    ensures |Decoded(MeasuredId(ZERO_SCOPE, m))| == 1 + Arity(m.step) && TransportStep(m.step)
  {
    hide Arity;
    DecodeInverts(Parts(ZERO_SCOPE, m.step, m.components));
  }

  lemma {:induction false} GrownFiled(c: Content, scope: SweepScope, parent: EvidenceID, sweep: seq<Measured>)
    ensures var after := Grown(c, scope, parent, sweep).nodes;
      forall id :: id in after ==> (id in c.nodes && after[id] == c.nodes[id]) || after[id].id == id
  {
    hide MeasuredId, ParentOf;
    if sweep != [] {
      GrownFiled(c, scope, parent, sweep[..|sweep| - 1]);
    }
  }

  /** So does any node another step mints without a scope. */
  lemma OtherStepKeeps(nodes: map<EvidenceID, Evidence>, e: Evidence, components: seq<string>)
    requires Unswept(nodes) && NoneAdvertised(nodes) && e.id == Encoded([e.step] + components)
    requires !TransportStep(e.step) && e.step != STEP_BROKER_ADVERTISED
    ensures Unswept(nodes[e.id := e]) && NoneAdvertised(nodes[e.id := e])
  {
    hide Encoded, TransportStep, Arity;
    DecodeInverts([e.step] + components);
  }

  // ---- describing the cluster ----

  /** The first n brokers were measured, each cleanly, until the context was done. */
  ghost predicate MeasuredUntil(
    mid: Content, brokers: seq<DiscoveredBroker>, plan: Plan, left: nat, cause: FailureClass, n: nat, after: Content,
    leftAfter: nat)
  {
    && StopsAt(plan, brokers, left, n) && Clean(mid, plan, brokers, left, cause, n)
    && after == MeasuredTo(mid, plan, brokers, left, cause, n) && leftAfter == LeftAt(plan, brokers, left, n)
  }

  /** What the builder holds and how long the context still lasts once a response was
  recorded, as mid, and its brokers were measured. */
  ghost predicate Described(
    c: Content, x: Exchange, es: seq<Advertisement>, brokers: seq<DiscoveredBroker>, plan: Plan, left: nat,
    cause: FailureClass, mid: Content, after: Content, leftAfter: nat)
  {
    && Discovers(x, es, brokers)
    && Recorded(x, es, c.nodes, c.parents, mid.nodes, mid.parents) && mid.blockedBy == c.blockedBy && mid.Legal()
    && exists n :: MeasuredUntil(mid, brokers, plan, left, cause, n, after, leftAfter)
  }

  ghost predicate AllMeasurable(plan: Plan, brokers: seq<DiscoveredBroker>, left: nat) {
    forall k :: 0 <= k < |brokers| && LeftAt(plan, brokers, left, k) > 0 ==> CanMeasure(plan, brokers[k])
  }

  /** The brokers of one response are listed, recorded and measured. Nothing they say can
  make the graph refuse them: the call fails if and only if one that is considered is
  usable and has a host no sweep can be run for. */
  method DescribeTopology(ctx: Context, builder: GraphBuilder, x: Exchange, response: seq<MetadataBroker>, plan: Plan)
    returns (r: Result<Measurement>, es: seq<Advertisement>, brokers: seq<DiscoveredBroker>, ghost mid: Content)
    requires builder.Valid() && SoundPlan(plan) && NoneAdvertised(builder.nodes) && Unswept(builder.nodes)
    requires x.id in builder.nodes && NoControl(x.endpoint) && NoControl(x.address) && DigestsTell(plan, x, response)
    modifies ctx, builder
    ensures builder.Valid() && Listing(es) && Discovers(x, es, brokers)
    ensures exists at, n :: IsListing(plan.parseAddr, response, |response|, es, at, n)
    ensures r.Ok? <==> AllMeasurable(plan, brokers, old(ctx.left))
    ensures r.Ok? ==> Described(
      old(builder.Contents()), x, es, brokers, plan, old(ctx.left), ctx.cause, mid, builder.Contents(), ctx.left)
    ensures r.Ok? ==> BrokersRead(builder.Contents(), plan, brokers, old(ctx.left), ctx.cause)
  {
    hide IsListing, Listing, Recorded, Filed, LegalGraph, NoneAdvertised, Unswept, DigestsTell, DigestsTellListed,
      BrokerOf, StopsAt, Clean, MeasuredTo, LeftAt, CanMeasure, NoControl, Healthy, SoundPlan, Unsaid,
      Childless, BrokersRead, EndpointsPresent;
    var unrepresentable;
    es, unrepresentable := AdvertisementsOf(false, plan.parseAddr, response);
    ghost var at :| IsListing(plan.parseAddr, response, |response|, es, at, unrepresentable);
    ListingIsDistinct(plan.parseAddr, response, |response|, es, at, unrepresentable);
    ListedDigests(plan, x, response, es, at, unrepresentable);
    ghost var c := builder.Contents();
    var recorded;
    recorded, brokers := RecordAdvertisements(builder, x, es);
    mid := builder.Contents();
    RecordedIsHealthy(plan.sha256, x, es, brokers, c.nodes, c.parents, mid.nodes, mid.parents);
    ghost var left := ctx.left;
    LegalSaysNothing(c);
    RecordedAreChildless(x, es, brokers, c.nodes, c.parents, mid.nodes, mid.parents);
    r := MeasureAdvertised(ctx, builder, brokers, plan);
    assert r.Ok? ==>
      MeasuredUntil(mid, brokers, plan, left, ctx.cause, r.value.considered, builder.Contents(), ctx.left);
  }

  // ---- an early stop is always visible ----

  /** A node nothing was derived from before, and that is no measured root, still has
  no children afterwards. */
  lemma StaysChildless(before: Content, after: Content, roots: set<EvidenceID>, ad: EvidenceID)
    requires Grew(before, after, roots)
    requires ad in before.nodes && ad !in roots && forall c :: ad !in Next(before.parents, c)
    ensures forall c :: ad !in Next(after.parents, c)
  {
    forall c ensures ad !in Next(after.parents, c) {
      if c in before.nodes {
        assert Next(after.parents, c) == Next(before.parents, c);
      }
    }
  }

  lemma RecordedChildless(
    x: Exchange, es: seq<Advertisement>, e: Advertisement,
    before: map<EvidenceID, Evidence>, parentsBefore: Relation, after: map<EvidenceID, Evidence>,
    parentsAfter: Relation)
    requires Recorded(x, es, before, parentsBefore, after, parentsAfter) && EndpointsPresent(before, parentsBefore)
    requires e in es && x.id in before
    ensures forall c :: IdOf(x, e) !in Next(parentsAfter, c)
  {
    hide IdOf;
    var ad := IdOf(x, e);
    assert ad in IdsOf(x, es) && ad !in before;
    forall c ensures ad !in Next(parentsAfter, c) {
      assert Next(parentsAfter, c) == if c in IdsOf(x, es) then {x.id} else Next(parentsBefore, c);
    }
  }

  lemma RecordedAreChildless(
    x: Exchange, es: seq<Advertisement>, brokers: seq<DiscoveredBroker>,
    before: map<EvidenceID, Evidence>, parentsBefore: Relation, after: map<EvidenceID, Evidence>,
    parentsAfter: Relation)
    requires Recorded(x, es, before, parentsBefore, after, parentsAfter) && EndpointsPresent(before, parentsBefore)
    requires Discovers(x, es, brokers) && x.id in before
    ensures Childless(parentsAfter, brokers)
  {
    hide Recorded, EndpointsPresent, IdOf;
    forall k | 0 <= k < |brokers| ensures forall c :: brokers[k].evidenceID !in Next(parentsAfter, c) {
      assert es[k] in es && brokers[k] == BrokerOf(x, es[k]);
      RecordedChildless(x, es, es[k], before, parentsBefore, after, parentsAfter);
    }
  }

  lemma NotMeasured(x: Exchange, es: seq<Advertisement>, brokers: seq<DiscoveredBroker>, considered: nat, k: nat)
    requires Listing(es) && Discovers(x, es, brokers) && considered <= k < |es|
    ensures IdOf(x, es[k]) !in MeasuredRoots(brokers, considered)
  {
    hide IdOf, Listing;
    forall j | 0 <= j < considered ensures brokers[j].evidenceID != IdOf(x, es[k]) {
      assert brokers[j] == BrokerOf(x, es[j]);
      ListedIdsDiffer(x, es, j, k);
    }
  }

  lemma RecordedNode(
    x: Exchange, es: seq<Advertisement>, e: Advertisement,
    before: map<EvidenceID, Evidence>, parentsBefore: Relation, after: map<EvidenceID, Evidence>,
    parentsAfter: Relation)
    requires Recorded(x, es, before, parentsBefore, after, parentsAfter) && e in es
    ensures IdOf(x, e) in after && after[IdOf(x, e)] == NodeOf(x, e)
  {
    hide IdOf;
  }

  lemma NoChildren(g: Graph, ad: EvidenceID)
    requires Frozen(g) && forall c :: ad !in Next(ParentRelation(g), c)
    ensures g.Children(ad) == []
  {
    hide Frozen;
    if g.Children(ad) != [] {
      var c := g.Children(ad)[0];
      ChildrenInvertParents(g, c, ad);
    }
  }

  /** From the broker list to the verdict: when the context was done before a usable
  advertisement was reached, the frozen graph alone says the run is incomplete,
  whatever the context says by then. */
  lemma EarlyStopIsVisible(
    c: Content, x: Exchange, es: seq<Advertisement>, brokers: seq<DiscoveredBroker>, plan: Plan, left: nat,
    cause: FailureClass, mid: Content, after: Content, leftAfter: nat, considered: nat, k: nat, g: Graph,
    contextDone: bool)
    requires EndpointsPresent(c.nodes, c.parents) && x.id in c.nodes && Listing(es)
    requires Described(c, x, es, brokers, plan, left, cause, mid, after, leftAfter)
    requires StopsAt(plan, brokers, left, considered) && considered <= k < |es| && brokers[k].usable
    requires FreezesInto(after, g) && MetadataPassed(g)
    ensures !CompleteRun(contextDone, g)
  {
    hide Frozen, Recorded, Grew, IdOf, Content.Legal, MeasuredRoots, Listing, MetadataPassed, Resolved,
      EndpointsPresent, Clean, LeftAt, MeasuredTo, Unsaid, SweepRecorded;
    var ad := IdOf(x, es[k]);
    var n :| MeasuredUntil(mid, brokers, plan, left, cause, n, after, leftAfter);
    StopsOnce(plan, brokers, left, n, considered);
    LegalSaysNothing(mid);
    assert es[k] in es && brokers[k] == BrokerOf(x, es[k]);
    RecordedNode(x, es, es[k], c.nodes, c.parents, mid.nodes, mid.parents);
    RecordedChildless(x, es, es[k], c.nodes, c.parents, mid.nodes, mid.parents);
    NotMeasured(x, es, brokers, n, k);
    SweepsLeave(mid, plan, brokers, left, cause, n);
    StaysChildless(mid, after, MeasuredRoots(brokers, n), ad);
    KeptByGrowth(mid, after, MeasuredRoots(brokers, n));
    NoChildren(g, ad);
    ChildlessIsUnresolved(g, ad);
    assert Promised(g, ad);
  }

  lemma StopsOnce(plan: Plan, brokers: seq<DiscoveredBroker>, left: nat, m: nat, n: nat)
    requires StopsAt(plan, brokers, left, m) && StopsAt(plan, brokers, left, n)
    ensures m == n
  {
    hide LeftAt;
  }
}
