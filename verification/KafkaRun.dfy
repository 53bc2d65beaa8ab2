/** A whole Kafka run, from an empty graph to the verdict: the requested target, the sweep
of the bootstrap endpoint, the protocol stages, and what the cluster described. */
module KafkaRuns {
  import opened Text
  import opened Relations
  import opened Results
  import opened Evidences
  import opened Graphs
  import opened Hosts
  import opened Identifiers
  import opened Advertisements
  import opened Recording
  import opened Transports
  import opened Reachability
  import opened Measuring
  import opened SweepGraphs
  import opened SweepReadings
  import opened Completeness
  import opened CompletenessLaws
  import opened SweepShapes
  import opened Topologies
  import opened Verdicts

  const STEP_REQUESTED: Step := "target.requested"

  // ---- what the protocol stages record ----

  /** A node, the components its identifier was minted from, what it was derived from, and what
  kept it from being attempted. */
  datatype Minted = Minted(
    node: Evidence, components: seq<string>, parent: EvidenceID, blocker: Option<EvidenceID>)

  /** The exchange over an accepted credential: none, one that broke, or an answer. */
  datatype Asked = NotAsked | Broken(at: Minted) | Answered(at: Minted, x: Exchange, response: seq<MetadataBroker>)

  /** What the selected path records once the credential is presented. */
  datatype Session = Session(steps: seq<Minted>, asked: Asked) {
    function All(): seq<Minted> {
      if asked.NotAsked? then steps else steps + [asked.at]
    }
  }

  /** The stages on every path, and the session when a path was selected. */
  datatype Protocol = Protocol(discovery: seq<Minted>, session: Option<Session>)

  /** Evidence of a step that is no sweep's and no advertisement's, minted unscoped. */
  ghost predicate PlainNode(e: Evidence, components: seq<string>) {
    && e.Built() && e.id == Encoded([e.step] + components)
    && !TransportStep(e.step) && e.step != STEP_BROKER_ADVERTISED
  }

  ghost predicate PlainSteps(ms: seq<Minted>) {
    forall m :: m in ms ==> PlainNode(m.node, m.components)
  }

  ghost predicate NoExchange(ms: seq<Minted>) {
    forall m :: m in ms ==> m.node.step != STEP_METADATA
  }

  /** Metadata is asked at most once, and its node passes exactly when it was answered. */
  ghost predicate SoundProtocol(plan: Plan, protocol: Protocol) {
    && PlainSteps(protocol.discovery) && NoExchange(protocol.discovery)
    && (protocol.session.Some? ==>
      var s := protocol.session.value;
      && PlainSteps(s.All()) && NoExchange(s.steps)
      && (s.asked.Broken? ==> s.asked.at.node.step == STEP_METADATA && s.asked.at.node.state != Pass)
      && (s.asked.Answered? ==>
        && s.asked.at.node.step == STEP_METADATA && s.asked.at.node.state == Pass
        && s.asked.at.node.id == s.asked.x.id
        && NoControl(s.asked.x.endpoint) && NoControl(s.asked.x.address)
        && DigestsTell(plan, s.asked.x, s.asked.response)))
  }

  ghost function WithNode(c: Content, m: Minted): Content {
    Content(
      c.nodes[m.node.id := m.node], WithEdge(c.parents, m.node.id, m.parent),
      if m.blocker.None? then c.blockedBy else WithEdge(c.blockedBy, m.node.id, m.blocker.value))
  }

  ghost function Noted(c: Content, ms: seq<Minted>): Content {
    if ms == [] then c else WithNode(Noted(c, ms[..|ms| - 1]), ms[|ms| - 1])
  }

  /** The node is new, what it names is there already, and only what was skipped is blocked. */
  ghost predicate NodeFits(nodes: map<EvidenceID, Evidence>, m: Minted) {
    && m.node.id !in nodes && m.parent in nodes
    && (m.blocker.Some? ==> m.node.state == Skipped && m.blocker.value in nodes)
  }

  ghost predicate Fits(c: Content, ms: seq<Minted>) {
    ms != [] ==> Fits(c, ms[..|ms| - 1]) && NodeFits(Noted(c, ms[..|ms| - 1]).nodes, ms[|ms| - 1])
  }

  // ---- what one node and a list of them leave ----

  /** The node is there, derived from what it names and from nothing else, and blocked by
  what it names or by nothing. */
  ghost predicate Holds(c: Content, m: Minted) {
    && m.node.id in c.nodes && c.nodes[m.node.id] == m.node
    && Next(c.parents, m.node.id) == {m.parent}
    && Next(c.blockedBy, m.node.id) == if m.blocker.None? then {} else {m.blocker.value}
  }

  /** Every node that was there is as it was, and so is what it derives from and what blocks it. */
  ghost predicate Untouched(c: Content, after: Content) {
    forall id :: id in c.nodes ==>
      && id in after.nodes && after.nodes[id] == c.nodes[id]
      && Next(after.parents, id) == Next(c.parents, id) && Next(after.blockedBy, id) == Next(c.blockedBy, id)
  }

  lemma StillHolds(c: Content, after: Content, m: Minted)
    requires Untouched(c, after) && Holds(c, m)
    ensures Holds(after, m)
  {
  }

  lemma UntouchedTwice(a: Content, b: Content, c: Content)
    requires Untouched(a, b) && Untouched(b, c)
    ensures Untouched(a, c)
  {
  }

  lemma NodeHolds(c: Content, m: Minted)
    requires Unsaid(c) && NodeFits(c.nodes, m)
    ensures Unsaid(WithNode(c, m)) && Holds(WithNode(c, m), m) && Untouched(c, WithNode(c, m))
    ensures WithNode(c, m).nodes.Keys == c.nodes.Keys + {m.node.id}
  {
  }

  /** Nodes that fit are all there afterwards, nothing before them changed, and nothing else
  was added. */
  lemma {:induction false} NotedHolds(c: Content, ms: seq<Minted>)
    requires Unsaid(c) && Fits(c, ms)
    ensures Unsaid(Noted(c, ms)) && Untouched(c, Noted(c, ms))
    ensures forall m :: m in ms ==> Holds(Noted(c, ms), m)
    ensures forall id :: id in Noted(c, ms).nodes && id !in c.nodes ==> exists m :: m in ms && m.node.id == id
  {
    hide Unsaid, Untouched, Holds, WithNode, NodeFits;
    if ms == [] {
      UntouchedSelf(c);
    } else {
      var front, last := ms[..|ms| - 1], ms[|ms| - 1];
      var before := Noted(c, front);
      NotedHolds(c, front);
      NodeHolds(before, last);
      UntouchedTwice(c, before, Noted(c, ms));
      assert ms == front + [last];
      forall m | m in front ensures Holds(Noted(c, ms), m) {
        StillHolds(before, Noted(c, ms), m);
      }
    }
  }

  lemma UntouchedSelf(c: Content)
    ensures Untouched(c, c)
  {
  }

  lemma {:induction false} FitsBefore(c: Content, ms: seq<Minted>, i: nat)
    requires i <= |ms| && Fits(c, ms)
    ensures Fits(c, ms[..i])
    decreases |ms|
  {
    if i == |ms| {
      assert ms[..i] == ms;
    } else {
      FitsBefore(c, ms[..|ms| - 1], i);
      assert ms[..|ms| - 1][..i] == ms[..i];
    }
  }

  lemma BuiltIsSet(e: Evidence)
    requires e.Built()
    ensures !e.IsZero()
  {
  }

  /** The node and its parent edge, and for a refused credential the edge to the channel
  that was not good enough. */
  method RecordStep(builder: GraphBuilder, m: Minted) returns (r: Outcome)
    requires builder.Valid() && m.node.Built()
    modifies builder
    ensures builder.Valid()
    ensures r.Done? <==> NodeFits(old(builder.nodes), m)
    ensures r.Done? ==> builder.Contents() == WithNode(old(builder.Contents()), m)
    ensures r.Done? <==>
      && m.node.id !in old(builder.nodes) && m.parent in old(builder.nodes)
      && (m.blocker.Some? ==> m.node.state == Skipped && m.blocker.value in old(builder.nodes))
    ensures r.Done? ==> Holds(builder.Contents(), m)
  {
    hide Filed, Acyclic, Evidence.Built, Evidence.IsZero, OnlySkippedBlocked;
    ghost var c := builder.Contents();
    LegalSaysNothing(c);
    if NodeFits(c.nodes, m) {
      NodeHolds(c, m);
    }
    BuiltIsSet(m.node);
    if m.node.id !in builder.nodes && m.blocker.Some? && m.blocker.value in builder.nodes {
      FreshEdgeKeepsAcyclic(builder.nodes, builder.blockedBy, m.node.id, m.blocker.value);
    }
    r := Record(builder, m.node, m.parent);
    if r.Done? && m.blocker.Some? {
      r := builder.AddBlockedBy(m.node.id, m.blocker.value);
    }
  }

  method RecordSteps(builder: GraphBuilder, ms: seq<Minted>) returns (r: Outcome)
    requires builder.Valid() && PlainSteps(ms)
    modifies builder
    ensures builder.Valid()
    ensures r.Done? <==> Fits(old(builder.Contents()), ms)
    ensures r.Done? ==> builder.Contents() == Noted(old(builder.Contents()), ms)
  {
    hide Filed, LegalGraph, Evidence.Built, Evidence.IsZero, TransportStep, WithNode, NodeFits;
    r := Done;
    var i := 0;
    while i < |ms|
      invariant 0 <= i <= |ms| && builder.Valid() && r.Done?
      invariant Fits(old(builder.Contents()), ms[..i]) && builder.Contents() == Noted(old(builder.Contents()), ms[..i])
    {
      assert ms[i] in ms;
      assert ms[..i + 1][..i] == ms[..i];
      if Fits(old(builder.Contents()), ms) {
        FitsBefore(old(builder.Contents()), ms, i + 1);
      }
      r := RecordStep(builder, ms[i]);
      if r.Refused? {
        return;
      }
      i := i + 1;
    }
    assert ms[..|ms|] == ms;
  }

  // ---- what they keep ----

  /** What listing, recording and measuring need of the graph before. */
  ghost predicate Ready(nodes: map<EvidenceID, Evidence>) {
    Unswept(nodes) && NoneAdvertised(nodes)
  }

  ghost predicate NoneAsked(nodes: map<EvidenceID, Evidence>) {
    forall id :: id in nodes ==> nodes[id].step != STEP_METADATA
  }

  lemma PlainKeeps(nodes: map<EvidenceID, Evidence>, e: Evidence, components: seq<string>)
    requires Ready(nodes) && PlainNode(e, components)
    ensures Ready(nodes[e.id := e])
    ensures MissesNothing(nodes) ==> MissesNothing(nodes[e.id := e])
    ensures NoneAsked(nodes) && e.step != STEP_METADATA ==> NoneAsked(nodes[e.id := e])
  {
    hide Unswept, NoneAdvertised, Encoded, Evidence.Built;
    OtherStepKeeps(nodes, e, components);
  }

  lemma {:induction false} NotedKeeps(c: Content, ms: seq<Minted>)
    requires Ready(c.nodes) && PlainSteps(ms)
    ensures Ready(Noted(c, ms).nodes)
    ensures MissesNothing(c.nodes) ==> MissesNothing(Noted(c, ms).nodes)
    ensures NoneAsked(c.nodes) && NoExchange(ms) ==> NoneAsked(Noted(c, ms).nodes)
  {
    hide Ready, PlainNode, MissesNothing, NoneAsked;
    if ms != [] {
      var front, last := ms[..|ms| - 1], ms[|ms| - 1];
      assert last in ms && forall m :: m in front ==> m in ms;
      NotedKeeps(c, front);
      PlainKeeps(Noted(c, front).nodes, last.node, last.components);
    }
  }

  /** What the bootstrap sweep keeps, and that it misses an address only when the context
  is done. */
  lemma BootstrapKeeps(
    c: Content, anchor: EvidenceID, parseAddr: AddrParser, p: Params, net: Network, left: nat, cause: FailureClass)
    requires Ready(c.nodes) && NoneAsked(c.nodes) && MissesNothing(c.nodes)
    requires SoundParser(parseAddr) && SoundNetwork(net) && Measurable(parseAddr, p.host, p.port)
    ensures var after := Grown(c, ZERO_SCOPE, anchor, SweepOf(parseAddr, p, net, left, cause)).nodes;
      && Ready(after) && NoneAsked(after)
      && (Spend(left, |Addresses(parseAddr, p, net)|) == 0 || MissesNothing(after))
  {
    hide Unswept, NoneAdvertised, MissesNothing, SweepOf, SoundParser, SoundNetwork, Measurable, Grown, MeasuredId;
    var sweep := SweepOf(parseAddr, p, net, left, cause);
    SweepIsValid(parseAddr, p, net, left, cause);
    BootstrapSweepKeeps(c, anchor, sweep);
    SweepAsksNothing(c, anchor, sweep);
    if |Addresses(parseAddr, p, net)| <= left {
      SweepMissesNothing(c, ZERO_SCOPE, anchor, parseAddr, p, net, left, cause);
    }
  }

  lemma SweepAsksNothing(c: Content, anchor: EvidenceID, sweep: seq<Measured>)
    requires NoneAsked(c.nodes) && ValidSweep(sweep)
    ensures NoneAsked(Grown(c, ZERO_SCOPE, anchor, sweep).nodes)
  {
    hide Grown, MeasuredId;
    DifferentSteps();
    NodesOfGrown(c, ZERO_SCOPE, anchor, sweep);
    forall m | m in sweep ensures m.step != STEP_METADATA {
      assert ValidMeasured(m);
    }
  }

  /** The requested target shares no identifier with the sweep it causes. */
  lemma TargetIsApart(anchor: Evidence, components: seq<string>, sweep: seq<Measured>)
    requires PlainNode(anchor, components) && ValidSweep(sweep)
    ensures FreshFor(map[anchor.id := anchor], ZERO_SCOPE, sweep)
  {
    hide Encoded, Evidence.Built;
    forall m | m in sweep ensures MeasuredId(ZERO_SCOPE, m) != anchor.id {
      assert ValidMeasured(m);
      var a, b := [anchor.step] + components, Parts(ZERO_SCOPE, m.step, m.components);
      assert a[0] == anchor.step && b[0] == m.step;
      if Encoded(a) == Encoded(b) {
        EncodedInjective(a, b);
      }
    }
  }

  /** After the sweep of the requested target the graph reads as that sweep. */
  lemma BootstrapReads(
    anchor: Evidence, parseAddr: AddrParser, p: Params, net: Network, left: nat, cause: FailureClass)
    requires SoundParser(parseAddr) && SoundNetwork(net) && Measurable(parseAddr, p.host, p.port) && anchor.id != ""
    requires FreshFor(map[anchor.id := anchor], ZERO_SCOPE, SweepOf(parseAddr, p, net, left, cause))
    requires p.scope == ZERO_SCOPE && p.parent == anchor.id
    ensures var nodes := Grown(
        Content(map[anchor.id := anchor], map[], map[]), ZERO_SCOPE, anchor.id,
        SweepOf(parseAddr, p, net, left, cause)).nodes;
      anchor.id in nodes && nodes[anchor.id] == anchor
    ensures SweepRead(
      Grown(
        Content(map[anchor.id := anchor], map[], map[]), ZERO_SCOPE, anchor.id,
        SweepOf(parseAddr, p, net, left, cause)),
      anchor.id, parseAddr, p.host, p.port, p.tls, net, left, cause)
  {
    hide MeasuredId, SweepOf, SoundParser, SoundNetwork, Measurable, Grown, FreshFor, ValidSweep, Placed, SweepRead;
    var c := Content(map[anchor.id := anchor], map[], map[]);
    var sweep := SweepOf(parseAddr, p, net, left, cause);
    SweepIsValid(parseAddr, p, net, left, cause);
    FreshSweepIsPlaced(c, ZERO_SCOPE, anchor.id, sweep);
    PlacedReads(ZERO_SCOPE, anchor.id, parseAddr, p, net, left, cause, Grown(c, ZERO_SCOPE, anchor.id, sweep));
    Swept(c, ZERO_SCOPE, anchor.id, sweep, |sweep|);
    assert sweep[..|sweep|] == sweep;
    KeptByGrowth(c, Grown(c, ZERO_SCOPE, anchor.id, sweep), {anchor.id});
  }

  // ---- the run ----

  /** Freezing the graph and reading its completeness, at whatever point the run ended. */
  method Conclude(ctx: Context, builder: GraphBuilder) returns (d: Diagnosis, done: bool)
    requires builder.Valid()
    modifies ctx
    ensures FreezesInto(builder.Contents(), d.graph)
    ensures done <==> old(ctx.left) == 0
    ensures d.incomplete <==> !CompleteRun(done, d.graph)
  {
    hide Filed, LegalGraph, GraphOf, CompleteRun;
    var frozen := builder.Freeze();
    GraphOfIsFrozen(builder.nodes, builder.parents, builder.blockedBy);
    done := ctx.Err();
    var incomplete := IncompleteKafkaRun(done, frozen.value);
    d := Diagnosis(frozen.value, incomplete);
  }

  /** The verdict's meaning at the end of any run. */
  ghost predicate MeansWhatItSays(d: Diagnosis, done: bool) {
    d.incomplete <==>
      || done
      || if MetadataPassed(d.graph) then exists ad :: Promised(d.graph, ad) && !Settles(d.graph, ad)
         else exists id :: Stopped(d.graph, id)
  }

  lemma UnaskedMeans(d: Diagnosis, done: bool)
    requires d.incomplete <==> !CompleteRun(done, d.graph)
    requires forall id :: id in d.graph.nodes && d.graph.nodes[id].step == STEP_METADATA ==>
      d.graph.nodes[id].state != Pass
    ensures MeansWhatItSays(d, done) && !MetadataPassed(d.graph)
  {
    hide Resolved, Promised, Settles, Stopped;
  }

  lemma NoneAskedMeans(d: Diagnosis, done: bool)
    requires d.incomplete <==> !CompleteRun(done, d.graph)
    requires NoneAsked(d.graph.nodes)
    ensures MeansWhatItSays(d, done) && !MetadataPassed(d.graph)
  {
    hide Resolved, Promised, Settles, Stopped, CompleteRun, MeansWhatItSays;
    UnaskedMeans(d, done);
  }

  lemma AnsweredMeans(d: Diagnosis, done: bool)
    requires MetadataPassed(d.graph)
    requires d.incomplete <==> done || exists ad :: Promised(d.graph, ad) && !Settles(d.graph, ad)
    ensures MeansWhatItSays(d, done)
  {
    hide Promised, Settles, MetadataPassed;
  }

  /** A graph of the target alone is ready. */
  lemma TargetIsReady(anchor: Evidence, components: seq<string>)
    requires PlainNode(anchor, components) && anchor.step == STEP_REQUESTED
    ensures var nodes := map[anchor.id := anchor]; Ready(nodes) && NoneAsked(nodes) && MissesNothing(nodes)
  {
    hide Encoded, Evidence.Built;
    var none: map<EvidenceID, Evidence> := map[];
    assert STEP_REQUESTED[0] == 't' && STEP_METADATA[0] == 'k';
    assert none[anchor.id := anchor] == map[anchor.id := anchor];
    PlainKeeps(none, anchor, components);
  }

  lemma ReadyIs(nodes: map<EvidenceID, Evidence>)
    requires Ready(nodes)
    ensures Unswept(nodes) && NoneAdvertised(nodes)
  {
    hide Unswept, NoneAdvertised;
  }

  /** Afterwards the exchange that was answered is the only one, and one that broke did
  not pass. */
  lemma SessionAsks(c: Content, s: Session)
    requires NoneAsked(c.nodes) && Ready(c.nodes) && PlainSteps(s.All()) && NoExchange(s.steps)
    requires s.asked.Broken? ==> s.asked.at.node.state != Pass
    requires s.asked.Answered? ==> s.asked.at.node.step == STEP_METADATA && s.asked.at.node.state == Pass
    ensures s.asked.Answered? ==> PassedExchange(Noted(c, s.All()).nodes, s.asked.at.node.id)
    ensures !s.asked.Answered? ==> forall id ::
      id in Noted(c, s.All()).nodes && Noted(c, s.All()).nodes[id].step == STEP_METADATA ==>
        Noted(c, s.All()).nodes[id].state != Pass
  {
    hide Ready, PlainNode;
    if s.asked.NotAsked? {
      NotedKeeps(c, s.steps);
    } else {
      assert s.All()[..|s.steps|] == s.steps;
      assert PlainSteps(s.steps);
      NotedKeeps(c, s.steps);
    }
  }

  /** A path is selected, and the context is alive when the credential is to be presented. */
  ghost predicate Continues(protocol: Protocol, left: nat) {
    protocol.session.Some? && left > 0
  }

  /** What the stages record when nothing refuses them. */
  ghost function Told(c: Content, protocol: Protocol, left: nat): Content {
    var discovered := Noted(c, protocol.discovery);
    if Continues(protocol, left) then Noted(discovered, protocol.session.value.All()) else discovered
  }

  ghost predicate GetsAnswer(protocol: Protocol, left: nat) {
    Continues(protocol, left) && protocol.session.value.asked.Answered?
  }

  /** What the stages record fits the graph. */
  ghost predicate StepsFit(c: Content, protocol: Protocol, left: nat) {
    && Fits(c, protocol.discovery)
    && (Continues(protocol, left) ==> Fits(Noted(c, protocol.discovery), protocol.session.value.All()))
  }

  /** Nothing refuses the stages: what they record fits the graph, and every broker that
  is considered can be measured. */
  ghost predicate StagesFit(plan: Plan, c: Content, protocol: Protocol, left: nat, brokers: seq<DiscoveredBroker>) {
    StepsFit(c, protocol, left) && (GetsAnswer(protocol, left) ==> AllMeasurable(plan, brokers, left - 1))
  }

  /** How often the context would still be found alive after everything. */
  ghost function LeftAtEnd(plan: Plan, protocol: Protocol, left: nat, brokers: seq<DiscoveredBroker>): nat {
    if GetsAnswer(protocol, left) then LeftAt(plan, brokers, left - 1, |brokers|)
    else if Continues(protocol, left) then left - 1
    else left
  }

  /** The graph holds what the stages recorded and nothing else, or, when the exchange was
  answered, what that becomes once the answer was described. */
  ghost predicate Reports(
    plan: Plan, c: Content, protocol: Protocol, left: nat, cause: FailureClass, brokers: seq<DiscoveredBroker>,
    g: Graph)
  {
    && (MetadataPassed(g) <==> GetsAnswer(protocol, left))
    && if GetsAnswer(protocol, left) then
      var asked := protocol.session.value.asked;
      Delivers(Told(c, protocol, left), asked.x, asked.response, brokers, plan, left - 1, cause, g)
    else FreezesInto(Told(c, protocol, left), g)
  }

  /** The report's graph reads as the sweeps of the brokers that were come to. */
  ghost predicate ReportsSweeps(
    plan: Plan, protocol: Protocol, left: nat, cause: FailureClass, brokers: seq<DiscoveredBroker>, g: Graph)
  {
    GetsAnswer(protocol, left) ==>
      exists c :: FreezesInto(c, g) && BrokersRead(c, plan, brokers, left - 1, cause)
  }

  /** One step as the report shows it: its node, what it was derived from, what blocked it. */
  ghost predicate Shows(g: Graph, m: Minted) {
    && m.node.id in g.nodes && g.nodes[m.node.id] == m.node
    && (forall p :: p in g.Parents(m.node.id) <==> p == m.parent)
    && (forall b :: b in g.BlockedBy(m.node.id) <==> m.blocker == Some(b))
  }

  /** The report shows every step of discovery and, when the run came to the credential, every
  step of the session; a run that did not come to it adds nothing beyond discovery. */
  ghost predicate ReportsSteps(c: Content, protocol: Protocol, left: nat, g: Graph) {
    && (forall id :: id in c.nodes ==> id in g.nodes && g.nodes[id] == c.nodes[id])
    && (forall m :: m in protocol.discovery ==> Shows(g, m))
    && (protocol.session.Some? && left > 0 ==>
      && (forall m :: m in protocol.session.value.steps ==> Shows(g, m))
      && (!protocol.session.value.asked.NotAsked? ==> Shows(g, protocol.session.value.asked.at)))
    && (protocol.session.None? || left == 0 ==>
      forall id :: id in g.nodes && id !in c.nodes ==> exists m :: m in protocol.discovery && m.node.id == id)
  }

  lemma HeldIsShown(c: Content, g: Graph, m: Minted)
    requires Holds(c, m) && FreezesInto(c, g)
    ensures Shows(g, m)
  {
    hide Frozen;
    var id := m.node.id;
    forall x
      ensures x in g.Parents(id) <==> x in Next(c.parents, id)
      ensures x in g.BlockedBy(id) <==> x in Next(c.blockedBy, id)
    {
      InRelation(g.parents, id, x);
      InRelation(g.blockedBy, id, x);
    }
  }

  /** What the stages told is shown by every graph that grew from it. */
  lemma ToldIsShown(c: Content, protocol: Protocol, left: nat, after: Content, g: Graph)
    requires Unsaid(c) && StepsFit(c, protocol, left) && Untouched(Told(c, protocol, left), after)
    requires FreezesInto(after, g)
    requires !Continues(protocol, left) ==> after == Told(c, protocol, left)
    ensures ReportsSteps(c, protocol, left, g)
  {
    hide Unsaid, Untouched, Holds, Noted, Fits, Frozen, Shows, ParentRelation, BlockRelation;
    var discovered, told := Noted(c, protocol.discovery), Told(c, protocol, left);
    NotedHolds(c, protocol.discovery);
    if Continues(protocol, left) {
      NotedHolds(discovered, protocol.session.value.All());
    } else {
      UntouchedSelf(discovered);
    }
    UntouchedTwice(discovered, told, after);
    UntouchedTwice(c, discovered, after);
    UntouchedNodes(c, after);
    forall m | m in protocol.discovery ensures Shows(g, m) {
      StillHolds(discovered, after, m);
      HeldIsShown(after, g, m);
    }
    if Continues(protocol, left) {
      forall m | m in protocol.session.value.All() ensures Shows(g, m) {
        StillHolds(told, after, m);
        HeldIsShown(after, g, m);
      }
    }
  }

  lemma UntouchedNodes(c: Content, after: Content)
    requires Untouched(c, after)
    ensures forall id :: id in c.nodes ==> id in after.nodes && after.nodes[id] == c.nodes[id]
  {
  }

  /** Recording and measuring an answer touch nothing that was there. */
  lemma DeliveredKeeps(
    c: Content, x: Exchange, response: seq<MetadataBroker>, brokers: seq<DiscoveredBroker>, plan: Plan, left: nat,
    cause: FailureClass, g: Graph)
    returns (after: Content)
    requires Delivers(c, x, response, brokers, plan, left, cause, g)
    ensures Untouched(c, after) && FreezesInto(after, g)
  {
    hide IsListing, Clean, MeasuredTo, LeftAt, Content.Legal, SweepRecorded, Frozen, StopsAt, Grew, Recorded, Untouched;
    var es, mid, leftAfter;
    es, mid, after, leftAfter :|
      Described(c, x, es, brokers, plan, left, cause, mid, after, leftAfter) && FreezesInto(after, g);
    var n :| MeasuredUntil(mid, brokers, plan, left, cause, n, after, leftAfter);
    WithinBrokers(plan, brokers, left, n);
    LegalSaysNothing(mid);
    SweepsLeave(mid, plan, brokers, left, cause, n);
    GrownIsUntouched(mid, after, MeasuredRoots(brokers, n));
    RecordedIsUntouched(c, x, es, mid);
    UntouchedTwice(c, mid, after);
  }

  lemma GrownIsUntouched(c: Content, after: Content, roots: set<EvidenceID>)
    requires Grew(c, after, roots)
    ensures Untouched(c, after)
  {
  }

  lemma RecordedIsUntouched(c: Content, x: Exchange, es: seq<Advertisement>, mid: Content)
    requires Recorded(x, es, c.nodes, c.parents, mid.nodes, mid.parents) && mid.blockedBy == c.blockedBy
    ensures Untouched(c, mid)
  {
    hide IdOf, Next;
  }

  ghost predicate Lists(plan: Plan, asked: Asked, brokers: seq<DiscoveredBroker>)
    requires asked.Answered?
  {
    exists es, at, n ::
      IsListing(plan.parseAddr, asked.response, |asked.response|, es, at, n) && Discovers(asked.x, es, brokers)
  }

  /** The run from its protocol stages on. The context is checked once before the
  credential is presented, and a run that is over by then asks nothing. */
  method DiagnoseStages(ctx: Context, builder: GraphBuilder, protocol: Protocol, plan: Plan)
    returns (r: Result<Diagnosis>, brokers: seq<DiscoveredBroker>, done: bool)
    requires builder.Valid() && SoundPlan(plan) && SoundProtocol(plan, protocol)
    requires Ready(builder.nodes) && NoneAsked(builder.nodes) && (ctx.left == 0 || MissesNothing(builder.nodes))
    modifies ctx, builder
    ensures builder.Valid()
    ensures r.Ok? <==> StagesFit(plan, old(builder.Contents()), protocol, old(ctx.left), brokers)
    ensures r.Ok? ==>
      Reports(plan, old(builder.Contents()), protocol, old(ctx.left), ctx.cause, brokers, r.value.graph)
    ensures r.Ok? ==> ReportsSweeps(plan, protocol, old(ctx.left), ctx.cause, brokers, r.value.graph)
    ensures r.Ok? ==> ReportsSteps(old(builder.Contents()), protocol, old(ctx.left), r.value.graph)
    ensures r.Ok? ==> (done <==> LeftAtEnd(plan, protocol, old(ctx.left), brokers) == 0)
    ensures r.Ok? ==> MeansWhatItSays(r.value, done)
    ensures r.Ok? && !done && MetadataPassed(r.value.graph) ==> NoneMissed(r.value.graph)
    ensures StepsFit(old(builder.Contents()), protocol, old(ctx.left)) && GetsAnswer(protocol, old(ctx.left)) ==>
      Lists(plan, protocol.session.value.asked, brokers)
  {
    hide Filed, LegalGraph, GraphOf, CompleteRun, IsListing, Discovers, AllMeasurable, Fits, Noted, MeansWhatItSays,
      Ready, NoneAsked, MissesNothing, MetadataPassed, NoneMissed, PlainSteps, NoExchange, Frozen, Settles, Promised,
      LeftAt, SoundPlan, PassedExchange, Delivers, BrokersRead, ReportsSteps, Unsaid, Untouched, Holds;
    brokers, done := [], false;
    LegalSaysNothing(builder.Contents());
    ghost var c, left := builder.Contents(), ctx.left;
    NotedKeeps(c, protocol.discovery);
    var recorded := RecordSteps(builder, protocol.discovery);
    if recorded.Refused? {
      return Err(recorded.error), brokers, done;
    }
    var over := true;
    if protocol.session.Some? {
      over := ctx.Err();
    }
    var d;
    if over {
      d, done := Conclude(ctx, builder);
      NoneAskedMeans(d, done);
      UntouchedSelf(Told(c, protocol, left));
      ToldIsShown(c, protocol, left, Told(c, protocol, left), d.graph);
      return Ok(d), brokers, done;
    }
    var session := protocol.session.value;
    ghost var before := builder.Contents();
    NotedKeeps(before, session.All());
    SessionAsks(before, session);
    recorded := RecordSteps(builder, session.All());
    if recorded.Refused? {
      return Err(recorded.error), brokers, done;
    }
    if !session.asked.Answered? {
      d, done := Conclude(ctx, builder);
      UnaskedMeans(d, done);
      UntouchedSelf(Told(c, protocol, left));
      ToldIsShown(c, protocol, left, Told(c, protocol, left), d.graph);
      return Ok(d), brokers, done;
    }
    ReadyIs(builder.nodes);
    ExchangeIsThere(builder.nodes, session.asked.x.id);
    r, brokers, done := DiagnoseTopology(ctx, builder, session.asked.x, session.asked.response, plan);
    if r.Ok? {
      AnsweredMeans(r.value, done);
      ghost var after := DeliveredKeeps(
        Told(c, protocol, left), session.asked.x, session.asked.response, brokers, plan, left - 1, ctx.cause,
        r.value.graph);
      ToldIsShown(c, protocol, left, after, r.value.graph);
    }
  }

  lemma ExchangeIsThere(nodes: map<EvidenceID, Evidence>, id: EvidenceID)
    ensures PassedExchange(nodes, id) ==> id in nodes
  {
  }

  /** What the graph holds once the target is recorded and its endpoint was swept. */
  ghost function Bootstrapped(
    plan: Plan, anchor: Evidence, p: Params, net: Network, left: nat, cause: FailureClass): Content
  {
    Grown(
      Content(map[anchor.id := anchor], map[], map[]), ZERO_SCOPE, anchor.id,
      SweepOf(plan.parseAddr, p, net, left, cause))
  }

  /** From an empty graph to the verdict, with nothing assumed of the graph on the way: the
  run ends in an error exactly when its host cannot be measured or its stages do not fit,
  and otherwise it is reported incomplete if and only if the context is done, or a
  promised verdict is open, or, when no exchange passed, a step was stopped. */
  method DiagnoseKafka(
    ctx: Context, anchor: Evidence, components: seq<string>, p: Params, net: Network, protocol: Protocol, plan: Plan)
    returns (r: Result<Diagnosis>, brokers: seq<DiscoveredBroker>, done: bool)
    requires SoundPlan(plan) && SoundNetwork(net) && SoundProtocol(plan, protocol)
    requires PlainNode(anchor, components) && anchor.step == STEP_REQUESTED
    requires p.scope == ZERO_SCOPE && p.parent == anchor.id
    modifies ctx
    ensures var c, left := Bootstrapped(plan, anchor, p, net, old(ctx.left), ctx.cause),
        Spend(old(ctx.left), |Addresses(plan.parseAddr, p, net)|);
      && (r.Ok? <==> Measurable(plan.parseAddr, p.host, p.port) && StagesFit(plan, c, protocol, left, brokers))
      && (r.Ok? ==> Reports(plan, c, protocol, left, ctx.cause, brokers, r.value.graph))
      && (r.Ok? ==> ReportsSweeps(plan, protocol, left, ctx.cause, brokers, r.value.graph))
      && (r.Ok? ==> ReportsSteps(c, protocol, left, r.value.graph))
      && (r.Ok? ==> (done <==> LeftAtEnd(plan, protocol, left, brokers) == 0))
      && (Measurable(plan.parseAddr, p.host, p.port) && StepsFit(c, protocol, left) && GetsAnswer(protocol, left) ==>
        Lists(plan, protocol.session.value.asked, brokers))
    ensures r.Ok? ==> anchor.id in r.value.graph.nodes && r.value.graph.nodes[anchor.id] == anchor
    ensures r.Ok? ==> SweepRead(
      Bootstrapped(plan, anchor, p, net, old(ctx.left), ctx.cause), anchor.id, plan.parseAddr, p.host, p.port, p.tls,
      net, old(ctx.left), ctx.cause)
    ensures r.Ok? ==> MeansWhatItSays(r.value, done)
    ensures r.Ok? && !done && MetadataPassed(r.value.graph) ==> NoneMissed(r.value.graph)
  {
    hide Filed, LegalGraph, Measurable, SoundNetwork, Grown, SweepOf, Addresses, FreshFor, MeansWhatItSays, Ready,
      NoneAsked, MissesNothing, MetadataPassed, NoneMissed, Evidence.Built, Evidence.IsZero, Frozen, ValidSweep,
      StagesFit, StepsFit, GetsAnswer, Lists, Reports, ReportsSweeps, ReportsSteps, LeftAtEnd, SoundProtocol,
      PlainNode, SweepRead;
    brokers, done := [], false;
    ghost var left, cause := ctx.left, ctx.cause;
    var builder := new GraphBuilder();
    PlainIsSet(anchor, components);
    TargetIsReady(anchor, components);
    var recorded := builder.AddEvidence(anchor);
    ghost var c := builder.Contents();
    if Measurable(plan.parseAddr, p.host, p.port) {
      SweepIsValid(plan.parseAddr, p, net, left, cause);
      TargetIsApart(anchor, components, SweepOf(plan.parseAddr, p, net, left, cause));
      BootstrapKeeps(c, anchor.id, plan.parseAddr, p, net, left, cause);
      BuiltIsNamed(anchor, components);
      BootstrapReads(anchor, plan.parseAddr, p, net, left, cause);
    }
    recorded := Run(ctx, builder, plan.parseAddr, p, net);
    if recorded.Refused? {
      return Err(recorded.error), brokers, done;
    }
    ghost var swept, after := builder.Contents(), ctx.left;
    r, brokers, done := DiagnoseStages(ctx, builder, protocol, plan);
    if r.Ok? {
      OldIsReported(swept, protocol, after, r.value.graph, anchor.id);
    }
  }

  lemma OldIsReported(c: Content, protocol: Protocol, left: nat, g: Graph, id: EvidenceID)
    requires ReportsSteps(c, protocol, left, g) && id in c.nodes
    ensures id in g.nodes && g.nodes[id] == c.nodes[id]
  {
  }

  lemma BuiltIsNamed(e: Evidence, components: seq<string>)
    requires PlainNode(e, components)
    ensures e.id != ""
  {
  }

  lemma PlainIsSet(e: Evidence, components: seq<string>)
    requires PlainNode(e, components)
    ensures e.Built() && !e.IsZero()
  {
    BuiltIsSet(e);
  }
}
