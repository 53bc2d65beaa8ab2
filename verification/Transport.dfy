/** One transport sweep: a host is resolved, every address it has is tried, and what
connects is taken through TLS. What the sweep leaves in the graph is a function of what
the network answered and of how long the caller's context lasted. */
module Transports {
  import opened Text
  import opened Orders
  import opened Relations
  import opened Results
  import opened Evidences
  import opened Graphs
  import opened Identifiers
  import opened Hosts

  const STEP_LOOKUP: Step := "dns.lookup"
  const STEP_CONNECT: Step := "tcp.connect"
  const STEP_HANDSHAKE: Step := "tls.handshake"

  predicate TransportStep(step: Step) {
    step == STEP_LOOKUP || step == STEP_CONNECT || step == STEP_HANDSHAKE
  }

  /** Every step mints a fixed number of components. */
  function Arity(step: Step): nat {
    if step == STEP_LOOKUP then 1 else 2
  }

  // ---- the caller's context ----

  predicate LocalCause(failureClass: FailureClass) {
    failureClass == ExecLocalTimeout || failureClass == ExecCancelled
  }

  /** A context is found alive some number of times, and is done ever after. */
  class Context {
    var left: nat
    const cause: FailureClass

    constructor (left: nat, cause: FailureClass)
      ensures this.left == left && this.cause == cause
    {
      this.left, this.cause := left, cause;
    }

    method Err() returns (done: bool)
      modifies this
      ensures done <==> old(left) == 0
      ensures left == if done then 0 else old(left) - 1
    {
      if left == 0 {
        return true;
      }
      left := left - 1;
      return false;
    }
  }

  // ---- what a sweep is asked and what it sees ----

  datatype Params = Params(host: string, port: nat, tls: bool, scope: SweepScope, parent: EvidenceID)

  datatype Seen = Seen(state: State, failureClass: FailureClass)

  datatype Lookup = Lookup(seen: Seen, answers: seq<string>)

  /** What the network would let each probe call of one sweep see. */
  datatype Network = Network(lookup: Lookup, connect: string -> Seen, handshake: string -> Seen)

  /** A probe that ran passed, failed for a reason, or does not know. */
  predicate SoundSeen(seen: Seen) {
    && (seen.state == Pass || seen.state == Fail || seen.state == Unknown)
    && (seen.state == Pass ==> seen.failureClass == FailureNone)
    && (seen.state == Fail ==> seen.failureClass != FailureNone)
  }

  /** A lookup passes only with answers, and does not know only when it was cut short. */
  predicate SoundLookup(lookup: Lookup) {
    && SoundSeen(lookup.seen)
    && (lookup.seen.state == Pass ==> lookup.answers != [])
    && (lookup.seen.state == Unknown ==> LocalCause(lookup.seen.failureClass))
  }

  ghost predicate SoundNetwork(net: Network) {
    && SoundLookup(net.lookup) && Distinct(net.lookup.answers)
    && (forall a :: a in net.lookup.answers ==> ValidIdentifier(a))
    && (forall a :: SoundSeen(net.connect(a)))
    && (forall a :: SoundSeen(net.handshake(a)))
  }

  /** Which hosts a sweep can be run for at all. */
  predicate Measurable(parseAddr: AddrParser, host: string, port: nat) {
    && port != 0
    && match parseAddr(host)
       case Some(addr) => host != "" && addr.zone == ""
       case None => Plain(host)
  }

  // ---- the steps of a sweep ----

  /** One step, derived from the sweep's parent when under is zero and otherwise from
  the under-th step before it. */
  datatype Measured = Measured(
    step: Step,
    components: seq<string>,
    subject: Subject,
    layer: Layer,
    seen: Seen,
    under: nat,
    blocked: bool)

  function LookupStep(p: Params, seen: Seen): Measured {
    Measured(STEP_LOOKUP, [p.host], Subject(SubjectKindEndpoint, p.host), LayerDNS, seen, 0, false)
  }

  function AddressStep(
    p: Params, step: Step, layer: Layer, address: string, seen: Seen, under: nat, blocked: bool): Measured
  {
    Measured(
      step, [JoinHostPort(p.host, p.port), address], Subject(SubjectKindEndpoint, JoinHostPort(address, p.port)), layer,
      seen, under, blocked)
  }

  function ConnectStep(p: Params, address: string, seen: Seen, under: nat): Measured {
    AddressStep(p, STEP_CONNECT, LayerTCP, address, seen, under, false)
  }

  function HandshakeStep(p: Params, address: string, seen: Seen, under: nat): Measured {
    AddressStep(p, STEP_HANDSHAKE, LayerTLS, address, seen, under, seen.state == Skipped)
  }

  const NO_CONNECTION := Seen(Skipped, ExecSkippedPrerequisiteFailed)

  /** What a connection attempt sees: nothing when the budget was gone before it. */
  function ConnectSeen(net: Network, address: string, alive: bool, cause: FailureClass): Seen {
    if alive then net.connect(address) else Seen(Skipped, cause)
  }

  function HandshakeSeen(net: Network, address: string, connect: Seen): Seen {
    if connect.state == Pass then net.handshake(address) else NO_CONNECTION
  }

  /** The steps one address leaves: its connection, and the handshake over it when TLS
  was asked for. There are `at` steps before them. */
  function Attempt(p: Params, net: Network, address: string, connect: Seen, under: nat, at: nat): seq<Measured> {
    [ConnectStep(p, address, connect, under)]
    + if p.tls then [HandshakeStep(p, address, HandshakeSeen(net, address, connect), at + 1)] else []
  }

  /** The steps of a whole sweep: address k is tried when the context is found alive
  more than k times. */
  function Chain(
    p: Params, net: Network, start: seq<Measured>, addresses: seq<string>, left: nat,
    cause: FailureClass): seq<Measured>
  {
    if addresses == [] then start
    else
      var k := |addresses| - 1;
      var before := Chain(p, net, start, addresses[..k], left, cause);
      before + Attempt(p, net, addresses[k], ConnectSeen(net, addresses[k], k < left, cause), |start|, |before|)
  }

  /** A literal host is not looked up: there is nothing to ask. */
  function Start(parseAddr: AddrParser, p: Params, net: Network): seq<Measured> {
    if parseAddr(p.host).Some? then [] else [LookupStep(p, net.lookup.seen)]
  }

  function Addresses(parseAddr: AddrParser, p: Params, net: Network): seq<string> {
    if parseAddr(p.host).Some? then [parseAddr(p.host).value.unmapped] else net.lookup.answers
  }

  function SweepOf(parseAddr: AddrParser, p: Params, net: Network, left: nat, cause: FailureClass): seq<Measured> {
    Chain(p, net, Start(parseAddr, p, net), Addresses(parseAddr, p, net), left, cause)
  }

  function Spend(left: nat, checks: nat): nat {
    if left < checks then 0 else left - checks
  }

  // ---- the graph a sweep leaves ----

  ghost function MeasuredId(scope: SweepScope, m: Measured): EvidenceID {
    Encoded(Parts(scope, m.step, m.components))
  }

  ghost function MeasuredNode(scope: SweepScope, m: Measured): Evidence {
    Evidence(MeasuredId(scope, m), m.subject, m.layer, m.step, m.seen.state, m.seen.failureClass)
  }

  function Derived(parents: Relation, id: EvidenceID, from: EvidenceID): Relation {
    if from == "" then parents else WithEdge(parents, id, from)
  }

  /** One more step: a node under the one it was derived from, and blocked by it when it
  never ran. */
  ghost function WithStep(c: Content, scope: SweepScope, m: Measured, from: EvidenceID): Content {
    var id := MeasuredId(scope, m);
    Content(
      c.nodes[id := MeasuredNode(scope, m)], Derived(c.parents, id, from),
      if m.blocked then WithEdge(c.blockedBy, id, from) else c.blockedBy)
  }

  /** The node a step was derived from: an earlier step of the sweep, or its parent. */
  ghost function ParentOf(scope: SweepScope, parent: EvidenceID, sweep: seq<Measured>, k: nat): EvidenceID
    requires k < |sweep|
  {
    if 0 < sweep[k].under <= k then MeasuredId(scope, sweep[sweep[k].under - 1]) else parent
  }

  /** What a builder holds after a sweep was recorded into it. */
  ghost function Grown(c: Content, scope: SweepScope, parent: EvidenceID, sweep: seq<Measured>): Content {
    if sweep == [] then c
    else
      var k := |sweep| - 1;
      WithStep(Grown(c, scope, parent, sweep[..k]), scope, sweep[k], ParentOf(scope, parent, sweep, k))
  }

  ghost predicate FreshFor(nodes: map<EvidenceID, Evidence>, scope: SweepScope, sweep: seq<Measured>) {
    forall m :: m in sweep ==> MeasuredId(scope, m) !in nodes
  }

  // ---- every step is a legal node ----

  ghost predicate ValidMeasured(m: Measured) {
    && TransportStep(m.step) && |m.components| == Arity(m.step)
    && (forall c :: c in m.components ==> NoControl(c)) && EndsSolid(m.components[|m.components| - 1])
    && !m.subject.IsZero() && m.subject.Built() && m.layer.Valid()
    && (m.seen.state == Pass ==> m.seen.failureClass == FailureNone)
    && (m.seen.state == Fail ==> m.seen.failureClass != FailureNone)
    && (m.blocked ==> m.seen.state == Skipped && m.under > 0)
  }

  /** A sweep measures each thing once, and derives each step from an earlier one. */
  ghost predicate ValidSweep(sweep: seq<Measured>) {
    && (forall m :: m in sweep ==> ValidMeasured(m))
    && (forall k :: 0 <= k < |sweep| ==> sweep[k].under <= k)
    && (forall j, k :: 0 <= j < k < |sweep| ==>
      sweep[j].step != sweep[k].step || sweep[j].components != sweep[k].components)
  }

  lemma StepNames()
    ensures STEP_LOOKUP != STEP_CONNECT && STEP_LOOKUP != STEP_HANDSHAKE && STEP_CONNECT != STEP_HANDSHAKE
  {
    assert STEP_LOOKUP[0] == 'd' && STEP_CONNECT[0] == 't' && STEP_HANDSHAKE[0] == 't';
    assert STEP_CONNECT[1] == 'c' && STEP_HANDSHAKE[1] == 'l';
  }

  /** A host a sweep can be run for, read as the label and the name its nodes carry. */
  lemma MeasurableText(parseAddr: AddrParser, host: string, port: nat)
    requires SoundParser(parseAddr) && Measurable(parseAddr, host, port)
    ensures Plain(host) && NoControl(JoinHostPort(host, port))
    ensures parseAddr(host).Some? ==> ValidIdentifier(parseAddr(host).value.unmapped)
  {
    hide JoinHostPort;
    PlainText(host);
    EndpointText(host, port);
    if parseAddr(host).Some? {
      PlainText(parseAddr(host).value.unmapped);
    }
  }

  lemma AddressStepIsValid(
    p: Params, step: Step, layer: Layer, address: string, seen: Seen, under: nat, blocked: bool)
    requires step == STEP_CONNECT || step == STEP_HANDSHAKE
    requires layer.Valid() && NoControl(JoinHostPort(p.host, p.port)) && ValidIdentifier(address)
    requires SoundSeen(seen) || (seen.state == Skipped && (blocked ==> under > 0))
    requires blocked ==> seen.state == Skipped
    ensures ValidMeasured(AddressStep(p, step, layer, address, seen, under, blocked))
  {
    hide JoinHostPort, NoControl;
    StepNames();
    EndpointText(address, p.port);
  }

  lemma LookupStepIsValid(p: Params, seen: Seen)
    requires Plain(p.host) && SoundSeen(seen)
    ensures ValidMeasured(LookupStep(p, seen))
  {
    PlainText(p.host);
  }

  lemma AttemptIsValid(p: Params, net: Network, address: string, connect: Seen, under: nat, at: nat)
    requires NoControl(JoinHostPort(p.host, p.port)) && ValidIdentifier(address) && SoundNetwork(net)
    requires SoundSeen(connect) || connect.state == Skipped
    ensures forall m :: m in Attempt(p, net, address, connect, under, at) ==> ValidMeasured(m)
  {
    hide JoinHostPort, NoControl, ValidMeasured, AddressStep, ValidIdentifier, Layer.Valid;
    assert LayerTCP.Valid() && LayerTLS.Valid() by { AddressLayers(); }
    var handshake := HandshakeSeen(net, address, connect);
    AddressStepIsValid(p, STEP_CONNECT, LayerTCP, address, connect, under, false);
    AddressStepIsValid(p, STEP_HANDSHAKE, LayerTLS, address, handshake, at + 1, handshake.state == Skipped);
  }

  lemma AddressLayers()
    ensures LayerTCP.Valid() && LayerTLS.Valid()
  {
  }

  /** What the steps of a chain measure: the host once, and each address it has. */
  ghost predicate Names(p: Params, m: Measured, start: seq<Measured>, addresses: seq<string>) {
    || m in start
    || (m.step != STEP_LOOKUP && exists a :: a in addresses && m.components == [JoinHostPort(p.host, p.port), a])
  }

  lemma {:induction false} ChainIsValid(
    p: Params, net: Network, start: seq<Measured>, addresses: seq<string>, left: nat, cause: FailureClass)
    requires NoControl(JoinHostPort(p.host, p.port)) && SoundNetwork(net)
    requires ValidSweep(start) && (forall m :: m in start ==> m.step == STEP_LOOKUP)
    requires Distinct(addresses) && forall a :: a in addresses ==> ValidIdentifier(a)
    ensures ValidSweep(Chain(p, net, start, addresses, left, cause))
    ensures |start| <= |Chain(p, net, start, addresses, left, cause)|
    ensures forall m :: m in Chain(p, net, start, addresses, left, cause) ==> Names(p, m, start, addresses)
  {
    hide JoinHostPort, NoControl, ValidMeasured, ValidIdentifier, SoundNetwork;
    if addresses == [] {
    } else {
      var k := |addresses| - 1;
      ChainIsValid(p, net, start, addresses[..k], left, cause);
      SoundConnect(net, addresses[k], k < left, cause);
      AttemptIsValid(
        p, net, addresses[k], ConnectSeen(net, addresses[k], k < left, cause), |start|,
        |Chain(p, net, start, addresses[..k], left, cause)|);
      ChainNext(
        p, net, start, addresses, Chain(p, net, start, addresses[..k], left, cause),
        ConnectSeen(net, addresses[k], k < left, cause));
    }
  }

  lemma SoundConnect(net: Network, address: string, alive: bool, cause: FailureClass)
    requires SoundNetwork(net)
    ensures SoundSeen(ConnectSeen(net, address, alive, cause)) ||
      ConnectSeen(net, address, alive, cause).state == Skipped
  {
  }

  lemma ChainNext(
    p: Params, net: Network, start: seq<Measured>, addresses: seq<string>, before: seq<Measured>, connect: Seen)
    requires addresses != [] && Distinct(addresses) && |start| <= |before|
    requires ValidSweep(before) && (forall m :: m in start ==> m.step == STEP_LOOKUP)
    requires forall m :: m in before ==> Names(p, m, start, addresses[..|addresses| - 1])
    requires forall m :: m in Attempt(p, net, addresses[|addresses| - 1], connect, |start|, |before|) ==>
      ValidMeasured(m)
    ensures var attempt := Attempt(p, net, addresses[|addresses| - 1], connect, |start|, |before|);
      ValidSweep(before + attempt) && forall m :: m in before + attempt ==> Names(p, m, start, addresses)
  {
    hide JoinHostPort, ValidMeasured;
    StepNames();
    var last := addresses[|addresses| - 1];
    var attempt := Attempt(p, net, last, connect, |start|, |before|);
    assert last !in addresses[..|addresses| - 1];
    forall m | m in before ensures m.step == STEP_LOOKUP || m.components != [JoinHostPort(p.host, p.port), last] {
      assert Names(p, m, start, addresses[..|addresses| - 1]);
    }
    forall m | m in before + attempt ensures Names(p, m, start, addresses) {
    }
  }

  lemma SweepIsValid(parseAddr: AddrParser, p: Params, net: Network, left: nat, cause: FailureClass)
    requires SoundParser(parseAddr) && SoundNetwork(net) && Measurable(parseAddr, p.host, p.port)
    ensures ValidSweep(SweepOf(parseAddr, p, net, left, cause))
  {
    hide JoinHostPort, NoControl, ValidMeasured, ValidIdentifier, Plain;
    MeasurableText(parseAddr, p.host, p.port);
    if parseAddr(p.host).None? {
      LookupStepIsValid(p, net.lookup.seen);
    }
    ChainIsValid(p, net, Start(parseAddr, p, net), Addresses(parseAddr, p, net), left, cause);
  }

  function StepsEach(p: Params): nat {
    if p.tls then 2 else 1
  }

  /** Address k has its connection, and with TLS its handshake, at its own place. */
  ghost predicate AddressAt(
    p: Params, net: Network, sweep: seq<Measured>, first: nat, addresses: seq<string>, k: nat, left: nat,
    cause: FailureClass)
  {
    var at := first + k * StepsEach(p);
    && k < |addresses| && at + StepsEach(p) <= |sweep|
    && sweep[at].step == STEP_CONNECT && sweep[at].under == first
    && sweep[at].components == [JoinHostPort(p.host, p.port), addresses[k]]
    && sweep[at].seen == (if k < left then net.connect(addresses[k]) else Seen(Skipped, cause))
    && sweep[at].subject == Subject(SubjectKindEndpoint, JoinHostPort(addresses[k], p.port))
    && sweep[at].layer == LayerTCP && !sweep[at].blocked
    && (p.tls ==>
      && sweep[at + 1].step == STEP_HANDSHAKE && sweep[at + 1].under == at + 1
      && sweep[at + 1].components == sweep[at].components
      && sweep[at + 1].subject == sweep[at].subject && sweep[at + 1].layer == LayerTLS
      && (sweep[at + 1].blocked <==> sweep[at + 1].seen.state == Skipped)
      && sweep[at + 1].seen == (if sweep[at].seen.state == Pass then net.handshake(addresses[k])
                                else Seen(Skipped, ExecSkippedPrerequisiteFailed)))
  }

  lemma LastAddressAt(
    p: Params, net: Network, before: seq<Measured>, first: nat, addresses: seq<string>, left: nat,
    cause: FailureClass)
    requires addresses != [] && |before| == first + (|addresses| - 1) * StepsEach(p)
    ensures var k := |addresses| - 1;
      var attempt := Attempt(p, net, addresses[k], ConnectSeen(net, addresses[k], k < left, cause), first, |before|);
      |attempt| == StepsEach(p) && AddressAt(p, net, before + attempt, first, addresses, k, left, cause)
  {
    hide JoinHostPort;
  }

  lemma AddressStays(
    p: Params, net: Network, before: seq<Measured>, more: seq<Measured>, first: nat, addresses: seq<string>, k: nat,
    left: nat, cause: FailureClass)
    requires addresses != [] && AddressAt(p, net, before, first, addresses[..|addresses| - 1], k, left, cause)
    ensures AddressAt(p, net, before + more, first, addresses, k, left, cause)
  {
    hide JoinHostPort;
  }

  /** Every address of a sweep is tried once and in order: its connection says what the
  network answered, or that the context was done, and its handshake what followed. */
  lemma {:induction false} EveryAddressOnce(
    p: Params, net: Network, start: seq<Measured>, addresses: seq<string>, left: nat, cause: FailureClass)
    ensures var sweep := Chain(p, net, start, addresses, left, cause);
      && |sweep| == |start| + |addresses| * StepsEach(p)
      && sweep[..|start|] == start
      && forall k :: 0 <= k < |addresses| ==> AddressAt(p, net, sweep, |start|, addresses, k, left, cause)
  {
    hide JoinHostPort, AddressAt, Attempt;
    if addresses != [] {
      var k := |addresses| - 1;
      var before := Chain(p, net, start, addresses[..k], left, cause);
      var attempt :=
        Attempt(p, net, addresses[k], ConnectSeen(net, addresses[k], k < left, cause), |start|, |before|);
      EveryAddressOnce(p, net, start, addresses[..k], left, cause);
      LastAddressAt(p, net, before, |start|, addresses, left, cause);
      forall i | 0 <= i < k ensures AddressAt(p, net, before + attempt, |start|, addresses, i, left, cause) {
        AddressStays(p, net, before, attempt, |start|, addresses, i, left, cause);
      }
    }
  }

  // ---- growing by one step ----

  lemma {:induction false} GrownNodes(c: Content, scope: SweepScope, parent: EvidenceID, sweep: seq<Measured>)
    ensures forall id :: id in Grown(c, scope, parent, sweep).nodes <==>
      id in c.nodes || exists m :: m in sweep && MeasuredId(scope, m) == id
  {
    hide MeasuredId, ParentOf;
    if sweep != [] {
      var k := |sweep| - 1;
      GrownNodes(c, scope, parent, sweep[..k]);
      assert sweep == sweep[..k] + [sweep[k]];
    }
  }

  lemma GrownBy(c: Content, scope: SweepScope, parent: EvidenceID, sweep: seq<Measured>, m: Measured)
    ensures Grown(c, scope, parent, sweep + [m]) ==
      WithStep(Grown(c, scope, parent, sweep), scope, m, ParentOf(scope, parent, sweep + [m], |sweep|))
  {
    hide WithStep, ParentOf, MeasuredId;
    assert (sweep + [m])[..|sweep|] == sweep;
  }

  lemma MeasuredIdIsValid(scope: SweepScope, m: Measured)
    requires ValidMeasured(m) && scope.Built()
    ensures ValidIdentifier(MeasuredId(scope, m)) && ValidDottedName(m.step)
  {
    hide Encoded, EndsSolid;
    var parts := Parts(scope, m.step, m.components);
    TransportStepIsValid(m.step);
    assert parts[|parts| - 1] == m.components[|m.components| - 1];
    EncodedText(parts);
  }

  lemma TransportStepIsValid(step: Step)
    requires TransportStep(step)
    ensures ValidDottedName(step) && NoControl(step) && StartsSolid(step)
  {
    assert STEP_LOOKUP[0] == 'd' && STEP_CONNECT[0] == 't' && STEP_HANDSHAKE[0] == 't';
  }

  method MeasuredEvidence(scope: SweepScope, m: Measured) returns (r: Result<Evidence>)
    requires ValidMeasured(m) && scope.Built()
    ensures r.Ok? && r.value == MeasuredNode(scope, m)
    ensures r.value.Built() && !r.value.IsZero()
  {
    hide Encoded, ValidIdentifier, ValidDottedName, TransportStep;
    var id := ScopedEvidenceID(scope, m.step, m.components);
    MeasuredIdIsValid(scope, m);
    IdentifiersAreNotEmpty(id);
    r := NewEvidence(Evidence(id, m.subject, m.layer, m.step, m.seen.state, m.seen.failureClass), BARE);
  }

  lemma IdentifiersAreNotEmpty(id: string)
    requires ValidIdentifier(id)
    ensures id != ""
  {
  }

  /** One node, its parent edge when it has a parent, and its blocker when it was skipped.
  Nothing but a repeated identifier or an absent parent refuses it. */
  method AddStep(builder: GraphBuilder, scope: SweepScope, m: Measured, from: EvidenceID)
    returns (r: Outcome, id: EvidenceID)
    requires builder.Valid() && ValidMeasured(m) && scope.Built() && (m.blocked ==> from != "")
    modifies builder
    ensures builder.Valid() && id == MeasuredId(scope, m)
    ensures r.Done? <==> id !in old(builder.nodes) && (from == "" || from in old(builder.nodes))
    ensures r.Done? ==> builder.Contents() == WithStep(old(builder.Contents()), scope, m, from)
  {
    hide Filed, Acyclic, MeasuredId, ValidMeasured, Evidence.Built, Evidence.IsZero, EndpointsPresent;
    var evidence := MeasuredEvidence(scope, m);
    id := evidence.value.id;
    if id !in builder.nodes && from in builder.nodes {
      FreshEdgeKeepsAcyclic(builder.nodes, builder.parents, id, from);
      FreshEdgeKeepsAcyclic(builder.nodes, builder.blockedBy, id, from);
    }
    BlockedIsSkipped(m);
    r := builder.AddEvidence(evidence.value);
    if r.Refused? {
      return;
    }
    if from == "" {
      return;
    }
    r := builder.AddParent(id, from);
    if r.Refused? {
      return;
    }
    if m.blocked {
      r := builder.AddBlockedBy(id, from);
    }
  }

  lemma BlockedIsSkipped(m: Measured)
    requires ValidMeasured(m)
    ensures m.blocked ==> m.seen.state == Skipped
  {
  }

  // ---- identifiers within one sweep ----

  lemma StepIdsDiffer(scope: SweepScope, a: Measured, b: Measured)
    requires a.step != b.step || a.components != b.components
    ensures MeasuredId(scope, a) != MeasuredId(scope, b)
  {
    hide Encoded;
    var p, q := Parts(scope, a.step, a.components), Parts(scope, b.step, b.components);
    var n := if scope.IsZero() then 1 else 2;
    assert p[0] == a.step && q[0] == b.step && p[n..] == a.components && q[n..] == b.components;
    if Encoded(p) == Encoded(q) {
      EncodedInjective(p, q);
    }
  }

  /** Two steps of one sweep never share an identifier. */
  lemma SweepIdsDiffer(scope: SweepScope, sweep: seq<Measured>)
    requires ValidSweep(sweep)
    ensures forall j, k :: 0 <= j < k < |sweep| ==> MeasuredId(scope, sweep[j]) != MeasuredId(scope, sweep[k])
  {
    hide MeasuredId, ValidMeasured;
    forall j, k | 0 <= j < k < |sweep| ensures MeasuredId(scope, sweep[j]) != MeasuredId(scope, sweep[k]) {
      StepIdsDiffer(scope, sweep[j], sweep[k]);
    }
  }

  /** Recording the earlier steps of a sweep leaves the later ones as new as they were. */
  lemma FreshAfter(c: Content, scope: SweepScope, parent: EvidenceID, before: seq<Measured>, more: seq<Measured>)
    requires ValidSweep(before + more)
    ensures FreshFor(Grown(c, scope, parent, before).nodes, scope, more) <==> FreshFor(c.nodes, scope, more)
  {
    hide MeasuredId, ValidMeasured, Grown;
    GrownNodes(c, scope, parent, before);
    var all := before + more;
    SweepIdsDiffer(scope, all);
    forall m, n | m in before && n in more ensures MeasuredId(scope, m) != MeasuredId(scope, n) {
      var j :| 0 <= j < |before| && before[j] == m;
      var k :| 0 <= k < |more| && more[k] == n;
      assert all[j] == m && all[|before| + k] == n;
    }
  }

  lemma FreshJoin(nodes: map<EvidenceID, Evidence>, scope: SweepScope, a: seq<Measured>, b: seq<Measured>)
    ensures FreshFor(nodes, scope, a + b) <==> FreshFor(nodes, scope, a) && FreshFor(nodes, scope, b)
  {
    hide MeasuredId;
  }

  // ---- one address ----

  /** What a builder holds after one address was tried. */
  ghost function Tried(
    c: Content, p: Params, net: Network, address: string, connect: Seen, from: EvidenceID): Content
  {
    var connected := WithStep(c, p.scope, ConnectStep(p, address, connect, 0), from);
    if p.tls then
      WithStep(
        connected, p.scope, HandshakeStep(p, address, HandshakeSeen(net, address, connect), 1),
        MeasuredId(p.scope, ConnectStep(p, address, connect, 0)))
    else connected
  }

  ghost predicate Known(nodes: map<EvidenceID, Evidence>, from: EvidenceID) {
    from == "" || from in nodes
  }

  /** The budget is checked before the attempt, so an address nobody tried is recorded
  as not attempted and never as a failure. */
  method SweepAddress(ctx: Context, builder: GraphBuilder, p: Params, net: Network, from: EvidenceID, address: string)
    returns (r: Outcome)
    requires builder.Valid() && p.scope.Built() && SoundNetwork(net)
    requires NoControl(JoinHostPort(p.host, p.port)) && ValidIdentifier(address)
    modifies ctx, builder
    ensures builder.Valid() && ctx.left == Spend(old(ctx.left), 1)
    ensures var connect := ConnectSeen(net, address, old(ctx.left) > 0, ctx.cause);
      && (r.Done? <==>
        && FreshFor(old(builder.nodes), p.scope, Attempt(p, net, address, connect, 0, 0))
        && Known(old(builder.nodes), from))
      && (r.Done? ==> builder.Contents() == Tried(old(builder.Contents()), p, net, address, connect, from))
  {
    hide MeasuredId, ValidMeasured, SoundNetwork, JoinHostPort, NoControl, ValidIdentifier, Filed, LegalGraph,
      AddressStep, WithStep;
    var done := ctx.Err();
    var connect := if done then Seen(Skipped, ctx.cause) else net.connect(address);
    SoundConnect(net, address, !done, ctx.cause);
    AttemptIsValid(p, net, address, connect, 0, 0);
    var first := ConnectStep(p, address, connect, 0);
    var second := HandshakeStep(p, address, HandshakeSeen(net, address, connect), 1);
    AddressStepParts(p, address, connect, HandshakeSeen(net, address, connect));
    ghost var before := builder.Contents();
    var connection;
    r, connection := AddStep(builder, p.scope, first, from);
    WithStepNodes(before, p.scope, first, from);
    StepNames();
    if r.Refused? || !p.tls {
      return;
    }
    StepIdsDiffer(p.scope, first, second);
    IdIsNotEmpty(p.scope, first);
    var handshake;
    r, handshake := AddStep(builder, p.scope, second, connection);
  }

  lemma AddressStepParts(p: Params, address: string, connect: Seen, handshake: Seen)
    ensures !ConnectStep(p, address, connect, 0).blocked && ConnectStep(p, address, connect, 0).step == STEP_CONNECT
    ensures HandshakeStep(p, address, handshake, 1).step == STEP_HANDSHAKE
  {
  }

  lemma WithStepNodes(c: Content, scope: SweepScope, m: Measured, from: EvidenceID)
    ensures forall id :: id in WithStep(c, scope, m, from).nodes <==> id in c.nodes || id == MeasuredId(scope, m)
  {
    hide MeasuredId;
  }

  lemma IdIsNotEmpty(scope: SweepScope, m: Measured)
    requires ValidMeasured(m) && scope.Built()
    ensures MeasuredId(scope, m) != ""
  {
    hide MeasuredId, ValidMeasured;
    MeasuredIdIsValid(scope, m);
  }

  // ---- the whole sweep ----

  lemma ChainTo(
    p: Params, net: Network, start: seq<Measured>, addresses: seq<string>, i: nat, left: nat, cause: FailureClass)
    requires i < |addresses|
    ensures var before := Chain(p, net, start, addresses[..i], left, cause);
      Chain(p, net, start, addresses[..i + 1], left, cause)
        == before + Attempt(p, net, addresses[i], ConnectSeen(net, addresses[i], i < left, cause), |start|, |before|)
  {
    hide Attempt;
    assert addresses[..i + 1][..i] == addresses[..i];
  }

  lemma {:induction false} ChainHasPrefix(
    p: Params, net: Network, start: seq<Measured>, addresses: seq<string>, i: nat, left: nat, cause: FailureClass)
    requires i <= |addresses|
    ensures Chain(p, net, start, addresses[..i], left, cause) <= Chain(p, net, start, addresses, left, cause)
    decreases |addresses| - i
  {
    hide Attempt, Chain;
    if i == |addresses| {
      assert addresses[..i] == addresses;
    } else {
      ChainTo(p, net, start, addresses, i, left, cause);
      ChainHasPrefix(p, net, start, addresses, i + 1, left, cause);
    }
  }

  /** The node the connections of a sweep hang under. */
  ghost function ConnectsUnder(p: Params, start: seq<Measured>): EvidenceID {
    if start == [] then p.parent else MeasuredId(p.scope, start[0])
  }

  lemma TriedIsGrown(
    c: Content, p: Params, net: Network, start: seq<Measured>, before: seq<Measured>, address: string, connect: Seen)
    requires |start| <= 1 && start <= before
    ensures Grown(c, p.scope, p.parent, before + Attempt(p, net, address, connect, |start|, |before|)) ==
      Tried(Grown(c, p.scope, p.parent, before), p, net, address, connect, ConnectsUnder(p, start))
  {
    hide MeasuredId, Grown, JoinHostPort;
    var at := |before|;
    var first := ConnectStep(p, address, connect, |start|);
    GrownBy(c, p.scope, p.parent, before, first);
    var grown := Grown(c, p.scope, p.parent, before);
    var from := ConnectsUnder(p, start);
    SameStep(grown, p.scope, first, ConnectStep(p, address, connect, 0), from);
    if p.tls {
      var handshake := HandshakeSeen(net, address, connect);
      var second := HandshakeStep(p, address, handshake, at + 1);
      assert before + Attempt(p, net, address, connect, |start|, at) == (before + [first]) + [second];
      GrownBy(c, p.scope, p.parent, before + [first], second);
      SameStep(
        WithStep(grown, p.scope, first, from), p.scope, second, HandshakeStep(p, address, handshake, 1),
        MeasuredId(p.scope, first));
    } else {
      assert before + Attempt(p, net, address, connect, |start|, at) == before + [first];
    }
  }

  /** A node does not say at which position its sweep derived it. */
  lemma SameStep(c: Content, scope: SweepScope, m: Measured, n: Measured, from: EvidenceID)
    requires n == m.(under := n.under)
    ensures MeasuredId(scope, m) == MeasuredId(scope, n)
    ensures WithStep(c, scope, m, from) == WithStep(c, scope, n, from)
  {
    hide Encoded;
  }

  lemma AttemptNames(
    p: Params, net: Network, address: string, connect: Seen, under: nat, at: nat, nodes: map<EvidenceID, Evidence>)
    ensures FreshFor(nodes, p.scope, Attempt(p, net, address, connect, under, at)) <==>
      FreshFor(nodes, p.scope, Attempt(p, net, address, connect, 0, 0))
  {
    hide Encoded, JoinHostPort;
    var a, b := Attempt(p, net, address, connect, under, at), Attempt(p, net, address, connect, 0, 0);
    assert |a| == |b| && forall k :: 0 <= k < |a| ==> MeasuredId(p.scope, a[k]) == MeasuredId(p.scope, b[k]);
    assert forall m :: m in a ==> exists k :: 0 <= k < |a| && a[k] == m;
  }

  lemma PrefixIsValid(before: seq<Measured>, whole: seq<Measured>)
    requires ValidSweep(whole) && before <= whole
    ensures ValidSweep(before) && forall m :: m in before ==> m in whole
  {
    hide ValidMeasured;
  }

  lemma FreshPrefix(nodes: map<EvidenceID, Evidence>, scope: SweepScope, before: seq<Measured>, whole: seq<Measured>)
    requires forall m :: m in before ==> m in whole
    ensures FreshFor(nodes, scope, whole) ==> FreshFor(nodes, scope, before)
  {
    hide MeasuredId;
  }

  /** What the loop over the addresses has done before address i, and does at it. */
  lemma SweepStep(
    c: Content, p: Params, net: Network, start: seq<Measured>, addresses: seq<string>, i: nat, left: nat,
    cause: FailureClass)
    requires i < |addresses| && |start| <= 1 && ValidSweep(Chain(p, net, start, addresses, left, cause))
    ensures var before, next := Chain(p, net, start, addresses[..i], left, cause),
        Chain(p, net, start, addresses[..i + 1], left, cause);
      var connect := ConnectSeen(net, addresses[i], i < left, cause);
      var grown := Grown(c, p.scope, p.parent, before);
      && Grown(c, p.scope, p.parent, next) == Tried(grown, p, net, addresses[i], connect, ConnectsUnder(p, start))
      && (FreshFor(c.nodes, p.scope, before) ==>
        (FreshFor(c.nodes, p.scope, next) <==>
          FreshFor(grown.nodes, p.scope, Attempt(p, net, addresses[i], connect, 0, 0))))
      && (FreshFor(c.nodes, p.scope, Chain(p, net, start, addresses, left, cause)) ==> FreshFor(c.nodes, p.scope, next))
  {
    hide FreshFor, ValidSweep, Chain, Grown, Tried, Attempt, ConnectSeen, WithStep;
    var whole := Chain(p, net, start, addresses, left, cause);
    var before := Chain(p, net, start, addresses[..i], left, cause);
    var next := Chain(p, net, start, addresses[..i + 1], left, cause);
    var connect := ConnectSeen(net, addresses[i], i < left, cause);
    var attempt := Attempt(p, net, addresses[i], connect, |start|, |before|);
    ChainTo(p, net, start, addresses, i, left, cause);
    ChainHasPrefix(p, net, start, addresses, i + 1, left, cause);
    PrefixIsValid(next, whole);
    FreshPrefix(c.nodes, p.scope, next, whole);
    FreshJoin(c.nodes, p.scope, before, attempt);
    FreshAfter(c, p.scope, p.parent, before, attempt);
    AttemptNames(p, net, addresses[i], connect, |start|, |before|, Grown(c, p.scope, p.parent, before).nodes);
    StartsWith(p, net, start, addresses[..i], left, cause);
    TriedIsGrown(c, p, net, start, before, addresses[i], connect);
  }

  lemma {:induction false} StartsWith(
    p: Params, net: Network, start: seq<Measured>, addresses: seq<string>, left: nat, cause: FailureClass)
    ensures start <= Chain(p, net, start, addresses, left, cause)
  {
    hide Attempt;
    if addresses != [] {
      StartsWith(p, net, start, addresses[..|addresses| - 1], left, cause);
    }
  }

  lemma StartIsKept(
    c: Content, p: Params, net: Network, start: seq<Measured>, addresses: seq<string>, left: nat,
    cause: FailureClass)
    requires start != []
    ensures ConnectsUnder(p, start)
      in Grown(c, p.scope, p.parent, Chain(p, net, start, addresses, left, cause)).nodes
  {
    hide MeasuredId, Grown, Chain;
    var sweep := Chain(p, net, start, addresses, left, cause);
    StartsWith(p, net, start, addresses, left, cause);
    assert sweep[0] == start[0] && sweep[0] in sweep;
    GrownNodes(c, p.scope, p.parent, sweep);
  }

  /** A sweep runs exactly for a host it can measure, under a node the graph holds, with
  identifiers the graph does not; it then records the whole chain and nothing else. */
  method Run(ctx: Context, builder: GraphBuilder, parseAddr: AddrParser, p: Params, net: Network) returns (r: Outcome)
    requires builder.Valid() && p.scope.Built() && SoundParser(parseAddr) && SoundNetwork(net)
    modifies ctx, builder
    ensures builder.Valid()
    ensures var sweep := SweepOf(parseAddr, p, net, old(ctx.left), ctx.cause);
      && (r.Done? <==>
        && Measurable(parseAddr, p.host, p.port) && Known(old(builder.nodes), p.parent)
        && FreshFor(old(builder.nodes), p.scope, sweep))
      && (r.Done? ==> builder.Contents() == Grown(old(builder.Contents()), p.scope, p.parent, sweep))
    ensures r.Done? ==> ctx.left == Spend(old(ctx.left), |Addresses(parseAddr, p, net)|)
  {
    hide FreshFor, ValidSweep, Chain, Grown, Tried, Attempt, ConnectSeen, WithStep, SoundNetwork, SoundParser, Plain,
      ValidLookupHost, MeasuredId, JoinHostPort, ValidMeasured, NoControl, ValidIdentifier, Filed, LegalGraph;
    ghost var c, left, cause := builder.Contents(), ctx.left, ctx.cause;
    LookupHostIsPlain(p.host);
    var host := ParseHost(parseAddr, p.host);
    if p.host == "" || p.port == 0 || host.Err? {
      NotPlainWhenEmpty(p.host);
      return Refused(ErrInvalidInput);
    }
    if host.value.Name? && !ValidLookupHost(p.host) {
      return Refused(ErrInvalidInput);
    }
    SweepIsValid(parseAddr, p, net, left, cause);
    MeasurableText(parseAddr, p.host, p.port);
    ghost var start := Start(parseAddr, p, net);
    var addresses, from := [], p.parent;
    if host.value.Literal? {
      addresses := [host.value.addr];
    } else {
      addresses := net.lookup.answers;
      LookupOf(net, p);
      StartIsFresh(parseAddr, c, p, net, left, cause);
      r, from := AddStep(builder, p.scope, LookupStep(p, net.lookup.seen), p.parent);
      if r.Refused? {
        return;
      }
    }
    AddressTexts(parseAddr, p, net);
    Begins(c, p, net, start, addresses, left, cause);
    var i := 0;
    while i < |addresses|
      invariant 0 <= i <= |addresses| && builder.Valid()
      invariant ctx.left == Spend(left, i)
      invariant from == ConnectsUnder(p, start)
      invariant start != [] || i > 0 ==> Known(c.nodes, p.parent)
      invariant FreshFor(c.nodes, p.scope, Chain(p, net, start, addresses[..i], left, cause))
      invariant builder.Contents() ==
        Grown(c, p.scope, p.parent, Chain(p, net, start, addresses[..i], left, cause))
    {
      SweepStep(c, p, net, start, addresses, i, left, cause);
      if start != [] {
        StartIsKept(c, p, net, start, addresses[..i], left, cause);
      }
      r := SweepAddress(ctx, builder, p, net, from, addresses[i]);
      if r.Refused? {
        return;
      }
      i := i + 1;
    }
    assert addresses[..|addresses|] == addresses;
    r := Done;
  }

  lemma NotPlainWhenEmpty(host: string)
    ensures host == "" ==> !Plain(host)
  {
  }

  lemma LookupOf(net: Network, p: Params)
    requires SoundNetwork(net) && Plain(p.host)
    ensures ValidMeasured(LookupStep(p, net.lookup.seen)) && !LookupStep(p, net.lookup.seen).blocked
  {
    LookupStepIsValid(p, net.lookup.seen);
  }

  lemma AddressTexts(parseAddr: AddrParser, p: Params, net: Network)
    requires SoundParser(parseAddr) && SoundNetwork(net) && Measurable(parseAddr, p.host, p.port)
    ensures forall a :: a in Addresses(parseAddr, p, net) ==> ValidIdentifier(a)
  {
    hide Plain, ValidIdentifier;
    MeasurableText(parseAddr, p.host, p.port);
  }

  lemma StartIsFresh(parseAddr: AddrParser, c: Content, p: Params, net: Network, left: nat, cause: FailureClass)
    requires parseAddr(p.host).None?
    ensures FreshFor(c.nodes, p.scope, SweepOf(parseAddr, p, net, left, cause)) ==>
      MeasuredId(p.scope, LookupStep(p, net.lookup.seen)) !in c.nodes
  {
    hide MeasuredId, Chain;
    var start := Start(parseAddr, p, net);
    StartsWith(p, net, start, Addresses(parseAddr, p, net), left, cause);
    var sweep := SweepOf(parseAddr, p, net, left, cause);
    assert sweep[0] == start[0] && sweep[0] in sweep;
  }

  lemma Begins(
    c: Content, p: Params, net: Network, start: seq<Measured>, addresses: seq<string>, left: nat, cause: FailureClass)
    requires |start| <= 1 && (start != [] ==> start[0].under == 0)
    ensures Chain(p, net, start, addresses[..0], left, cause) == start
    ensures Grown(c, p.scope, p.parent, []) == c
    ensures start != [] ==> Grown(c, p.scope, p.parent, start) == WithStep(c, p.scope, start[0], p.parent)
    ensures FreshFor(c.nodes, p.scope, start) <==> start == [] || MeasuredId(p.scope, start[0]) !in c.nodes
  {
    hide MeasuredId, WithStep, Attempt, Grown;
    GrownNothing(c, p.scope, p.parent);
    if start != [] {
      GrownBy(c, p.scope, p.parent, [], start[0]);
      assert [] + [start[0]] == start;
    }
  }

  lemma GrownNothing(c: Content, scope: SweepScope, parent: EvidenceID)
    ensures Grown(c, scope, parent, []) == c
  {
  }
}
