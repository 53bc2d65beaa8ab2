/** What a transport sweep leaves in a graph, read off its nodes and edges. */
module SweepReadings {
  import opened Orders
  import opened Relations
  import opened Evidences
  import opened Graphs
  import opened Identifiers
  import opened Hosts
  import opened Transports
  import opened SweepGraphs
  import opened SweepShapes

  // ---- the reading ----

  /** What was derived from a node. */
  ghost function Under(c: Content, id: EvidenceID): set<EvidenceID> {
    set x | x in c.nodes && id in Next(c.parents, x)
  }

  /** The node of a lookup, under the node that asked for it. */
  ghost predicate LookupRead(c: Content, id: EvidenceID, from: EvidenceID, host: string, seen: Seen) {
    && id in c.nodes
    && c.nodes[id] == Evidence(
      id, Subject(SubjectKindEndpoint, host), LayerDNS, "dns.lookup", seen.state, seen.failureClass)
    && Next(c.parents, id) == {from} && Next(c.blockedBy, id) == {}
  }

  /** The node of a connection to one address and port. */
  ghost predicate ConnectionRead(c: Content, id: EvidenceID, from: EvidenceID, address: string, port: nat, seen: Seen) {
    && id in c.nodes
    && c.nodes[id] == Evidence(
      id, Subject(SubjectKindEndpoint, JoinHostPort(address, port)), LayerTCP, "tcp.connect", seen.state,
      seen.failureClass)
    && Next(c.parents, id) == {from} && Next(c.blockedBy, id) == {}
  }

  /** The node of a handshake, under its connection, and blocked by it when it was skipped. */
  ghost predicate HandshakeRead(
    c: Content, id: EvidenceID, connection: EvidenceID, address: string, port: nat, seen: Seen)
  {
    && id in c.nodes
    && c.nodes[id] == Evidence(
      id, Subject(SubjectKindEndpoint, JoinHostPort(address, port)), LayerTLS, "tls.handshake", seen.state,
      seen.failureClass)
    && Next(c.parents, id) == {connection}
    && Next(c.blockedBy, id) == if seen.state == Skipped then {connection} else {}
  }

  /** One address: its connection says what the network answered, or that the budget was
  spent. With TLS exactly one handshake stands beneath it, with the network's answer when
  the connection passed and skipped otherwise; without TLS nothing does. */
  ghost predicate AddressRead(
    c: Content, id: EvidenceID, from: EvidenceID, address: string, port: nat, tls: bool, net: Network, alive: bool,
    cause: FailureClass)
  {
    var seen := if alive then net.connect(address) else Seen(Skipped, cause);
    var next := if seen.state == Pass then net.handshake(address) else Seen(Skipped, ExecSkippedPrerequisiteFailed);
    && ConnectionRead(c, id, from, address, port, seen)
    && (tls ==> exists h :: Under(c, id) == {h} && HandshakeRead(c, h, id, address, port, next))
    && (!tls ==> Under(c, id) == {})
  }

  /** Every address once and in order, and nothing else under the node they hang from. */
  ghost predicate AddressesRead(
    c: Content, from: EvidenceID, ids: seq<EvidenceID>, addresses: seq<string>, port: nat, tls: bool, net: Network,
    left: nat, cause: FailureClass)
  {
    && |ids| == |addresses| && Distinct(ids)
    && (forall x :: x in Under(c, from) <==> x in ids)
    && (forall k :: 0 <= k < |ids| ==> AddressRead(c, ids[k], from, addresses[k], port, tls, net, k < left, cause))
  }

  /** A whole sweep under its root: an address is connected to at once, a name is looked up
  first and the answers are connected to. */
  ghost predicate SweepRead(
    c: Content, root: EvidenceID, parseAddr: AddrParser, host: string, port: nat, tls: bool, net: Network, left: nat,
    cause: FailureClass)
  {
    match parseAddr(host)
    case Some(addr) => exists ids :: AddressesRead(c, root, ids, [addr.unmapped], port, tls, net, left, cause)
    case None => exists lookup, ids ::
      && Under(c, root) == {lookup} && LookupRead(c, lookup, root, host, net.lookup.seen)
      && AddressesRead(c, lookup, ids, net.lookup.answers, port, tls, net, left, cause)
  }

  // ---- from the chain to the reading ----

  /** The place of address k in the chain. */
  ghost function PlaceOf(p: Params, first: nat, k: nat): nat {
    first + k * StepsEach(p)
  }

  lemma AddressOfPlace(p: Params, first: nat, n: nat, j: nat) returns (k: nat)
    requires first <= j < first + n * StepsEach(p)
    ensures k < n && (j == PlaceOf(p, first, k) || (p.tls && j == PlaceOf(p, first, k) + 1))
  {
    k := if p.tls then (j - first) / 2 else j - first;
  }

  lemma PlacesDiffer(p: Params, first: nat, k: nat, m: nat)
    ensures PlaceOf(p, first, k) == PlaceOf(p, first, m) ==> k == m
  {
  }

  /** Which step a step hangs under. */
  lemma ParentPlace(scope: SweepScope, root: EvidenceID, sweep: seq<Measured>, c: Content, j: nat, q: nat)
    requires Placed(scope, root, sweep, c) && j < |sweep| && q < |sweep|
    ensures ParentOf(scope, root, sweep, j) == root <==> sweep[j].under == 0
    ensures ParentOf(scope, root, sweep, j) == MeasuredId(scope, sweep[q]) <==> sweep[j].under == q + 1
  {
    hide MeasuredId, ValidMeasured, RecordedStep, Alone;
    SweepIdsDiffer(scope, sweep);
    if 0 < sweep[j].under <= j && sweep[j].under != q + 1 {
      var u := sweep[j].under - 1;
      assert u < q || q < u;
    }
  }

  lemma UnderStep(
    scope: SweepScope, root: EvidenceID, sweep: seq<Measured>, c: Content, p: EvidenceID, x: EvidenceID)
    requires Placed(scope, root, sweep, c) && (p == root || exists a: nat :: IsStep(scope, sweep, a, p))
    ensures x in Under(c, p) <==> exists j: nat :: IsStep(scope, sweep, j, x) && ParentOf(scope, root, sweep, j) == p
  {
    hide MeasuredId, ValidSweep, ParentOf;
    if x in Under(c, p) {
      var j: nat :| IsStep(scope, sweep, j, x);
      StepNode(scope, root, sweep, c, j);
    }
    if j: nat :| IsStep(scope, sweep, j, x) && ParentOf(scope, root, sweep, j) == p {
      StepNode(scope, root, sweep, c, j);
    }
  }

  /** What hangs under the root are the steps that say so, and likewise under a step. */
  lemma UnderPlace(scope: SweepScope, root: EvidenceID, sweep: seq<Measured>, c: Content, u: nat, x: EvidenceID)
    requires Placed(scope, root, sweep, c) && u <= |sweep|
    ensures x in Under(c, if u == 0 then root else MeasuredId(scope, sweep[u - 1])) <==>
      exists j: nat :: IsStep(scope, sweep, j, x) && sweep[j].under == u
  {
    hide MeasuredId, Placed, ParentOf, Under;
    var p := if u == 0 then root else MeasuredId(scope, sweep[u - 1]);
    if u > 0 {
      assert IsStep(scope, sweep, u - 1, p);
    }
    UnderStep(scope, root, sweep, c, p, x);
    forall j: nat | IsStep(scope, sweep, j, x) ensures ParentOf(scope, root, sweep, j) == p <==> sweep[j].under == u {
      ParentPlace(scope, root, sweep, c, j, if u == 0 then j else u - 1);
    }
  }

  /** The sweep of a host: a lookup first or nothing, then every address at its place. */
  ghost predicate Laid(
    p: Params, net: Network, sweep: seq<Measured>, first: nat, addresses: seq<string>, left: nat, cause: FailureClass)
  {
    && first <= 1 && |sweep| == first + |addresses| * StepsEach(p)
    && (first == 1 ==> sweep[0].under == 0)
    && (forall k :: 0 <= k < |addresses| ==> AddressAt(p, net, sweep, first, addresses, k, left, cause))
  }

  lemma LaidUnder(
    p: Params, net: Network, sweep: seq<Measured>, first: nat, addresses: seq<string>, left: nat, cause: FailureClass,
    k: nat)
    requires Laid(p, net, sweep, first, addresses, left, cause) && k < |addresses|
    ensures var at := PlaceOf(p, first, k);
      && at < |sweep| && sweep[at].under == first
      && (p.tls ==> at + 1 < |sweep| && sweep[at + 1].under == at + 1)
  {
    hide JoinHostPort;
    assert AddressAt(p, net, sweep, first, addresses, k, left, cause);
  }

  /** The steps that hang where the connections do are the connections. */
  lemma ConnectionsHang(
    p: Params, net: Network, sweep: seq<Measured>, first: nat, addresses: seq<string>, left: nat, cause: FailureClass,
    j: nat)
    requires Laid(p, net, sweep, first, addresses, left, cause) && j < |sweep|
    ensures sweep[j].under == first <==> exists k :: 0 <= k < |addresses| && j == PlaceOf(p, first, k)
  {
    hide Laid, AddressAt;
    assert first <= j || (j == 0 && sweep[0].under == 0 && first == 1) by {
      LaidStarts(p, net, sweep, first, addresses, left, cause);
    }
    if first <= j {
      LaidStarts(p, net, sweep, first, addresses, left, cause);
      var k := AddressOfPlace(p, first, |addresses|, j);
      LaidUnder(p, net, sweep, first, addresses, left, cause, k);
    }
    forall k | 0 <= k < |addresses| && j == PlaceOf(p, first, k) ensures sweep[j].under == first {
      LaidUnder(p, net, sweep, first, addresses, left, cause, k);
    }
  }

  lemma LaidStarts(
    p: Params, net: Network, sweep: seq<Measured>, first: nat, addresses: seq<string>, left: nat, cause: FailureClass)
    requires Laid(p, net, sweep, first, addresses, left, cause)
    ensures first <= 1 && |sweep| == first + |addresses| * StepsEach(p)
    ensures first == 1 ==> sweep != [] && sweep[0].under == 0
  {
    hide AddressAt;
  }

  /** Beneath the connection at a place hangs the handshake at the next one, if any. */
  lemma HandshakeHangs(
    p: Params, net: Network, sweep: seq<Measured>, first: nat, addresses: seq<string>, left: nat, cause: FailureClass,
    k: nat, j: nat)
    requires Laid(p, net, sweep, first, addresses, left, cause) && k < |addresses| && j < |sweep|
    ensures sweep[j].under == PlaceOf(p, first, k) + 1 <==> p.tls && j == PlaceOf(p, first, k) + 1
  {
    hide Laid, AddressAt;
    LaidStarts(p, net, sweep, first, addresses, left, cause);
    LaidUnder(p, net, sweep, first, addresses, left, cause, k);
    if first <= j {
      var m := AddressOfPlace(p, first, |addresses|, j);
      LaidUnder(p, net, sweep, first, addresses, left, cause, m);
      PlacesDiffer(p, first, k, m);
    }
  }

  lemma StepIsRecorded(scope: SweepScope, root: EvidenceID, sweep: seq<Measured>, c: Content, j: nat)
    requires Placed(scope, root, sweep, c) && j < |sweep|
    ensures RecordedStep(scope, root, sweep, j, c)
  {
    hide RecordedStep, ValidSweep, Alone;
  }

  lemma ConnectionIsRead(
    scope: SweepScope, root: EvidenceID, p: Params, net: Network, sweep: seq<Measured>, first: nat,
    addresses: seq<string>, left: nat, cause: FailureClass, c: Content, k: nat)
    requires Placed(scope, root, sweep, c) && k < |addresses| && first <= 1
    requires AddressAt(p, net, sweep, first, addresses, k, left, cause)
    ensures var at := PlaceOf(p, first, k);
      var seen := if k < left then net.connect(addresses[k]) else Seen(Skipped, cause);
      && at < |sweep|
      && ConnectionRead(
        c, MeasuredId(scope, sweep[at]), if first == 0 then root else MeasuredId(scope, sweep[0]), addresses[k], p.port,
        seen)
  {
    hide MeasuredId, JoinHostPort, Placed;
    StepIsRecorded(scope, root, sweep, c, PlaceOf(p, first, k));
  }

  lemma HandshakeIsRead(
    scope: SweepScope, root: EvidenceID, p: Params, net: Network, sweep: seq<Measured>, first: nat,
    addresses: seq<string>, left: nat, cause: FailureClass, c: Content, k: nat)
    requires Placed(scope, root, sweep, c) && k < |addresses| && p.tls
    requires AddressAt(p, net, sweep, first, addresses, k, left, cause)
    ensures var at := PlaceOf(p, first, k);
      var seen := if k < left then net.connect(addresses[k]) else Seen(Skipped, cause);
      var next :=
        if seen.state == Pass then net.handshake(addresses[k]) else Seen(Skipped, ExecSkippedPrerequisiteFailed);
      && at + 1 < |sweep|
      && HandshakeRead(
        c, MeasuredId(scope, sweep[at + 1]), MeasuredId(scope, sweep[at]), addresses[k], p.port, next)
  {
    hide MeasuredId, JoinHostPort, Placed;
    StepIsRecorded(scope, root, sweep, c, PlaceOf(p, first, k) + 1);
  }

  lemma AddressIsRead(
    scope: SweepScope, root: EvidenceID, p: Params, net: Network, sweep: seq<Measured>, first: nat,
    addresses: seq<string>, left: nat, cause: FailureClass, c: Content, k: nat)
    requires Placed(scope, root, sweep, c) && k < |addresses| && Laid(p, net, sweep, first, addresses, left, cause)
    ensures PlaceOf(p, first, k) < |sweep|
    ensures AddressRead(
      c, MeasuredId(scope, sweep[PlaceOf(p, first, k)]), if first == 0 then root else MeasuredId(scope, sweep[0]),
      addresses[k], p.port, p.tls, net, k < left, cause)
  {
    hide MeasuredId, Placed, ConnectionRead, HandshakeRead, AddressAt, Under;
    ConnectionIsRead(scope, root, p, net, sweep, first, addresses, left, cause, c, k);
    var at := PlaceOf(p, first, k);
    forall x ensures x in Under(c, MeasuredId(scope, sweep[at])) <==> p.tls && IsStep(scope, sweep, at + 1, x) {
      UnderPlace(scope, root, sweep, c, at + 1, x);
      forall j: nat | j < |sweep| ensures sweep[j].under == at + 1 <==> p.tls && j == at + 1 {
        HandshakeHangs(p, net, sweep, first, addresses, left, cause, k, j);
      }
    }
    if p.tls {
      HandshakeIsRead(scope, root, p, net, sweep, first, addresses, left, cause, c, k);
      assert Under(c, MeasuredId(scope, sweep[at])) == {MeasuredId(scope, sweep[at + 1])};
    } else {
      assert Under(c, MeasuredId(scope, sweep[at])) == {};
    }
  }

  /** The nodes of the connections, in the order of the addresses. */
  ghost function ConnectionIds(
    scope: SweepScope, p: Params, sweep: seq<Measured>, first: nat, n: nat): (ids: seq<EvidenceID>)
    requires forall k :: 0 <= k < n ==> PlaceOf(p, first, k) < |sweep|
    ensures |ids| == n
  {
    seq(n, k requires 0 <= k < n => MeasuredId(scope, sweep[PlaceOf(p, first, k)]))
  }

  lemma ConnectionsAreDistinct(
    scope: SweepScope, root: EvidenceID, p: Params, sweep: seq<Measured>, first: nat, n: nat, c: Content)
    requires Placed(scope, root, sweep, c) && forall k :: 0 <= k < n ==> PlaceOf(p, first, k) < |sweep|
    ensures Distinct(ConnectionIds(scope, p, sweep, first, n))
  {
    hide MeasuredId, Alone, RecordedStep, ValidMeasured;
    SweepIdsDiffer(scope, sweep);
    var ids := ConnectionIds(scope, p, sweep, first, n);
    forall i, j | 0 <= i < j < n ensures ids[i] != ids[j] {
      assert PlaceOf(p, first, i) < PlaceOf(p, first, j);
    }
  }

  lemma AddressesAreRead(
    scope: SweepScope, root: EvidenceID, p: Params, net: Network, sweep: seq<Measured>, first: nat,
    addresses: seq<string>, left: nat, cause: FailureClass, c: Content, from: EvidenceID)
    requires Placed(scope, root, sweep, c) && Laid(p, net, sweep, first, addresses, left, cause)
    requires sweep != [] && from == if first == 0 then root else MeasuredId(scope, sweep[0])
    ensures exists ids :: AddressesRead(c, from, ids, addresses, p.port, p.tls, net, left, cause)
  {
    hide MeasuredId, Placed, AddressAt, AddressRead, Under, Laid, Distinct;
    LaidStarts(p, net, sweep, first, addresses, left, cause);
    forall k | 0 <= k < |addresses| ensures PlaceOf(p, first, k) < |sweep| {
      LaidUnder(p, net, sweep, first, addresses, left, cause, k);
    }
    var ids := ConnectionIds(scope, p, sweep, first, |addresses|);
    ConnectionsAreDistinct(scope, root, p, sweep, first, |addresses|, c);
    forall k | 0 <= k < |ids|
      ensures AddressRead(c, ids[k], from, addresses[k], p.port, p.tls, net, k < left, cause)
    {
      AddressIsRead(scope, root, p, net, sweep, first, addresses, left, cause, c, k);
    }
    forall x ensures x in Under(c, from) <==> x in ids {
      HangsAsListed(scope, root, p, net, sweep, first, addresses, left, cause, c, x);
    }
    assert AddressesRead(c, from, ids, addresses, p.port, p.tls, net, left, cause);
  }

  lemma HangsAsListed(
    scope: SweepScope, root: EvidenceID, p: Params, net: Network, sweep: seq<Measured>, first: nat,
    addresses: seq<string>, left: nat, cause: FailureClass, c: Content, x: EvidenceID)
    requires Placed(scope, root, sweep, c) && Laid(p, net, sweep, first, addresses, left, cause)
    requires first == 1 ==> sweep != []
    requires forall k :: 0 <= k < |addresses| ==> PlaceOf(p, first, k) < |sweep|
    ensures x in Under(c, if first == 0 then root else MeasuredId(scope, sweep[0])) <==>
      x in ConnectionIds(scope, p, sweep, first, |addresses|)
  {
    hide MeasuredId, Placed, AddressAt, Under, Laid;
    LaidStarts(p, net, sweep, first, addresses, left, cause);
    UnderPlace(scope, root, sweep, c, first, x);
    var ids := ConnectionIds(scope, p, sweep, first, |addresses|);
    if j: nat :| IsStep(scope, sweep, j, x) && sweep[j].under == first {
      ConnectionsHang(p, net, sweep, first, addresses, left, cause, j);
      var k :| 0 <= k < |addresses| && j == PlaceOf(p, first, k);
      assert ids[k] == x;
    }
    if x in ids {
      var k :| 0 <= k < |ids| && ids[k] == x;
      ConnectionsHang(p, net, sweep, first, addresses, left, cause, PlaceOf(p, first, k));
      assert IsStep(scope, sweep, PlaceOf(p, first, k), x);
    }
  }

  lemma SweepIsLaid(parseAddr: AddrParser, p: Params, net: Network, left: nat, cause: FailureClass)
    ensures var first := if parseAddr(p.host).Some? then 0 else 1;
      Laid(p, net, SweepOf(parseAddr, p, net, left, cause), first, Addresses(parseAddr, p, net), left, cause)
    ensures SweepOf(parseAddr, p, net, left, cause) != []
    ensures parseAddr(p.host).None? ==>
      SweepOf(parseAddr, p, net, left, cause)[0] == LookupStep(p, net.lookup.seen)
  {
    hide AddressAt, Chain;
    var start := Start(parseAddr, p, net);
    EveryAddressOnce(p, net, start, Addresses(parseAddr, p, net), left, cause);
    var sweep := SweepOf(parseAddr, p, net, left, cause);
    if parseAddr(p.host).None? {
      assert sweep[..|start|][0] == sweep[0];
    }
  }

  /** A sweep with all its steps recorded, and nobody else's under them, reads as a sweep. */
  lemma PlacedReads(
    scope: SweepScope, root: EvidenceID, parseAddr: AddrParser, p: Params, net: Network, left: nat,
    cause: FailureClass, c: Content)
    requires Placed(scope, root, SweepOf(parseAddr, p, net, left, cause), c)
    ensures SweepRead(c, root, parseAddr, p.host, p.port, p.tls, net, left, cause)
  {
    hide MeasuredId, Placed, Laid, SweepOf, AddressesRead, Under;
    var sweep, addresses := SweepOf(parseAddr, p, net, left, cause), Addresses(parseAddr, p, net);
    SweepIsLaid(parseAddr, p, net, left, cause);
    if parseAddr(p.host).Some? {
      AddressesAreRead(scope, root, p, net, sweep, 0, addresses, left, cause, c, root);
    } else {
      AddressesAreRead(
        scope, root, p, net, sweep, 1, addresses, left, cause, c, MeasuredId(scope, sweep[0]));
      LookupIsRead(scope, root, p, net, sweep, addresses, left, cause, c);
    }
  }

  lemma LookupIsRead(
    scope: SweepScope, root: EvidenceID, p: Params, net: Network, sweep: seq<Measured>, addresses: seq<string>,
    left: nat, cause: FailureClass, c: Content)
    requires Placed(scope, root, sweep, c) && Laid(p, net, sweep, 1, addresses, left, cause)
    requires sweep != [] && sweep[0] == LookupStep(p, net.lookup.seen)
    ensures Under(c, root) == {MeasuredId(scope, sweep[0])}
    ensures LookupRead(c, MeasuredId(scope, sweep[0]), root, p.host, net.lookup.seen)
  {
    hide MeasuredId, Placed, Laid, Under, AddressAt;
    StepIsRecorded(scope, root, sweep, c, 0);
    LaidStarts(p, net, sweep, 1, addresses, left, cause);
    forall x ensures x in Under(c, root) <==> x == MeasuredId(scope, sweep[0]) {
      UnderPlace(scope, root, sweep, c, 0, x);
      forall j: nat | j < |sweep| ensures sweep[j].under == 0 <==> j == 0 {
        if j > 0 {
          var k := AddressOfPlace(p, 1, |addresses|, j);
          LaidUnder(p, net, sweep, 1, addresses, left, cause, k);
        }
      }
    }
  }

  /** The steps of a sweep that was just recorded hang alone under a node that had nothing
  beneath it. */
  lemma FreshSweepIsPlaced(c: Content, scope: SweepScope, root: EvidenceID, sweep: seq<Measured>)
    requires ValidSweep(sweep) && scope.Built() && FreshFor(c.nodes, scope, sweep)
    requires Unsaid(c) && EndpointsPresent(c.nodes, c.parents) && root in c.nodes && root != ""
    requires forall x :: root !in Next(c.parents, x)
    ensures Placed(scope, root, sweep, Grown(c, scope, root, sweep))
  {
    hide MeasuredId, ValidSweep, RecordedStep, Grown;
    var after := Grown(c, scope, root, sweep);
    Swept(c, scope, root, sweep, |sweep|);
    assert sweep[..|sweep|] == sweep;
    GrownNodes(c, scope, root, sweep);
    forall j | 0 <= j < |sweep| ensures MeasuredId(scope, sweep[j]) !in c.nodes {
      assert sweep[j] in sweep;
    }
    forall child, p | p in Next(after.parents, child) && (p == root || exists a: nat :: IsStep(scope, sweep, a, p))
      ensures exists j: nat :: IsStep(scope, sweep, j, child)
    {
      var m :| m in sweep && MeasuredId(scope, m) == child;
      var j: nat :| j < |sweep| && sweep[j] == m;
      assert IsStep(scope, sweep, j, child);
    }
  }
}
