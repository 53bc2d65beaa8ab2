/** Whether a Kafka run finished the work it promised, read from the graph alone. */
module Completeness {
  import opened Orders
  import opened Results
  import opened Evidences
  import opened Graphs
  import opened Advertisements
  import opened Transports

  const STEP_METADATA: Step := "kafka.metadata"

  /** svcdoctor's own budget ended this step; the target was not heard. */
  predicate UnknownLocal(node: Evidence) {
    node.state == Unknown && LocalCause(node.failureClass)
  }

  // ---- what the predicate means ----

  ghost function Roots(g: Graph, id: EvidenceID): set<EvidenceID> {
    set c | c in g.Children(id)
  }

  ghost function Below(g: Graph, id: EvidenceID, step: Step): set<EvidenceID> {
    set c | c in g.Children(id) && c in g.nodes && g.nodes[c].step == step
  }

  ghost predicate InState(g: Graph, id: EvidenceID, state: State) {
    id in g.nodes && g.nodes[id].state == state
  }

  ghost predicate Stopped(g: Graph, id: EvidenceID) {
    id in g.nodes && UnknownLocal(g.nodes[id])
  }

  /** A lookup is the only thing beneath the advertisement. */
  ghost predicate IsLookup(g: Graph, ad: EvidenceID, lookup: EvidenceID) {
    Roots(g, ad) == {lookup} && Below(g, ad, STEP_LOOKUP) == {lookup}
  }

  ghost predicate LookupFailed(g: Graph, ad: EvidenceID) {
    exists lookup :: IsLookup(g, ad, lookup) && InState(g, lookup, Fail)
  }

  ghost predicate NamedSweep(g: Graph, ad: EvidenceID, lookup: EvidenceID) {
    IsLookup(g, ad, lookup) && !Stopped(g, lookup) && !InState(g, lookup, Fail)
  }

  /** An address needs no lookup: connections are all there is beneath it. */
  ghost predicate LiteralSweep(g: Graph, ad: EvidenceID) {
    Roots(g, ad) != {} && Below(g, ad, STEP_CONNECT) == Roots(g, ad)
  }

  /** The connections on which an advertisement's verdict depends. */
  ghost predicate Sweep(g: Graph, ad: EvidenceID, connections: set<EvidenceID>) {
    || (LiteralSweep(g, ad) && connections == Roots(g, ad))
    || (exists lookup :: NamedSweep(g, ad, lookup) && connections == Below(g, lookup, STEP_CONNECT))
  }

  /** Transport was reached: the connection passed, and so did any handshake over it. */
  ghost predicate Reached(g: Graph, c: EvidenceID) {
    InState(g, c, Pass) && forall h :: h in Below(g, c, STEP_HANDSHAKE) ==> InState(g, h, Pass)
  }

  ghost predicate Unfinished(g: Graph, c: EvidenceID) {
    Stopped(g, c) || exists h :: h in Below(g, c, STEP_HANDSHAKE) && Stopped(g, h)
  }

  ghost predicate WellFormed(g: Graph, connections: set<EvidenceID>) {
    forall c :: c in connections ==> |Below(g, c, STEP_HANDSHAKE)| <= 1
  }

  /** One working path settles it; failure needs every path to have been measured. */
  ghost predicate Settled(g: Graph, connections: set<EvidenceID>) {
    && connections != {}
    && WellFormed(g, connections)
    && ((exists c :: c in connections && Reached(g, c)) || (forall c :: c in connections ==> !Unfinished(g, c)))
  }

  ghost predicate Resolved(g: Graph, ad: EvidenceID) {
    LookupFailed(g, ad) || exists connections :: Sweep(g, ad, connections) && Settled(g, connections)
  }

  /** The first exchange in graph order is the one that counts. */
  ghost predicate MetadataPassed(g: Graph) {
    exists i :: 0 <= i < |g.order| && FirstMetadata(g, i) && InState(g, g.order[i], Pass)
  }

  ghost predicate FirstMetadata(g: Graph, i: nat) {
    && i < |g.order| && RecordsStep(g, g.order[i], STEP_METADATA)
    && forall j :: 0 <= j < i ==> !RecordsStep(g, g.order[j], STEP_METADATA)
  }

  ghost predicate RecordsStep(g: Graph, id: EvidenceID, step: Step) {
    id in g.nodes && g.nodes[id].step == step
  }

  ghost predicate Promised(g: Graph, ad: EvidenceID) {
    RecordsStep(g, ad, STEP_BROKER_ADVERTISED) && InState(g, ad, Pass)
  }

  ghost predicate CompleteRun(contextDone: bool, g: Graph) {
    && !contextDone
    && if MetadataPassed(g) then forall ad :: Promised(g, ad) ==> Resolved(g, ad)
       else forall id :: !Stopped(g, id)
  }

  // ---- reading the graph ----

  method ChildrenAt(g: Graph, parent: EvidenceID, step: Step) returns (out: seq<Evidence>)
    requires Frozen(g)
    ensures Lists(g, out, Below(g, parent, step))
  {
    hide Frozen, Distinct, BelowAmong, Lists;
    ChildrenAreNodes(g, parent);
    var ids := g.Children(parent);
    out := [];
    ListsNone(g, step);
    var i := 0;
    while i < |ids|
      invariant 0 <= i <= |ids|
      invariant Lists(g, out, BelowAmong(g, ids[..i], step))
    {
      BelowNext(g, ids, i, step);
      if ids[i] in g.nodes && g.nodes[ids[i]].step == step {
        ListsNext(g, out, BelowAmong(g, ids[..i], step), ids[i]);
        out := out + [g.nodes[ids[i]]];
      }
      i := i + 1;
    }
    assert ids[..|ids|] == ids;
    BelowAmongAll(g, parent, step);
  }

  /** The nodes of a set of identifiers, each once. */
  ghost predicate Lists(g: Graph, out: seq<Evidence>, ids: set<EvidenceID>) {
    && |out| == |ids|
    && (forall e :: e in out ==> e.id in ids && e.id in g.nodes && g.nodes[e.id] == e)
    && (forall id :: id in ids ==> id in g.nodes && g.nodes[id].id == id && g.nodes[id] in out)
  }

  ghost function BelowAmong(g: Graph, ids: seq<EvidenceID>, step: Step): set<EvidenceID> {
    set c | c in ids && c in g.nodes && g.nodes[c].step == step
  }

  lemma ListsNone(g: Graph, step: Step)
    ensures Lists(g, [], BelowAmong(g, [], step))
  {
    assert BelowAmong(g, [], step) == {};
  }

  lemma ListsNext(g: Graph, out: seq<Evidence>, ids: set<EvidenceID>, id: EvidenceID)
    requires Lists(g, out, ids) && id in g.nodes && g.nodes[id].id == id && id !in ids
    ensures Lists(g, out + [g.nodes[id]], ids + {id})
  {
  }

  lemma BelowAmongAll(g: Graph, parent: EvidenceID, step: Step)
    ensures BelowAmong(g, g.Children(parent), step) == Below(g, parent, step)
  {
  }

  lemma ChildrenAreNodes(g: Graph, parent: EvidenceID)
    requires Frozen(g)
    ensures Distinct(g.Children(parent))
    ensures forall id :: id in g.nodes ==> g.nodes[id].id == id
  {
    hide LegalGraph, GraphOf;
    ChildrenInvertParents(g, parent, parent);
    AscendingDistinct(g.Children(parent));
  }

  lemma BelowNext(g: Graph, ids: seq<EvidenceID>, i: nat, step: Step)
    requires Distinct(ids) && i < |ids|
    ensures var before := BelowAmong(g, ids[..i], step);
      && ids[i] !in before
      && BelowAmong(g, ids[..i + 1], step) ==
         before + if ids[i] in g.nodes && g.nodes[ids[i]].step == step then {ids[i]} else {}
  {
    assert ids[..i + 1] == ids[..i] + [ids[i]];
  }

  method SingleChild(g: Graph, parent: EvidenceID, step: Step) returns (node: Option<Evidence>)
    requires Frozen(g)
    ensures node.Some? <==> |Below(g, parent, step)| == 1
    ensures node.Some? ==>
      Below(g, parent, step) == {node.value.id} && node.value.id in g.nodes && g.nodes[node.value.id] == node.value
  {
    hide Frozen, Below;
    var matches := ChildrenAt(g, parent, step);
    if |matches| != 1 {
      return None;
    }
    assert matches[0] in matches;
    OnlyMember(Below(g, parent, step), matches[0].id);
    return Some(matches[0]);
  }

  lemma OnlyMember<T>(s: set<T>, x: T)
    requires x in s
    ensures |s| == 1 <==> s == {x}
  {
    if |s| == 1 {
      assert |s - {x}| == 0;
    }
  }

  datatype TransportPath = TransportPath(connection: Evidence, handshake: Option<Evidence>) {
    predicate ReachedTransport() {
      connection.state == Pass && (handshake.Some? ==> handshake.value.state == Pass)
    }

    predicate LeftUnmeasured() {
      UnknownLocal(connection) || (handshake.Some? && UnknownLocal(handshake.value))
    }
  }

  ghost predicate IsPath(g: Graph, p: TransportPath, c: EvidenceID) {
    && c in g.nodes && p.connection == g.nodes[c]
    && (p.ReachedTransport() <==> Reached(g, c))
    && (p.LeftUnmeasured() <==> Unfinished(g, c))
  }

  /** Two handshakes over one connection is a shape nothing produces. */
  method ReadPath(g: Graph, connection: Evidence) returns (path: Option<TransportPath>)
    requires Frozen(g) && connection.id in g.nodes && g.nodes[connection.id] == connection
    ensures path.Some? <==> |Below(g, connection.id, STEP_HANDSHAKE)| <= 1
    ensures path.Some? ==> IsPath(g, path.value, connection.id)
  {
    hide Frozen, Below;
    var handshakes := ChildrenAt(g, connection.id, STEP_HANDSHAKE);
    if |handshakes| == 0 {
      path := Some(TransportPath(connection, None));
    } else if |handshakes| == 1 {
      assert handshakes[0] in handshakes;
      OnlyMember(Below(g, connection.id, STEP_HANDSHAKE), handshakes[0].id);
      path := Some(TransportPath(connection, Some(handshakes[0])));
    } else {
      path := None;
    }
  }

  datatype AdvertisedRoot = InspectConnections | ResolvedByLookup | UnresolvedRoot

  method AdvertisedConnections(g: Graph, ad: EvidenceID) returns (connections: seq<Evidence>, outcome: AdvertisedRoot)
    requires Frozen(g)
    ensures outcome == ResolvedByLookup <==> LookupFailed(g, ad)
    ensures outcome == InspectConnections ==> exists ids :: Sweep(g, ad, ids) && Lists(g, connections, ids)
    ensures outcome == UnresolvedRoot ==> forall ids :: !Sweep(g, ad, ids)
  {
    hide Frozen, Below, Lists;
    RootsCount(g, ad);
    var roots := g.Children(ad);
    var lookup := SingleChild(g, ad, STEP_LOOKUP);
    if lookup.Some? {
      LookupShape(g, ad, lookup.value.id);
      if |roots| != 1 {
        return [], UnresolvedRoot;
      }
      if UnknownLocal(lookup.value) {
        return [], UnresolvedRoot;
      }
      if lookup.value.state == Fail {
        assert IsLookup(g, ad, lookup.value.id);
        return [], ResolvedByLookup;
      }
      connections := ChildrenAt(g, lookup.value.id, STEP_CONNECT);
      assert NamedSweep(g, ad, lookup.value.id);
      return connections, InspectConnections;
    }
    connections := ChildrenAt(g, ad, STEP_CONNECT);
    LiteralShape(g, ad, connections);
    if |connections| == 0 || |connections| != |roots| {
      return [], UnresolvedRoot;
    }
    return connections, InspectConnections;
  }

  lemma RootsCount(g: Graph, id: EvidenceID)
    requires Frozen(g)
    ensures |Roots(g, id)| == |g.Children(id)|
    ensures forall step :: Below(g, id, step) <= Roots(g, id)
  {
    hide Frozen;
    ChildrenAreNodes(g, id);
    CountDistinct(g.Children(id));
  }

  lemma {:induction false} CountDistinct(ids: seq<EvidenceID>)
    requires Distinct(ids)
    ensures |set id | id in ids| == |ids|
  {
    if ids != [] {
      var front, last := ids[..|ids| - 1], ids[|ids| - 1];
      CountDistinct(front);
      assert ids == front + [last] && last !in front;
      assert (set id | id in ids) == (set id | id in front) + {last};
    }
  }

  lemma LookupShape(g: Graph, ad: EvidenceID, lookup: EvidenceID)
    requires Frozen(g) && Below(g, ad, STEP_LOOKUP) == {lookup}
    ensures IsLookup(g, ad, lookup) <==> |g.Children(ad)| == 1
    ensures forall l :: IsLookup(g, ad, l) ==> l == lookup
    ensures !LiteralSweep(g, ad)
  {
    hide Frozen, GraphOf;
    RootsCount(g, ad);
    assert lookup in Below(g, ad, STEP_LOOKUP);
    assert lookup in Roots(g, ad);
    OnlyMember(Roots(g, ad), lookup);
    DifferentSteps();
    assert lookup !in Below(g, ad, STEP_CONNECT);
    forall l | IsLookup(g, ad, l) ensures l == lookup {
      assert l in {lookup};
    }
  }

  lemma DifferentSteps()
    ensures STEP_LOOKUP != STEP_CONNECT
    ensures STEP_METADATA != STEP_LOOKUP && STEP_METADATA != STEP_CONNECT && STEP_METADATA != STEP_HANDSHAKE
    ensures STEP_BROKER_ADVERTISED != STEP_LOOKUP && STEP_BROKER_ADVERTISED != STEP_CONNECT
    ensures STEP_BROKER_ADVERTISED != STEP_HANDSHAKE && STEP_BROKER_ADVERTISED != STEP_METADATA
  {
    assert STEP_LOOKUP[0] == 'd' && STEP_CONNECT[0] == 't' && STEP_HANDSHAKE[0] == 't';
    assert STEP_METADATA[0] == 'k' && STEP_BROKER_ADVERTISED[0] == 'k';
    assert STEP_METADATA[6] == 'm' && STEP_BROKER_ADVERTISED[6] == 'b';
  }

  lemma LiteralShape(g: Graph, ad: EvidenceID, connections: seq<Evidence>)
    requires Frozen(g) && Lists(g, connections, Below(g, ad, STEP_CONNECT)) && |Below(g, ad, STEP_LOOKUP)| != 1
    ensures LiteralSweep(g, ad) <==> |connections| != 0 && |connections| == |g.Children(ad)|
    ensures forall l :: !IsLookup(g, ad, l)
    ensures LiteralSweep(g, ad) ==> Lists(g, connections, Roots(g, ad))
  {
    hide Frozen, Below;
    RootsCount(g, ad);
    SubsetBySize(Below(g, ad, STEP_CONNECT), Roots(g, ad));
    forall l ensures !IsLookup(g, ad, l) {
      assert |{l}| == 1;
    }
  }

  lemma SubsetBySize<T>(a: set<T>, b: set<T>)
    requires a <= b
    ensures a == b <==> |a| == |b|
  {
    if |a| == |b| {
      assert |b - a| == 0;
    }
  }

  method AdvertisementResolved(g: Graph, ad: EvidenceID) returns (resolved: bool)
    requires Frozen(g)
    ensures resolved <==> Resolved(g, ad)
  {
    hide Frozen, Below, Sweep, Settled, Lists, LookupFailed, IsPath;
    var connections, outcome := AdvertisedConnections(g, ad);
    if outcome != InspectConnections {
      return outcome == ResolvedByLookup;
    }
    ghost var ids :| Sweep(g, ad, ids) && Lists(g, connections, ids);
    OneSweep(g, ad, ids);
    ListedNodes(g, connections, ids);
    if |connections| == 0 {
      return false;
    }
    var paths: seq<TransportPath> := [];
    var i := 0;
    while i < |connections|
      invariant 0 <= i <= |connections| && |paths| == i
      invariant forall k :: 0 <= k < i ==>
        IsPath(g, paths[k], connections[k].id) && |Below(g, connections[k].id, STEP_HANDSHAKE)| <= 1
    {
      var path := ReadPath(g, connections[i]);
      if path.None? {
        NotWellFormed(g, ids, connections[i].id);
        return false;
      }
      paths := paths + [path.value];
      i := i + 1;
    }
    i := 0;
    while i < |paths|
      invariant 0 <= i <= |paths|
      invariant forall k :: 0 <= k < i ==> !paths[k].ReachedTransport()
    {
      if paths[i].ReachedTransport() {
        SettledByPath(g, connections, ids, paths, i);
        return true;
      }
      i := i + 1;
    }
    i := 0;
    while i < |paths|
      invariant 0 <= i <= |paths|
      invariant forall k :: 0 <= k < i ==> !paths[k].LeftUnmeasured()
    {
      if UnknownLocal(paths[i].connection) {
        NotSettled(g, connections, ids, paths, i);
        return false;
      }
      if paths[i].handshake.Some? && UnknownLocal(paths[i].handshake.value) {
        NotSettled(g, connections, ids, paths, i);
        return false;
      }
      i := i + 1;
    }
    SettledByAll(g, connections, ids, paths);
    return true;
  }

  lemma ListedNodes(g: Graph, connections: seq<Evidence>, ids: set<EvidenceID>)
    requires Lists(g, connections, ids)
    ensures forall k :: 0 <= k < |connections| ==> connections[k].id in ids
    ensures forall k :: 0 <= k < |connections| ==>
      connections[k].id in g.nodes && g.nodes[connections[k].id] == connections[k]
    ensures |connections| == 0 ==> ids == {} && !Settled(g, ids)
  {
  }

  lemma OneSweep(g: Graph, ad: EvidenceID, ids: set<EvidenceID>)
    requires Sweep(g, ad, ids)
    ensures forall other :: Sweep(g, ad, other) ==> other == ids
    ensures !LookupFailed(g, ad)
    ensures Resolved(g, ad) <==> Settled(g, ids)
  {
    hide Settled;
    DifferentSteps();
    forall l, m | IsLookup(g, ad, l) && IsLookup(g, ad, m) ensures l == m {
      assert l in {m};
    }
    forall l | IsLookup(g, ad, l) ensures !LiteralSweep(g, ad) {
      assert l in Below(g, ad, STEP_LOOKUP) && l in Roots(g, ad);
      assert l !in Below(g, ad, STEP_CONNECT);
    }
  }

  lemma NotWellFormed(g: Graph, ids: set<EvidenceID>, c: EvidenceID)
    requires c in ids && |Below(g, c, STEP_HANDSHAKE)| > 1
    ensures !Settled(g, ids)
  {
    hide Below;
  }

  /** Every connection of the sweep was read as a path. */
  ghost predicate AllRead(g: Graph, connections: seq<Evidence>, ids: set<EvidenceID>, paths: seq<TransportPath>) {
    && Lists(g, connections, ids) && |paths| == |connections| != 0
    && forall k :: 0 <= k < |paths| ==>
      IsPath(g, paths[k], connections[k].id) && |Below(g, connections[k].id, STEP_HANDSHAKE)| <= 1
  }

  lemma ReadEach(g: Graph, connections: seq<Evidence>, ids: set<EvidenceID>, paths: seq<TransportPath>)
    requires AllRead(g, connections, ids, paths)
    ensures ids != {} && WellFormed(g, ids)
    ensures forall c :: c in ids ==> exists k :: 0 <= k < |paths| && connections[k].id == c && IsPath(g, paths[k], c)
  {
    hide Below, IsPath;
    assert connections[0] in connections;
    forall c | c in ids
      ensures |Below(g, c, STEP_HANDSHAKE)| <= 1
      ensures exists k :: 0 <= k < |paths| && connections[k].id == c && IsPath(g, paths[k], c)
    {
      var k :| 0 <= k < |connections| && connections[k] == g.nodes[c];
      assert connections[k].id == c;
    }
  }

  lemma SettledByPath(g: Graph, connections: seq<Evidence>, ids: set<EvidenceID>, paths: seq<TransportPath>, i: nat)
    requires AllRead(g, connections, ids, paths) && i < |paths| && paths[i].ReachedTransport()
    ensures Settled(g, ids)
  {
    hide Below;
    ReadEach(g, connections, ids, paths);
    assert connections[i] in connections;
    assert Reached(g, connections[i].id);
  }

  lemma SettledByAll(g: Graph, connections: seq<Evidence>, ids: set<EvidenceID>, paths: seq<TransportPath>)
    requires AllRead(g, connections, ids, paths)
    requires forall k :: 0 <= k < |paths| ==> !paths[k].LeftUnmeasured()
    ensures Settled(g, ids)
  {
    hide Below, Unfinished, Reached, WellFormed;
    ReadEach(g, connections, ids, paths);
  }

  lemma NotSettled(g: Graph, connections: seq<Evidence>, ids: set<EvidenceID>, paths: seq<TransportPath>, i: nat)
    requires AllRead(g, connections, ids, paths) && i < |paths| && paths[i].LeftUnmeasured()
    requires forall k :: 0 <= k < |paths| ==> !paths[k].ReachedTransport()
    ensures !Settled(g, ids)
  {
    hide Below, Unfinished, Reached, WellFormed;
    ReadEach(g, connections, ids, paths);
    assert connections[i] in connections;
    assert Unfinished(g, connections[i].id);
  }

  // ---- the whole run ----

  method MetadataNode(g: Graph) returns (node: Option<Evidence>)
    requires Frozen(g)
    ensures node.Some? ==>
      exists i :: 0 <= i < |g.order| && FirstMetadata(g, i) && node.value == g.nodes[g.order[i]]
    ensures node.None? ==> forall id :: !RecordsStep(g, id, STEP_METADATA)
    ensures MetadataPassed(g) <==> node.Some? && node.value.state == Pass
  {
    hide Frozen, Ascending, Distinct, MetadataPassed, FirstMetadata;
    FrozenOrder(g);
    var i := 0;
    while i < |g.order|
      invariant 0 <= i <= |g.order|
      invariant forall j :: 0 <= j < i ==> !RecordsStep(g, g.order[j], STEP_METADATA)
    {
      assert g.order[i] in g.order;
      if g.nodes[g.order[i]].step == STEP_METADATA {
        MetadataFound(g, i);
        return Some(g.nodes[g.order[i]]);
      }
      i := i + 1;
    }
    MetadataAbsent(g);
    return None;
  }

  lemma MetadataFound(g: Graph, i: nat)
    requires i < |g.order| && RecordsStep(g, g.order[i], STEP_METADATA)
    requires forall j :: 0 <= j < i ==> !RecordsStep(g, g.order[j], STEP_METADATA)
    ensures FirstMetadata(g, i) && (MetadataPassed(g) <==> InState(g, g.order[i], Pass))
  {
    hide RecordsStep, InState;
    assert FirstMetadata(g, i);
    forall k: nat | FirstMetadata(g, k) ensures k == i {
    }
  }

  lemma MetadataAbsent(g: Graph)
    requires forall j :: 0 <= j < |g.order| ==> !RecordsStep(g, g.order[j], STEP_METADATA)
    ensures !MetadataPassed(g)
  {
  }

  method AnyUnknownExec(g: Graph) returns (found: bool)
    requires Frozen(g)
    ensures found <==> exists id :: Stopped(g, id)
  {
    hide Frozen, Ascending, Distinct;
    FrozenOrder(g);
    var i := 0;
    while i < |g.order|
      invariant 0 <= i <= |g.order|
      invariant forall j :: 0 <= j < i ==> !Stopped(g, g.order[j])
    {
      assert g.order[i] in g.order;
      if UnknownLocal(g.nodes[g.order[i]]) {
        assert Stopped(g, g.order[i]);
        return true;
      }
      i := i + 1;
    }
    return false;
  }

  // ---- the verdict in the graph's own terms ----

  /** c was derived from p and records the step. */
  ghost predicate Records(g: Graph, c: EvidenceID, p: EvidenceID, step: Step) {
    c in g.Children(p) && c in g.nodes && g.nodes[c].step == step
  }

  /** This side stopped waiting: UNKNOWN for a local timeout or a cancellation, and for no
  other reason. */
  ghost predicate CutOff(e: Evidence) {
    e.state == Unknown && (e.failureClass == ExecLocalTimeout || e.failureClass == ExecCancelled)
  }

  /** The connection passed, and so did every handshake over it. */
  ghost predicate GotThrough(g: Graph, c: EvidenceID) {
    && c in g.nodes && g.nodes[c].state == Pass
    && forall h :: Records(g, h, c, "tls.handshake") ==> g.nodes[h].state == Pass
  }

  /** Neither the connection nor a handshake over it was cut off. */
  ghost predicate RanOut(g: Graph, c: EvidenceID) {
    c in g.nodes && !CutOff(g.nodes[c]) && forall h :: Records(g, h, c, "tls.handshake") ==> !CutOff(g.nodes[h])
  }

  /** The connections under p decide: there is one, none has two handshakes, and one of them
  got through or all of them ran out. */
  ghost predicate ConnectionsDecide(g: Graph, p: EvidenceID) {
    && (exists c :: Records(g, c, p, "tcp.connect"))
    && (forall c, h, k ::
      Records(g, c, p, "tcp.connect") && Records(g, h, c, "tls.handshake") && Records(g, k, c, "tls.handshake") ==>
        h == k)
    && (|| (exists c :: Records(g, c, p, "tcp.connect") && GotThrough(g, c))
        || (forall c :: Records(g, c, p, "tcp.connect") ==> RanOut(g, c)))
  }

  ghost predicate SoleLookup(g: Graph, ad: EvidenceID, lookup: EvidenceID) {
    (forall c :: c in g.Children(ad) <==> c == lookup) && Records(g, lookup, ad, "dns.lookup")
  }

  /** An advertisement is decided when its one child is a lookup that failed, or one that was
  not cut off over connections that decide, or when all its children are connections and
  they decide. */
  ghost predicate IsDecided(g: Graph, ad: EvidenceID) {
    || (exists l :: SoleLookup(g, ad, l) && g.nodes[l].state == Fail)
    || (exists l :: SoleLookup(g, ad, l) && !CutOff(g.nodes[l]) && g.nodes[l].state != Fail && ConnectionsDecide(g, l))
    || ((forall c :: c in g.Children(ad) ==> Records(g, c, ad, "tcp.connect")) && ConnectionsDecide(g, ad))
  }

  lemma ReachedReads(g: Graph, c: EvidenceID)
    ensures Reached(g, c) <==> GotThrough(g, c)
    ensures c in g.nodes ==> (Unfinished(g, c) <==> !RanOut(g, c))
  {
    forall h ensures h in Below(g, c, STEP_HANDSHAKE) <==> Records(g, h, c, "tls.handshake") {
    }
  }

  lemma HandshakesRead(g: Graph, c: EvidenceID)
    ensures |Below(g, c, STEP_HANDSHAKE)| <= 1 <==>
      forall h, k :: Records(g, h, c, "tls.handshake") && Records(g, k, c, "tls.handshake") ==> h == k
  {
    var below := Below(g, c, STEP_HANDSHAKE);
    forall h ensures h in below <==> Records(g, h, c, "tls.handshake") {
    }
    if h, k :| h in below && k in below && h != k {
      assert {h, k} <= below;
      SubsetCount({h, k}, below);
    } else if h :| h in below {
      assert below == {h};
    }
  }

  lemma {:induction false} SubsetCount<T>(a: set<T>, b: set<T>)
    requires a <= b
    ensures |a| <= |b|
  {
    assert b == a + (b - a);
  }

  lemma SettledReads(g: Graph, p: EvidenceID)
    ensures Settled(g, Below(g, p, STEP_CONNECT)) <==> ConnectionsDecide(g, p)
  {
    hide Reached, Unfinished, GotThrough, RanOut;
    var connections := Below(g, p, STEP_CONNECT);
    forall c ensures c in connections <==> Records(g, c, p, "tcp.connect") {
    }
    forall c
      ensures Reached(g, c) <==> GotThrough(g, c)
      ensures c in g.nodes ==> (Unfinished(g, c) <==> !RanOut(g, c))
      ensures |Below(g, c, STEP_HANDSHAKE)| <= 1 <==>
        forall h, k :: Records(g, h, c, "tls.handshake") && Records(g, k, c, "tls.handshake") ==> h == k
    {
      ReachedReads(g, c);
      HandshakesRead(g, c);
    }
  }

  lemma LookupReads(g: Graph, ad: EvidenceID, l: EvidenceID)
    ensures IsLookup(g, ad, l) <==> SoleLookup(g, ad, l)
  {
    assert Roots(g, ad) == {l} <==> forall c :: c in g.Children(ad) <==> c == l by {
      forall c ensures c in Roots(g, ad) <==> c in g.Children(ad) {
      }
      if Roots(g, ad) == {l} {
        assert l in Roots(g, ad);
      }
    }
    if SoleLookup(g, ad, l) {
      assert Below(g, ad, STEP_LOOKUP) == {l};
    }
    if IsLookup(g, ad, l) {
      assert l in Below(g, ad, STEP_LOOKUP);
    }
  }

  lemma LiteralReads(g: Graph, ad: EvidenceID)
    ensures LiteralSweep(g, ad) && Settled(g, Roots(g, ad)) <==>
      (forall c :: c in g.Children(ad) ==> Records(g, c, ad, "tcp.connect")) && ConnectionsDecide(g, ad)
  {
    hide Settled, ConnectionsDecide;
    SettledReads(g, ad);
    if forall c :: c in g.Children(ad) ==> Records(g, c, ad, "tcp.connect") {
      assert Below(g, ad, STEP_CONNECT) == Roots(g, ad);
    }
    if LiteralSweep(g, ad) {
      forall c | c in g.Children(ad) ensures Records(g, c, ad, "tcp.connect") {
        assert c in Roots(g, ad);
      }
    }
    if ConnectionsDecide(g, ad) {
      SomeConnectionDecides(g, ad);
    }
  }

  lemma SomeConnectionDecides(g: Graph, p: EvidenceID)
    requires ConnectionsDecide(g, p)
    ensures Roots(g, p) != {}
  {
    var c :| Records(g, c, p, "tcp.connect");
    assert c in Roots(g, p);
  }

  /** Whether an advertisement is resolved, read off its children. */
  lemma ResolvedReads(g: Graph, ad: EvidenceID)
    ensures Resolved(g, ad) <==> IsDecided(g, ad)
  {
    hide Settled, ConnectionsDecide, Below, Roots, SoleLookup, IsLookup, LiteralSweep;
    LiteralReads(g, ad);
    forall l
      ensures IsLookup(g, ad, l) <==> SoleLookup(g, ad, l)
      ensures Settled(g, Below(g, l, STEP_CONNECT)) <==> ConnectionsDecide(g, l)
      ensures SoleLookup(g, ad, l) ==> l in g.nodes
    {
      LookupReads(g, ad, l);
      SettledReads(g, l);
      SoleIsNode(g, ad, l);
    }
    if LiteralSweep(g, ad) && Settled(g, Roots(g, ad)) {
      assert Sweep(g, ad, Roots(g, ad));
    }
    if l :| SoleLookup(g, ad, l) && !CutOff(g.nodes[l]) && g.nodes[l].state != Fail && ConnectionsDecide(g, l) {
      assert NamedSweep(g, ad, l);
      assert Sweep(g, ad, Below(g, l, STEP_CONNECT));
    }
  }

  lemma SoleIsNode(g: Graph, ad: EvidenceID, l: EvidenceID)
    ensures SoleLookup(g, ad, l) ==> l in g.nodes
  {
  }

  /** The first exchange of the graph passed. */
  ghost predicate ExchangePassed(g: Graph) {
    exists i :: PassedFirst(g, i)
  }

  ghost predicate PassedFirst(g: Graph, i: int) {
    && 0 <= i < |g.order| && g.order[i] in g.nodes
    && g.nodes[g.order[i]].step == "kafka.metadata" && g.nodes[g.order[i]].state == Pass
    && forall j :: 0 <= j < i && g.order[j] in g.nodes ==> g.nodes[g.order[j]].step != "kafka.metadata"
  }

  /** What makes a run incomplete while its context is alive: an advertisement that passed
  and is not decided, or, when no exchange passed, anything that was cut off. */
  ghost predicate SomethingOpen(g: Graph) {
    if ExchangePassed(g) then
      exists ad :: ad in g.nodes && g.nodes[ad].step == "kafka.broker_advertised" && g.nodes[ad].state == Pass
        && !IsDecided(g, ad)
    else exists id :: id in g.nodes && CutOff(g.nodes[id])
  }

  lemma ExchangeReads(g: Graph)
    ensures MetadataPassed(g) <==> ExchangePassed(g)
  {
    if i :| 0 <= i < |g.order| && FirstMetadata(g, i) && InState(g, g.order[i], Pass) {
      assert PassedFirst(g, i);
    }
    if i :| PassedFirst(g, i) {
      assert FirstMetadata(g, i);
    }
  }

  lemma CompleteReads(g: Graph)
    ensures CompleteRun(false, g) <==> !SomethingOpen(g)
  {
    hide MetadataPassed, ExchangePassed, Resolved, IsDecided;
    ExchangeReads(g);
    forall ad ensures Resolved(g, ad) <==> IsDecided(g, ad) {
      ResolvedReads(g, ad);
    }
    forall id ensures Stopped(g, id) <==> id in g.nodes && CutOff(g.nodes[id]) {
    }
  }

  method IncompleteKafkaRun(contextDone: bool, g: Graph) returns (incomplete: bool)
    requires Frozen(g)
    ensures incomplete <==> !CompleteRun(contextDone, g)
    ensures incomplete <==> contextDone || SomethingOpen(g)
  {
    hide Frozen, Ascending, Distinct, MetadataPassed, Resolved, Stopped, FirstMetadata, SomethingOpen;
    CompleteReads(g);
    if contextDone {
      return true;
    }
    var metadata := MetadataNode(g);
    if metadata.None? || metadata.value.state != Pass {
      incomplete := AnyUnknownExec(g);
      return;
    }
    FrozenOrder(g);
    FiledUnder(g);
    var i := 0;
    while i < |g.order|
      invariant 0 <= i <= |g.order|
      invariant forall j :: 0 <= j < i ==> Promised(g, g.order[j]) ==> Resolved(g, g.order[j])
    {
      var id := g.order[i];
      assert id in g.order;
      var node := g.nodes[id];
      i := i + 1;
      if node.step != STEP_BROKER_ADVERTISED {
        continue;
      }
      if node.state != Pass {
        continue;
      }
      var resolved := AdvertisementResolved(g, node.id);
      if !resolved {
        assert Promised(g, id);
        return true;
      }
    }
    return false;
  }

  lemma FiledUnder(g: Graph)
    requires Frozen(g)
    ensures forall id :: id in g.nodes ==> g.nodes[id].id == id
  {
    hide LegalGraph, GraphOf;
  }
}
