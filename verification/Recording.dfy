/** Recording what a Metadata exchange advertised into the graph. */
module Recording {
  import opened Text
  import opened Relations
  import opened Results
  import opened Decimals
  import opened Evidences
  import opened Graphs
  import opened Identifiers
  import opened Advertisements

  /** The session's endpoint and address, and the node of the exchange. */
  datatype Exchange = Exchange(endpoint: string, address: string, id: EvidenceID)

  datatype DiscoveredBroker = DiscoveredBroker(
    nodeID: int32,
    host: string,
    port: nat,
    usable: bool,
    evidenceID: EvidenceID)

  function Components(x: Exchange, e: Advertisement): seq<string> {
    [x.endpoint, x.address, Decimal(e.nodeID), e.ref]
  }

  ghost function IdOf(x: Exchange, e: Advertisement): EvidenceID {
    Encoded([STEP_BROKER_ADVERTISED] + Components(x, e))
  }

  /** PASS says the advertisement names somewhere to connect, FAIL that it does not. */
  ghost function NodeOf(x: Exchange, e: Advertisement): Evidence {
    Evidence(
      IdOf(x, e), e.subject, LayerTopology, STEP_BROKER_ADVERTISED,
      if e.usable then Pass else Fail,
      if e.usable then FailureNone else ProtocolUnexpectedResponse)
  }

  ghost function BrokerOf(x: Exchange, e: Advertisement): DiscoveredBroker {
    DiscoveredBroker(e.nodeID, e.host, e.port, e.usable, IdOf(x, e))
  }

  /** Identifiers agree with the listing's own key: two listed advertisements share
  one exactly when they are the same advertisement of the same exchange path. */
  lemma IdsNeverCollide(x: Exchange, a: Advertisement, y: Exchange, b: Advertisement)
    requires Listing([a]) && Listing([b])
    ensures IdOf(x, a) == IdOf(y, b) <==> a == b && x.endpoint == y.endpoint && x.address == y.address
  {
    hide Decimal, Encoded, ValidIdentifier, IsEntry;
    if IdOf(x, a) == IdOf(y, b) {
      var p, q := [STEP_BROKER_ADVERTISED] + Components(x, a), [STEP_BROKER_ADVERTISED] + Components(y, b);
      EncodedInjective(p, q);
      assert p[1] == x.endpoint && p[2] == x.address && p[3] == Decimal(a.nodeID) && p[4] == a.ref;
      assert q[1] == y.endpoint && q[2] == y.address && q[3] == Decimal(b.nodeID) && q[4] == b.ref;
      assert a in [a] && b in [b];
      assert Key(a) == Key(b);
      KeyNamesEntry(a.(subject := ZERO_SUBJECT), b.(subject := ZERO_SUBJECT));
    }
  }

  /** Every identifier starts with the step that minted it. */
  ghost predicate MintedByStep(nodes: map<EvidenceID, Evidence>) {
    forall id :: id in nodes ==> Decoded(id)[0] == nodes[id].step
  }

  lemma IdNamesStep(x: Exchange, e: Advertisement)
    ensures Decoded(IdOf(x, e))[0] == STEP_BROKER_ADVERTISED
  {
    hide Decimal, Encoded;
    DecodeInverts([STEP_BROKER_ADVERTISED] + Components(x, e));
  }

  lemma NodeIsBuilt(x: Exchange, e: Advertisement)
    requires Listing([e]) && NoControl(x.endpoint) && NoControl(x.address)
    ensures NodeOf(x, e).Built() && !NodeOf(x, e).IsZero()
  {
    hide Encoded, Decimal, IsEntry, NoControl;
    assert e in [e];
    DecimalText(e.nodeID);
    IdIsValid(x, e);
    StepIsValid();
  }

  lemma IdIsValid(x: Exchange, e: Advertisement)
    requires ValidIdentifier(e.ref) && NoControl(x.endpoint) && NoControl(x.address)
    ensures ValidIdentifier(IdOf(x, e))
  {
    hide Encoded, Decimal, NoControl;
    DecimalText(e.nodeID);
    var parts := [STEP_BROKER_ADVERTISED] + Components(x, e);
    StepIsValid();
    assert parts == [STEP_BROKER_ADVERTISED, x.endpoint, x.address, Decimal(e.nodeID), e.ref];
    EncodedText(parts);
  }

  lemma StepIsValid()
    ensures ValidDottedName(STEP_BROKER_ADVERTISED) && NoControl(STEP_BROKER_ADVERTISED)
    ensures StartsSolid(STEP_BROKER_ADVERTISED)
  {
    hide NoControl, StartsSolid;
    DottedNameText(STEP_BROKER_ADVERTISED);
  }

  /** A step name is visible ASCII text. */
  lemma DottedNameText(s: string)
    ensures ValidDottedName(s) ==> NoControl(s) && StartsSolid(s)
  {
    if ValidDottedName(s) {
      assert forall i :: 0 <= i < |s| ==> s[i] == '.' || StepChar(s[i]);
      assert forall c :: c in s ==> c == '.' || StepChar(c);
    }
  }

  /** The node of an advertisement: PASS when it names somewhere to connect, and otherwise a
  FAIL of what the peer said. */
  ghost predicate AdvertisedBy(e: Advertisement, node: Evidence) {
    && node.subject == Subject(SubjectKindEndpoint, e.ref) && node.layer == LayerTopology
    && node.step == "kafka.broker_advertised"
    && (if e.usable then node.state == Pass && node.failureClass == FailureNone
        else node.state == Fail && node.failureClass == ProtocolUnexpectedResponse)
  }

  method AdvertisementEvidence(x: Exchange, e: Advertisement) returns (r: Result<Evidence>)
    requires Listing([e])
    ensures r.Ok? ==> r.value == NodeOf(x, e) && r.value.Built() && !r.value.IsZero()
    ensures NoControl(x.endpoint) && NoControl(x.address) ==> r.Ok?
    ensures r.Ok? ==> AdvertisedBy(e, r.value)
  {
    hide Encoded, Decimal, IsEntry, NoControl, ValidIdentifier, ValidDottedName;
    assert e in [e];
    var state, failureClass := Pass, FailureNone;
    if !e.usable {
      state, failureClass := Fail, ProtocolUnexpectedResponse;
    }
    var id := EvidenceIDOf(STEP_BROKER_ADVERTISED, Components(x, e));
    if NoControl(x.endpoint) && NoControl(x.address) {
      NodeIsBuilt(x, e);
    }
    r := NewEvidence(Evidence(id, e.subject, LayerTopology, STEP_BROKER_ADVERTISED, state, failureClass), BARE);
  }

  // ---- one node and its parent edge ----

  /** The node enters first; the edge is added only if its parent was there before. */
  method Record(builder: GraphBuilder, e: Evidence, parent: EvidenceID) returns (r: Outcome)
    requires builder.Valid() && (e.IsZero() || e.Built())
    modifies builder`nodes, builder`parents
    ensures builder.Valid()
    ensures r.Done? <==> !e.IsZero() && e.id !in old(builder.nodes) && parent in old(builder.nodes)
    ensures r.Done? ==> builder.nodes == old(builder.nodes)[e.id := e]
    ensures r.Done? ==> builder.parents == WithEdge(old(builder.parents), e.id, parent)
    ensures r.Refused? ==> builder.parents == old(builder.parents)
  {
    hide Filed, Acyclic, Evidence.Built, Evidence.IsZero;
    if e.id !in builder.nodes && parent in builder.nodes {
      FreshEdgeKeepsAcyclic(builder.nodes, builder.parents, e.id, parent);
    }
    r := builder.AddEvidence(e);
    if r.Refused? {
      return;
    }
    r := builder.AddParent(e.id, parent);
  }

  // ---- every advertisement of one exchange ----

  ghost function IdsOf(x: Exchange, es: seq<Advertisement>): set<EvidenceID> {
    set e | e in es :: IdOf(x, e)
  }

  /** The builder after recording es: one new node per advertisement, each derived
  from the exchange and from nothing else, and everything before untouched. */
  ghost predicate Recorded(
    x: Exchange, es: seq<Advertisement>,
    before: map<EvidenceID, Evidence>, parentsBefore: Relation, after: map<EvidenceID, Evidence>,
    parentsAfter: Relation)
  {
    && after.Keys == before.Keys + IdsOf(x, es)
    && before.Keys !! IdsOf(x, es)
    && (forall id :: id in before ==> id in after && after[id] == before[id])
    && (forall e :: e in es ==> IdOf(x, e) in after && after[IdOf(x, e)] == NodeOf(x, e))
    && (forall id :: Next(parentsAfter, id) == if id in IdsOf(x, es) then {x.id} else Next(parentsBefore, id))
  }

  ghost predicate NoneAdvertised(nodes: map<EvidenceID, Evidence>) {
    MintedByStep(nodes) && forall id :: id in nodes ==> nodes[id].step != STEP_BROKER_ADVERTISED
  }

  lemma FreshId(
    x: Exchange, es: seq<Advertisement>, i: nat,
    before: map<EvidenceID, Evidence>, parentsBefore: Relation, after: map<EvidenceID, Evidence>,
    parentsAfter: Relation)
    requires Listing(es) && i < |es| && NoneAdvertised(before)
    requires Recorded(x, es[..i], before, parentsBefore, after, parentsAfter)
    ensures IdOf(x, es[i]) !in after && Listing([es[i]])
  {
    hide IdOf, NodeOf, IsEntry, ValidIdentifier;
    var e := es[i];
    assert e in es;
    IdNamesStep(x, e);
    forall d | d in es[..i] ensures IdOf(x, d) != IdOf(x, e) {
      assert d in es && d != e;
      assert Listing([d]) && Listing([e]);
      IdsNeverCollide(x, d, x, e);
    }
  }

  lemma IdsNext(x: Exchange, es: seq<Advertisement>, e: Advertisement)
    ensures IdsOf(x, es + [e]) == IdsOf(x, es) + {IdOf(x, e)}
  {
    hide IdOf;
  }

  lemma RecordedNext(
    x: Exchange, es: seq<Advertisement>, i: nat,
    before: map<EvidenceID, Evidence>, parentsBefore: Relation, after: map<EvidenceID, Evidence>,
    parentsAfter: Relation)
    requires i < |es| && Recorded(x, es[..i], before, parentsBefore, after, parentsAfter)
    requires IdOf(x, es[i]) !in after && Next(parentsAfter, IdOf(x, es[i])) == {}
    ensures Recorded(
      x, es[..i + 1], before, parentsBefore,
      after[IdOf(x, es[i]) := NodeOf(x, es[i])], WithEdge(parentsAfter, IdOf(x, es[i]), x.id))
  {
    hide IdOf, NodeOf, IdsOf;
    assert es[..i + 1] == es[..i] + [es[i]];
    IdsNext(x, es[..i], es[i]);
  }

  /** Recording never collides: with no advertisement in the graph before, every
  listed one becomes a node, whatever the brokers said. */
  method RecordAdvertisements(builder: GraphBuilder, x: Exchange, es: seq<Advertisement>)
    returns (r: Outcome, brokers: seq<DiscoveredBroker>)
    requires builder.Valid() && Listing(es) && NoneAdvertised(builder.nodes)
    modifies builder`nodes, builder`parents
    ensures builder.Valid()
    ensures x.id in old(builder.nodes) && NoControl(x.endpoint) && NoControl(x.address) ==> r.Done?
    ensures r.Done? ==> Recorded(x, es, old(builder.nodes), old(builder.parents), builder.nodes, builder.parents)
    ensures r.Done? ==> |brokers| == |es| && forall k :: 0 <= k < |es| ==> brokers[k] == BrokerOf(x, es[k])
    ensures r.Done? ==> forall k :: 0 <= k < |es| ==>
      && brokers[k].nodeID == es[k].nodeID && brokers[k].host == es[k].host && brokers[k].port == es[k].port
      && brokers[k].usable == es[k].usable
      && brokers[k].evidenceID in builder.nodes && brokers[k].evidenceID !in old(builder.nodes)
      && AdvertisedBy(es[k], builder.nodes[brokers[k].evidenceID])
      && Next(builder.parents, brokers[k].evidenceID) == {x.id}
  {
    hide Filed, LegalGraph, Recorded, Listing, NoneAdvertised, IdOf, Evidence.Built, NoControl;
    r, brokers := Done, [];
    var i := 0;
    RecordedNone(x, builder.nodes, builder.parents);
    while i < |es|
      invariant 0 <= i <= |es|
      invariant builder.Valid() && r.Done?
      invariant Recorded(x, es[..i], old(builder.nodes), old(builder.parents), builder.nodes, builder.parents)
      invariant |brokers| == i && forall k :: 0 <= k < i ==> brokers[k] == BrokerOf(x, es[k])
    {
      FreshId(x, es, i, old(builder.nodes), old(builder.parents), builder.nodes, builder.parents);
      FreshHasNoParents(builder, IdOf(x, es[i]));
      KeptNode(x, es[..i], old(builder.nodes), old(builder.parents), builder.nodes, builder.parents, x.id);
      RecordedNext(x, es, i, old(builder.nodes), old(builder.parents), builder.nodes, builder.parents);
      var evidence := AdvertisementEvidence(x, es[i]);
      if evidence.Err? {
        return Refused(evidence.error), brokers;
      }
      r := Record(builder, evidence.value, x.id);
      if r.Refused? {
        return;
      }
      brokers := brokers + [DiscoveredBroker(es[i].nodeID, es[i].host, es[i].port, es[i].usable, evidence.value.id)];
      i := i + 1;
    }
    assert es[..|es|] == es;
    forall k | 0 <= k < |es|
      ensures IdOf(x, es[k]) in builder.nodes && IdOf(x, es[k]) !in old(builder.nodes)
      ensures AdvertisedBy(es[k], builder.nodes[IdOf(x, es[k])])
      ensures Next(builder.parents, IdOf(x, es[k])) == {x.id}
    {
      RecordedIs(x, es, k, old(builder.nodes), old(builder.parents), builder.nodes, builder.parents);
    }
  }

  lemma RecordedIs(
    x: Exchange, es: seq<Advertisement>, k: nat,
    before: map<EvidenceID, Evidence>, parentsBefore: Relation, after: map<EvidenceID, Evidence>,
    parentsAfter: Relation)
    requires Listing(es) && k < |es| && Recorded(x, es, before, parentsBefore, after, parentsAfter)
    ensures IdOf(x, es[k]) in after && IdOf(x, es[k]) !in before
    ensures AdvertisedBy(es[k], after[IdOf(x, es[k])])
    ensures Next(parentsAfter, IdOf(x, es[k])) == {x.id}
  {
    hide IdOf, IsEntry, ValidIdentifier;
    assert es[k] in es && IdOf(x, es[k]) in IdsOf(x, es);
    assert es[k] == Named(es[k]);
  }

  lemma RecordedNone(x: Exchange, nodes: map<EvidenceID, Evidence>, parents: Relation)
    ensures Recorded(x, [], nodes, parents, nodes, parents)
  {
    assert IdsOf(x, []) == {};
  }

  lemma FreshHasNoParents(builder: GraphBuilder, id: EvidenceID)
    requires builder.Valid() && id !in builder.nodes
    ensures Next(builder.parents, id) == {}
  {
    hide Filed, Acyclic;
  }

  lemma KeptNode(
    x: Exchange, es: seq<Advertisement>,
    before: map<EvidenceID, Evidence>, parentsBefore: Relation, after: map<EvidenceID, Evidence>,
    parentsAfter: Relation,
    id: EvidenceID)
    requires Recorded(x, es, before, parentsBefore, after, parentsAfter)
    ensures id in before ==> id in after
  {
  }

  /** One node per distinct advertisement, and a graph that still knows its minters. */
  lemma OneNodeEach(
    x: Exchange, es: seq<Advertisement>,
    before: map<EvidenceID, Evidence>, parentsBefore: Relation, after: map<EvidenceID, Evidence>,
    parentsAfter: Relation)
    requires Listing(es) && NoneAdvertised(before) && Recorded(x, es, before, parentsBefore, after, parentsAfter)
    ensures |after| == |before| + |es|
    ensures MintedByStep(after)
    ensures forall id :: id in after && after[id].step == STEP_BROKER_ADVERTISED <==> id in IdsOf(x, es)
  {
    hide IdOf, Listing, IdsOf, NodeOf;
    IdCount(x, es);
    JoinCount(before.Keys, IdsOf(x, es));
    AdvertisedMinted(x, es);
    AdvertisedNodes(x, es, after);
  }

  lemma JoinCount<T>(a: set<T>, b: set<T>)
    requires a !! b
    ensures |a + b| == |a| + |b|
  {
  }

  lemma AdvertisedMinted(x: Exchange, es: seq<Advertisement>)
    ensures forall id :: id in IdsOf(x, es) ==> Decoded(id)[0] == STEP_BROKER_ADVERTISED
  {
    hide IdOf;
    forall id | id in IdsOf(x, es) ensures Decoded(id)[0] == STEP_BROKER_ADVERTISED {
      var e :| e in es && IdOf(x, e) == id;
      IdNamesStep(x, e);
    }
  }

  lemma AdvertisedNodes(x: Exchange, es: seq<Advertisement>, after: map<EvidenceID, Evidence>)
    requires forall e :: e in es ==> IdOf(x, e) in after && after[IdOf(x, e)] == NodeOf(x, e)
    ensures forall id :: id in IdsOf(x, es) ==> id in after && after[id].step == STEP_BROKER_ADVERTISED
  {
    hide IdOf;
    forall id | id in IdsOf(x, es) ensures id in after && after[id].step == STEP_BROKER_ADVERTISED {
      var e :| e in es && IdOf(x, e) == id;
    }
  }

  lemma NewIdOf(x: Exchange, es: seq<Advertisement>, e: Advertisement)
    requires Listing(es + [e])
    ensures Listing(es) && IdOf(x, e) !in IdsOf(x, es)
  {
    hide IdOf, IsEntry, ValidIdentifier;
    var all := es + [e];
    assert all[|es|] == e && forall k :: 0 <= k < |es| ==> all[k] == es[k];
    forall d | d in es ensures IdOf(x, d) != IdOf(x, e) {
      assert d in all && e in all;
      assert Listing([d]) && Listing([e]);
      IdsNeverCollide(x, d, x, e);
    }
  }

  lemma {:induction false} IdCount(x: Exchange, es: seq<Advertisement>)
    requires Listing(es)
    ensures |IdsOf(x, es)| == |es|
  {
    hide IdOf, Listing;
    if es != [] {
      var front, last := es[..|es| - 1], es[|es| - 1];
      assert es == front + [last];
      NewIdOf(x, front, last);
      IdCount(x, front);
      IdsNext(x, front, last);
    }
  }
}
