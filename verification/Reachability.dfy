/** Measuring the advertised brokers: one scoped transport sweep under each usable
advertisement, until the caller's context is done. */
module Reachability {
  import opened Evidences
  import opened Graphs
  import opened Hosts
  import opened Identifiers
  import opened Recording
  import opened Transports
  import opened SweepGraphs

  // ---- what is measured, and how far ----

  /** How sweeps are run: the digest their scopes come from, the run's TLS choice, and
  what the network would let the sweep of each broker see. */
  datatype Plan = Plan(parseAddr: AddrParser, sha256: string -> seq<Byte>, tls: bool, network: nat -> Network)

  ghost predicate SoundPlan(plan: Plan) {
    SoundParser(plan.parseAddr) && forall k :: SoundNetwork(plan.network(k))
  }

  function ParamsOf(plan: Plan, broker: DiscoveredBroker): Params {
    Params(broker.host, broker.port, plan.tls, ScopeOf(plan.sha256, broker.evidenceID), broker.evidenceID)
  }

  datatype Measurement = Measurement(considered: nat, measured: nat)

  /** How often the context is still found alive when broker n is come to: one check for
  each broker before it, and one for each address of each broker that was swept. */
  ghost function LeftAt(plan: Plan, brokers: seq<DiscoveredBroker>, left: nat, n: nat): nat
    requires n <= |brokers|
  {
    if n == 0 then left
    else
      var before := Spend(LeftAt(plan, brokers, left, n - 1), 1);
      if !brokers[n - 1].usable then before
      else Spend(before, |Addresses(plan.parseAddr, ParamsOf(plan, brokers[n - 1]), plan.network(n - 1))|)
  }

  ghost function SweepAt(
    plan: Plan, brokers: seq<DiscoveredBroker>, left: nat, cause: FailureClass, i: nat): seq<Measured>
    requires i < |brokers|
  {
    SweepOf(
      plan.parseAddr, ParamsOf(plan, brokers[i]), plan.network(i), Spend(LeftAt(plan, brokers, left, i), 1), cause)
  }

  /** What the builder holds after the first n brokers. */
  ghost function MeasuredTo(
    c: Content, plan: Plan, brokers: seq<DiscoveredBroker>, left: nat, cause: FailureClass, n: nat): Content
    requires n <= |brokers|
  {
    if n == 0 then c
    else
      var before := MeasuredTo(c, plan, brokers, left, cause, n - 1);
      var id := brokers[n - 1].evidenceID;
      if !brokers[n - 1].usable then before
      else Grown(before, ScopeOf(plan.sha256, id), id, SweepAt(plan, brokers, left, cause, n - 1))
  }

  /** Brokers are considered in order while the context is found alive. */
  ghost predicate StopsAt(plan: Plan, brokers: seq<DiscoveredBroker>, left: nat, n: nat) {
    && n <= |brokers|
    && (forall k :: 0 <= k < n ==> LeftAt(plan, brokers, left, k) > 0)
    && (n < |brokers| ==> LeftAt(plan, brokers, left, n) == 0)
  }

  ghost function UsableCount(brokers: seq<DiscoveredBroker>): nat {
    if brokers == [] then 0
    else UsableCount(brokers[..|brokers| - 1]) + if brokers[|brokers| - 1].usable then 1 else 0
  }

  lemma {:induction false} UsableCounted(brokers: seq<DiscoveredBroker>, n: nat)
    requires n <= |brokers|
    ensures UsableCount(brokers[..n]) == |set k | 0 <= k < n && brokers[k].usable|
  {
    if n > 0 {
      UsableCounted(brokers, n - 1);
      assert brokers[..n][..n - 1] == brokers[..n - 1];
      var before, after := set k | 0 <= k < n - 1 && brokers[k].usable, set k | 0 <= k < n && brokers[k].usable;
      assert after == before + if brokers[n - 1].usable then {n - 1} else {};
    }
  }

  /** The sweep of broker i can be recorded: its advertisement is there and nothing it
  mints is. */
  ghost predicate CleanAt(
    c: Content, plan: Plan, brokers: seq<DiscoveredBroker>, left: nat, cause: FailureClass, i: nat)
    requires i < |brokers|
  {
    var now, id := MeasuredTo(c, plan, brokers, left, cause, i), brokers[i].evidenceID;
    && id != "" && id in now.nodes && ValidSweep(SweepAt(plan, brokers, left, cause, i))
    && FreshFor(now.nodes, ScopeOf(plan.sha256, id), SweepAt(plan, brokers, left, cause, i))
  }

  ghost predicate Clean(
    c: Content, plan: Plan, brokers: seq<DiscoveredBroker>, left: nat, cause: FailureClass, n: nat)
    requires n <= |brokers|
  {
    forall i :: 0 <= i < n && brokers[i].usable ==> CleanAt(c, plan, brokers, left, cause, i)
  }

  // ---- a healthy run ----

  ghost function ScopesUsed(sha256: string -> seq<Byte>, brokers: seq<DiscoveredBroker>, n: nat): set<string>
    requires n <= |brokers|
  {
    set k | 0 <= k < n && brokers[k].usable :: ScopeOf(sha256, brokers[k].evidenceID).text
  }

  /** Each node was minted by its own step, and a transport step already in the graph
  belongs to no sweep of an advertisement. */
  ghost predicate Unswept(nodes: map<EvidenceID, Evidence>) {
    && MintedByStep(nodes)
    && forall id :: id in nodes && TransportStep(nodes[id].step) ==> |Decoded(id)| == 1 + Arity(nodes[id].step)
  }

  /** Every node added since is labelled with one of the scopes used. */
  ghost predicate ScopedSince(before: map<EvidenceID, Evidence>, after: map<EvidenceID, Evidence>, used: set<string>) {
    forall id :: id in after && id !in before ==> |Decoded(id)| >= 2 && Decoded(id)[1] in used
  }

  ghost predicate DistinctDigests(sha256: string -> seq<Byte>, brokers: seq<DiscoveredBroker>) {
    forall j, k :: 0 <= j < k < |brokers| && brokers[j].usable && brokers[k].usable ==>
      sha256(brokers[j].evidenceID) != sha256(brokers[k].evidenceID)
  }

  /** The run Metadata hands over: usable advertisements are nodes, nothing was swept
  yet, and the digest tells their identifiers apart. */
  ghost predicate Healthy(
    sha256: string -> seq<Byte>, nodes: map<EvidenceID, Evidence>, brokers: seq<DiscoveredBroker>)
  {
    && Unswept(nodes)
    && DistinctDigests(sha256, brokers)
    && forall k :: 0 <= k < |brokers| && brokers[k].usable ==>
      brokers[k].evidenceID in nodes && brokers[k].evidenceID != ""
  }

  lemma DecodedMeasured(scope: SweepScope, m: Measured)
    requires !scope.IsZero()
    ensures Decoded(MeasuredId(scope, m)) == [m.step, scope.text] + m.components
  {
    DecodeInverts(Parts(scope, m.step, m.components));
  }

  lemma NewScope(sha256: string -> seq<Byte>, brokers: seq<DiscoveredBroker>, i: nat)
    requires DistinctDigests(sha256, brokers) && i < |brokers| && brokers[i].usable
    ensures ScopeOf(sha256, brokers[i].evidenceID).text !in ScopesUsed(sha256, brokers, i)
  {
    hide ScopeOf;
    forall k | 0 <= k < i && brokers[k].usable
      ensures ScopeOf(sha256, brokers[k].evidenceID).text != ScopeOf(sha256, brokers[i].evidenceID).text
    {
      ScopesDiffer(sha256, brokers[k].evidenceID, brokers[i].evidenceID);
    }
  }

  lemma ScopesDiffer(sha256: string -> seq<Byte>, a: EvidenceID, b: EvidenceID)
    requires sha256(a) != sha256(b)
    ensures ScopeOf(sha256, a).text != ScopeOf(sha256, b).text
  {
    hide Encoded;
    var s, t := ScopeOf(sha256, a), ScopeOf(sha256, b);
    assert s.text == t.text ==> s == t;
    SweepsStayApart(sha256, a, "", [], b, "", []);
  }

  lemma ScopeIsBuilt(sha256: string -> seq<Byte>, id: EvidenceID)
    ensures ScopeOf(sha256, id).Built() && !ScopeOf(sha256, id).IsZero()
  {
    ScopeTextIsValid(sha256(id));
  }

  /** A new scope's identifiers are new, whatever the earlier sweeps measured. */
  lemma NewScopeIsFresh(
    before: map<EvidenceID, Evidence>, now: map<EvidenceID, Evidence>, used: set<string>, scope: SweepScope,
    sweep: seq<Measured>)
    requires Unswept(before) && ScopedSince(before, now, used)
    requires forall id :: id in before ==> id in now
    requires ValidSweep(sweep) && !scope.IsZero() && scope.text !in used
    ensures FreshFor(now, scope, sweep)
  {
    hide MeasuredId, TransportStep, Arity;
    forall m | m in sweep ensures MeasuredId(scope, m) !in now {
      DecodedMeasured(scope, m);
      var d := Decoded(MeasuredId(scope, m));
      assert d[0] == m.step && d[1] == scope.text && |d| == 2 + Arity(m.step);
    }
  }

  lemma {:induction false} ScopedTo(
    c: Content, plan: Plan, brokers: seq<DiscoveredBroker>, left: nat, cause: FailureClass, n: nat)
    requires n <= |brokers|
    ensures
      ScopedSince(c.nodes, MeasuredTo(c, plan, brokers, left, cause, n).nodes, ScopesUsed(plan.sha256, brokers, n))
    ensures forall id :: id in c.nodes ==> id in MeasuredTo(c, plan, brokers, left, cause, n).nodes
  {
    hide MeasuredId, ScopeOf, SweepAt, Grown;
    if n > 0 {
      ScopedTo(c, plan, brokers, left, cause, n - 1);
      var before, id := MeasuredTo(c, plan, brokers, left, cause, n - 1), brokers[n - 1].evidenceID;
      if brokers[n - 1].usable {
        ScopeIsBuilt(plan.sha256, id);
        GrownScoped(before, ScopeOf(plan.sha256, id), id, SweepAt(plan, brokers, left, cause, n - 1));
      }
      assert forall k :: 0 <= k < n - 1 && brokers[k].usable ==>
        ScopeOf(plan.sha256, brokers[k].evidenceID).text in ScopesUsed(plan.sha256, brokers, n);
    }
  }

  lemma GrownScoped(c: Content, scope: SweepScope, parent: EvidenceID, sweep: seq<Measured>)
    requires !scope.IsZero()
    ensures ScopedSince(c.nodes, Grown(c, scope, parent, sweep).nodes, {scope.text})
    ensures forall id :: id in c.nodes ==> id in Grown(c, scope, parent, sweep).nodes
  {
    hide MeasuredId, Grown;
    GrownNodes(c, scope, parent, sweep);
    var after := Grown(c, scope, parent, sweep).nodes;
    forall id | id in after && id !in c.nodes ensures |Decoded(id)| >= 2 && Decoded(id)[1] in {scope.text} {
      var m :| m in sweep && MeasuredId(scope, m) == id;
      DecodedMeasured(scope, m);
    }
  }

  /** On a healthy run every sweep there is a host for finds its place. */
  lemma HealthyIsClean(
    c: Content, plan: Plan, brokers: seq<DiscoveredBroker>, left: nat, cause: FailureClass, i: nat)
    requires SoundPlan(plan) && Healthy(plan.sha256, c.nodes, brokers)
    requires i < |brokers| && brokers[i].usable && Measurable(plan.parseAddr, brokers[i].host, brokers[i].port)
    ensures CleanAt(c, plan, brokers, left, cause, i)
  {
    hide MeasuredId, ScopeOf, MeasuredTo, FreshFor, ValidSweep, SoundParser, SoundNetwork, Unswept, DistinctDigests,
      Measurable, ScopedSince, SweepOf;
    var id := brokers[i].evidenceID;
    SweepIsValid(
      plan.parseAddr, ParamsOf(plan, brokers[i]), plan.network(i), Spend(LeftAt(plan, brokers, left, i), 1), cause);
    ScopedTo(c, plan, brokers, left, cause, i);
    NewScope(plan.sha256, brokers, i);
    ScopeIsBuilt(plan.sha256, id);
    NewScopeIsFresh(
      c.nodes, MeasuredTo(c, plan, brokers, left, cause, i).nodes, ScopesUsed(plan.sha256, brokers, i),
      ScopeOf(plan.sha256, id), SweepAt(plan, brokers, left, cause, i));
  }

  // ---- the loop ----

  ghost predicate CanMeasure(plan: Plan, broker: DiscoveredBroker) {
    broker.usable ==> Measurable(plan.parseAddr, broker.host, broker.port)
  }

  lemma NothingConsidered(c: Content, plan: Plan, brokers: seq<DiscoveredBroker>, left: nat, cause: FailureClass)
    ensures LeftAt(plan, brokers, left, 0) == left && MeasuredTo(c, plan, brokers, left, cause, 0) == c
    ensures Clean(c, plan, brokers, left, cause, 0) && UsableCount(brokers[..0]) == 0
  {
  }

  /** One broker further. */
  lemma Considers(c: Content, plan: Plan, brokers: seq<DiscoveredBroker>, left: nat, cause: FailureClass, i: nat)
    requires i < |brokers|
    ensures var p, net := ParamsOf(plan, brokers[i]), plan.network(i);
      var after := Spend(LeftAt(plan, brokers, left, i), 1);
      && LeftAt(plan, brokers, left, i + 1) ==
        (if brokers[i].usable then Spend(after, |Addresses(plan.parseAddr, p, net)|) else after)
      && MeasuredTo(c, plan, brokers, left, cause, i + 1) ==
        (if brokers[i].usable then
           Grown(
             MeasuredTo(c, plan, brokers, left, cause, i), p.scope, p.parent,
             SweepOf(plan.parseAddr, p, net, after, cause))
         else MeasuredTo(c, plan, brokers, left, cause, i))
      && SweepAt(plan, brokers, left, cause, i) == SweepOf(plan.parseAddr, p, net, after, cause)
    ensures UsableCount(brokers[..i + 1]) == UsableCount(brokers[..i]) + if brokers[i].usable then 1 else 0
    ensures Clean(c, plan, brokers, left, cause, i + 1) <==>
      Clean(c, plan, brokers, left, cause, i) && (brokers[i].usable ==> CleanAt(c, plan, brokers, left, cause, i))
    ensures CleanAt(c, plan, brokers, left, cause, i) <==>
      && brokers[i].evidenceID != "" && brokers[i].evidenceID in MeasuredTo(c, plan, brokers, left, cause, i).nodes
      && ValidSweep(SweepAt(plan, brokers, left, cause, i))
      && FreshFor(
        MeasuredTo(c, plan, brokers, left, cause, i).nodes, ScopeOf(plan.sha256, brokers[i].evidenceID),
        SweepAt(plan, brokers, left, cause, i))
  {
    hide Grown, SweepOf, Addresses, FreshFor, ValidSweep, ScopeOf;
    assert brokers[..i + 1][..i] == brokers[..i];
  }

  lemma HealthyIsNamed(
    sha256: string -> seq<Byte>, nodes: map<EvidenceID, Evidence>, brokers: seq<DiscoveredBroker>, i: nat)
    requires i < |brokers| && brokers[i].usable && brokers[i].evidenceID == ""
    ensures !Healthy(sha256, nodes, brokers)
  {
  }

  /** Once found done, the context is done for every broker after. */
  lemma {:induction false} DoneForGood(plan: Plan, brokers: seq<DiscoveredBroker>, left: nat, n: nat)
    requires n <= |brokers| && LeftAt(plan, brokers, left, n) == 0
    ensures forall k :: n <= k <= |brokers| ==> LeftAt(plan, brokers, left, k) == 0
    decreases |brokers| - n
  {
    hide Addresses;
    if n < |brokers| {
      DoneForGood(plan, brokers, left, n + 1);
    }
  }

  // ---- what the sweeps leave in the graph ----

  /** The advertisements among the first n that a sweep was run for. */
  ghost function MeasuredRoots(brokers: seq<DiscoveredBroker>, n: nat): set<EvidenceID>
    requires n <= |brokers|
  {
    set k | 0 <= k < n && brokers[k].usable :: brokers[k].evidenceID
  }

  /** Every step of the broker's sweep is a node of its own under the advertisement. */
  ghost predicate SweepRecorded(
    sha256: string -> seq<Byte>, broker: DiscoveredBroker, sweep: seq<Measured>, c: Content)
  {
    forall j :: 0 <= j < |sweep| ==>
      RecordedStep(ScopeOf(sha256, broker.evidenceID), broker.evidenceID, sweep, j, c)
  }

  /** After clean sweeps, every step of every sweep is recorded, what was there before is
  untouched, and what is new hangs only under measured advertisements. */
  lemma {:induction false} SweepsLeave(
    c: Content, plan: Plan, brokers: seq<DiscoveredBroker>, left: nat, cause: FailureClass, n: nat)
    requires n <= |brokers| && Unsaid(c) && Clean(c, plan, brokers, left, cause, n)
    ensures var after := MeasuredTo(c, plan, brokers, left, cause, n);
      && Grew(c, after, MeasuredRoots(brokers, n)) && Unsaid(after)
      && forall i :: 0 <= i < n && brokers[i].usable ==>
        SweepRecorded(plan.sha256, brokers[i], SweepAt(plan, brokers, left, cause, i), after)
  {
    hide Unsaid, Grew, SweepRecorded, SweepAt, MeasuredTo, Clean, CleanAt, ScopeOf, LeftAt, MeasuredRoots;
    if n == 0 {
      NothingConsidered(c, plan, brokers, left, cause);
      GrewNothing(c, MeasuredRoots(brokers, 0));
    } else {
      Considers(c, plan, brokers, left, cause, n - 1);
      SweepsLeave(c, plan, brokers, left, cause, n - 1);
      var before := MeasuredTo(c, plan, brokers, left, cause, n - 1);
      var after := MeasuredTo(c, plan, brokers, left, cause, n);
      if brokers[n - 1].usable {
        OneSweepLeaves(before, plan.sha256, brokers[n - 1], SweepAt(plan, brokers, left, cause, n - 1), after);
        GrewTwice(c, before, after, MeasuredRoots(brokers, n - 1), {brokers[n - 1].evidenceID});
        StillRecordedEach(plan, brokers, left, cause, n - 1, before, after, {brokers[n - 1].evidenceID});
      }
      RootsNext(brokers, n);
    }
  }

  lemma RootsNext(brokers: seq<DiscoveredBroker>, n: nat)
    requires 0 < n <= |brokers|
    ensures brokers[n - 1].usable ==>
      MeasuredRoots(brokers, n) == MeasuredRoots(brokers, n - 1) + {brokers[n - 1].evidenceID}
    ensures !brokers[n - 1].usable ==> MeasuredRoots(brokers, n) == MeasuredRoots(brokers, n - 1)
  {
  }

  lemma StillRecordedEach(
    plan: Plan, brokers: seq<DiscoveredBroker>, left: nat, cause: FailureClass, n: nat, before: Content,
    after: Content, roots: set<EvidenceID>)
    requires n <= |brokers| && Grew(before, after, roots)
    requires forall i :: 0 <= i < n && brokers[i].usable ==>
      SweepRecorded(plan.sha256, brokers[i], SweepAt(plan, brokers, left, cause, i), before)
    ensures forall i :: 0 <= i < n && brokers[i].usable ==>
      SweepRecorded(plan.sha256, brokers[i], SweepAt(plan, brokers, left, cause, i), after)
  {
    hide Grew, SweepRecorded, SweepAt;
    forall i | 0 <= i < n && brokers[i].usable
      ensures SweepRecorded(plan.sha256, brokers[i], SweepAt(plan, brokers, left, cause, i), after)
    {
      StillRecorded(plan.sha256, brokers[i], SweepAt(plan, brokers, left, cause, i), before, after, roots);
    }
  }

  lemma OneSweepLeaves(
    before: Content, sha256: string -> seq<Byte>, broker: DiscoveredBroker, sweep: seq<Measured>, after: Content)
    requires Unsaid(before) && ValidSweep(sweep)
    requires broker.evidenceID != "" && broker.evidenceID in before.nodes
    requires FreshFor(before.nodes, ScopeOf(sha256, broker.evidenceID), sweep)
    requires after == Grown(before, ScopeOf(sha256, broker.evidenceID), broker.evidenceID, sweep)
    ensures Grew(before, after, {broker.evidenceID}) && Unsaid(after) && SweepRecorded(sha256, broker, sweep, after)
  {
    hide Grew, RecordedStep, ScopeOf, Grown, FreshFor, ValidSweep, Unsaid;
    ScopeIsBuilt(sha256, broker.evidenceID);
    Swept(before, ScopeOf(sha256, broker.evidenceID), broker.evidenceID, sweep, |sweep|);
    assert sweep[..|sweep|] == sweep;
  }

  lemma StillRecorded(
    sha256: string -> seq<Byte>, broker: DiscoveredBroker, sweep: seq<Measured>, before: Content, after: Content,
    roots: set<EvidenceID>)
    requires SweepRecorded(sha256, broker, sweep, before) && Grew(before, after, roots)
    ensures SweepRecorded(sha256, broker, sweep, after)
  {
    hide ScopeOf, MeasuredId, MeasuredNode, ParentOf, Grew;
    KeptByGrowth(before, after, roots);
    var scope := ScopeOf(sha256, broker.evidenceID);
    forall j | 0 <= j < |sweep| ensures RecordedStep(scope, broker.evidenceID, sweep, j, after) {
      assert RecordedStep(scope, broker.evidenceID, sweep, j, before);
    }
  }
}
