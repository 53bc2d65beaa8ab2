/** Measuring the advertised brokers, one after the other. */
module Measuring {
  import opened Results
  import opened Evidences
  import opened Relations
  import opened Graphs
  import opened Hosts
  import opened Identifiers
  import opened Recording
  import opened Transports
  import opened SweepGraphs
  import opened Reachability
  import opened SweepShapes
  import opened SweepPlaces
  import opened SweepReadings

  /** Of every usable broker that was come to while the context was alive, the graph holds the
  sweep of its own host and port, through TLS when the run asks for it. */
  ghost predicate BrokersRead(
    c: Content, plan: Plan, brokers: seq<DiscoveredBroker>, left: nat, cause: FailureClass)
  {
    forall k :: 0 <= k < |brokers| && brokers[k].usable && LeftAt(plan, brokers, left, k) > 0 ==> SweepRead(
      c, brokers[k].evidenceID, plan.parseAddr, brokers[k].host, brokers[k].port, plan.tls, plan.network(k),
      LeftAt(plan, brokers, left, k) - 1, cause)
  }

  /** Nothing was derived yet from an advertisement that is about to be measured. */
  ghost predicate Childless(parents: Relation, brokers: seq<DiscoveredBroker>) {
    forall k, x :: 0 <= k < |brokers| && brokers[k].usable ==> brokers[k].evidenceID !in Next(parents, x)
  }

  lemma MeasuredReads(
    c: Content, plan: Plan, brokers: seq<DiscoveredBroker>, left: nat, cause: FailureClass, n: nat)
    requires Unsaid(c) && EndpointsPresent(c.nodes, c.parents) && StopsAt(plan, brokers, left, n)
    requires Clean(c, plan, brokers, left, cause, n) && Healthy(plan.sha256, c.nodes, brokers)
    requires Childless(c.parents, brokers)
    ensures BrokersRead(MeasuredTo(c, plan, brokers, left, cause, n), plan, brokers, left, cause)
  {
    hide ScopeOf, MeasuredTo, LeftAt, Clean, Healthy, Placed, SweepOf, SweepRead, Unsaid, EndpointsPresent;
    if n < |brokers| {
      DoneForGood(plan, brokers, left, n);
    }
    forall k | 0 <= k < |brokers| && brokers[k].usable && LeftAt(plan, brokers, left, k) > 0
      ensures SweepRead(
        MeasuredTo(c, plan, brokers, left, cause, n), brokers[k].evidenceID, plan.parseAddr, brokers[k].host,
        brokers[k].port, plan.tls, plan.network(k), LeftAt(plan, brokers, left, k) - 1, cause)
    {
      var ad := brokers[k].evidenceID;
      SweepIsPlaced(c, plan, brokers, left, cause, n, k);
      PlacedReads(
        ScopeOf(plan.sha256, ad), ad, plan.parseAddr, ParamsOf(plan, brokers[k]), plan.network(k),
        Spend(LeftAt(plan, brokers, left, k), 1), cause, MeasuredTo(c, plan, brokers, left, cause, n));
    }
  }

  /** The exact outcome: on a healthy run the call is refused if and only if a broker it
  considers is usable and has a host no sweep can be run for. What it leaves behind is a
  function of the brokers, the network and the context. */
  method MeasureAdvertised(ctx: Context, builder: GraphBuilder, brokers: seq<DiscoveredBroker>, plan: Plan)
    returns (r: Result<Measurement>)
    requires builder.Valid() && SoundPlan(plan)
    modifies ctx, builder
    ensures builder.Valid()
    ensures r.Ok? ==> StopsAt(plan, brokers, old(ctx.left), r.value.considered)
    ensures r.Ok? ==> r.value.measured == UsableCount(brokers[..r.value.considered])
    ensures r.Ok? ==> r.value.measured == |set k | 0 <= k < r.value.considered && brokers[k].usable|
    ensures r.Ok? ==> Clean(old(builder.Contents()), plan, brokers, old(ctx.left), ctx.cause, r.value.considered)
    ensures r.Ok? ==>
      builder.Contents() ==
        MeasuredTo(old(builder.Contents()), plan, brokers, old(ctx.left), ctx.cause, r.value.considered)
    ensures r.Ok? ==> ctx.left == LeftAt(plan, brokers, old(ctx.left), r.value.considered)
    ensures Healthy(plan.sha256, old(builder.nodes), brokers) ==>
      (r.Ok? <==> forall k :: 0 <= k < |brokers| && LeftAt(plan, brokers, old(ctx.left), k) > 0 ==>
        CanMeasure(plan, brokers[k]))
    ensures r.Ok? && Healthy(plan.sha256, old(builder.nodes), brokers) && Childless(old(builder.parents), brokers) ==>
      BrokersRead(builder.Contents(), plan, brokers, old(ctx.left), ctx.cause)
  {
    hide Filed, LegalGraph, Healthy, FreshFor, ScopeOf, ValidSweep, Grown, SweepOf, Measurable, SoundParser,
      SoundNetwork, Addresses, LeftAt, MeasuredTo, Clean, CleanAt, UsableCount, SweepAt, EndpointsPresent,
      Childless, BrokersRead, Unsaid;
    ghost var c, left, cause := builder.Contents(), ctx.left, ctx.cause;
    var considered, measured := 0, 0;
    NothingConsidered(c, plan, brokers, left, cause);
    while considered < |brokers|
      invariant 0 <= considered <= |brokers| && builder.Valid()
      invariant ctx.left == LeftAt(plan, brokers, left, considered)
      invariant forall k :: 0 <= k < considered ==> LeftAt(plan, brokers, left, k) > 0 && CanMeasure(plan, brokers[k])
      invariant measured == UsableCount(brokers[..considered])
      invariant Clean(c, plan, brokers, left, cause, considered)
      invariant builder.Contents() == MeasuredTo(c, plan, brokers, left, cause, considered)
    {
      var done := ctx.Err();
      if done {
        DoneForGood(plan, brokers, left, considered);
        break;
      }
      var i := considered;
      var broker := brokers[i];
      considered := considered + 1;
      Considers(c, plan, brokers, left, cause, i);
      if !broker.usable {
        continue;
      }
      if broker.evidenceID == "" {
        HealthyIsNamed(plan.sha256, c.nodes, brokers, i);
        return Err(ErrInvalidInput);
      }
      var scope := AdvertisedScope(plan.sha256, broker.evidenceID);
      if scope.Err? {
        return Err(ErrInvalidInput);
      }
      ScopeIsBuilt(plan.sha256, broker.evidenceID);
      if CanMeasure(plan, broker) {
        SweepIsValid(plan.parseAddr, ParamsOf(plan, broker), plan.network(i), ctx.left, cause);
        if Healthy(plan.sha256, c.nodes, brokers) {
          HealthyIsClean(c, plan, brokers, left, cause, i);
        }
      }
      var swept := Run(ctx, builder, plan.parseAddr, ParamsOf(plan, broker), plan.network(i));
      if swept.Refused? {
        return Err(swept.error);
      }
      measured := measured + 1;
    }
    LegalSaysNothing(c);
    if Healthy(plan.sha256, c.nodes, brokers) && Childless(c.parents, brokers) {
      MeasuredReads(c, plan, brokers, left, cause, considered);
    }
    UsableCounted(brokers, considered);
    return Ok(Measurement(considered, measured));
  }
}
