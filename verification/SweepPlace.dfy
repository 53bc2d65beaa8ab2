/** Every advertisement's sweep stands alone: nobody else's steps hang under it. */
module SweepPlaces {
  import opened Relations
  import opened Evidences
  import opened Graphs
  import opened Identifiers
  import opened Recording
  import opened Transports
  import opened SweepGraphs
  import opened Reachability
  import opened SweepShapes

  // ---- each sweep stands alone ----

  /** id is a step of broker i's sweep. */
  ghost predicate StepOf(
    plan: Plan, brokers: seq<DiscoveredBroker>, left: nat, cause: FailureClass, i: nat, id: EvidenceID)
  {
    && i < |brokers| && brokers[i].usable
    && exists j: nat ::
      IsStep(ScopeOf(plan.sha256, brokers[i].evidenceID), SweepAt(plan, brokers, left, cause, i), j, id)
  }

  lemma {:induction false} NewNodesAreSteps(
    c: Content, plan: Plan, brokers: seq<DiscoveredBroker>, left: nat, cause: FailureClass, n: nat, id: EvidenceID)
    requires n <= |brokers| && id in MeasuredTo(c, plan, brokers, left, cause, n).nodes && id !in c.nodes
    ensures exists i: nat :: i < n && StepOf(plan, brokers, left, cause, i, id)
  {
    hide MeasuredId, ScopeOf, SweepAt, MeasuredTo, LeftAt, Clean, CleanAt, Grown, SweepOf, Addresses;
    if n == 0 {
      NothingConsidered(c, plan, brokers, left, cause);
    } else {
      var i := n - 1;
      Considers(c, plan, brokers, left, cause, i);
      var before := MeasuredTo(c, plan, brokers, left, cause, i);
      if id in before.nodes {
        NewNodesAreSteps(c, plan, brokers, left, cause, i, id);
      } else {
        var sweep := SweepAt(plan, brokers, left, cause, i);
        var scope := ScopeOf(plan.sha256, brokers[i].evidenceID);
        GrownNodes(before, scope, brokers[i].evidenceID, sweep);
        var m :| m in sweep && MeasuredId(scope, m) == id;
        var j: nat :| j < |sweep| && sweep[j] == m;
        assert IsStep(scope, sweep, j, id);
        assert StepOf(plan, brokers, left, cause, i, id);
      }
    }
  }

  lemma StepIsUsable(
    plan: Plan, brokers: seq<DiscoveredBroker>, left: nat, cause: FailureClass, i: nat, id: EvidenceID)
    requires StepOf(plan, brokers, left, cause, i, id)
    ensures i < |brokers| && brokers[i].usable
  {
    hide ScopeOf, SweepAt, MeasuredId;
  }

  lemma StepsStayApart(
    plan: Plan, brokers: seq<DiscoveredBroker>, left: nat, cause: FailureClass, i: nat, k: nat, id: EvidenceID)
    requires DistinctDigests(plan.sha256, brokers) && StepOf(plan, brokers, left, cause, i, id)
    requires StepOf(plan, brokers, left, cause, k, id)
    ensures i == k
  {
    hide ScopeOf, SweepAt, Encoded;
    if i != k {
      var a, b := brokers[i].evidenceID, brokers[k].evidenceID;
      var j: nat :| IsStep(ScopeOf(plan.sha256, a), SweepAt(plan, brokers, left, cause, i), j, id);
      var l: nat :| IsStep(ScopeOf(plan.sha256, b), SweepAt(plan, brokers, left, cause, k), l, id);
      var m, n := SweepAt(plan, brokers, left, cause, i)[j], SweepAt(plan, brokers, left, cause, k)[l];
      SweepsStayApart(plan.sha256, a, m.step, m.components, b, n.step, n.components);
    }
  }

  lemma StepsAreNew(
    c: Content, plan: Plan, brokers: seq<DiscoveredBroker>, left: nat, cause: FailureClass, n: nat, i: nat,
    id: EvidenceID)
    requires n <= |brokers| && Clean(c, plan, brokers, left, cause, n) && i < n
    requires StepOf(plan, brokers, left, cause, i, id)
    ensures id !in c.nodes
  {
    hide MeasuredId, ScopeOf, SweepAt, MeasuredTo, LeftAt, ValidSweep;
    ScopedTo(c, plan, brokers, left, cause, i);
    assert CleanAt(c, plan, brokers, left, cause, i);
    var scope, sweep := ScopeOf(plan.sha256, brokers[i].evidenceID), SweepAt(plan, brokers, left, cause, i);
    var j: nat :| IsStep(scope, sweep, j, id);
    assert sweep[j] in sweep;
  }

  /** A step of one sweep hangs under a step of that sweep or under its own root. */
  lemma HangsWithin(
    plan: Plan, brokers: seq<DiscoveredBroker>, left: nat, cause: FailureClass, after: Content, i: nat, j: nat,
    child: EvidenceID, p: EvidenceID)
    requires i < |brokers| && brokers[i].usable
    requires SweepRecorded(plan.sha256, brokers[i], SweepAt(plan, brokers, left, cause, i), after)
    requires IsStep(ScopeOf(plan.sha256, brokers[i].evidenceID), SweepAt(plan, brokers, left, cause, i), j, child)
    requires p in Next(after.parents, child)
    ensures p == brokers[i].evidenceID || StepOf(plan, brokers, left, cause, i, p)
  {
    hide ScopeOf, SweepAt, MeasuredId, MeasuredNode;
    var scope, sweep := ScopeOf(plan.sha256, brokers[i].evidenceID), SweepAt(plan, brokers, left, cause, i);
    assert RecordedStep(scope, brokers[i].evidenceID, sweep, j, after);
    if 0 < sweep[j].under <= j {
      assert IsStep(scope, sweep, sweep[j].under - 1, p);
    }
  }

  /** Nobody else's steps hang under broker k's advertisement or under its steps. */
  lemma OnlyOwnSteps(
    c: Content, plan: Plan, brokers: seq<DiscoveredBroker>, left: nat, cause: FailureClass, n: nat, k: nat,
    child: EvidenceID, p: EvidenceID)
    requires n <= |brokers| && k < n && brokers[k].usable && Unsaid(c) && EndpointsPresent(c.nodes, c.parents)
    requires Clean(c, plan, brokers, left, cause, n) && Healthy(plan.sha256, c.nodes, brokers)
    requires forall x :: brokers[k].evidenceID !in Next(c.parents, x)
    requires p in Next(MeasuredTo(c, plan, brokers, left, cause, n).parents, child)
    requires p == brokers[k].evidenceID || StepOf(plan, brokers, left, cause, k, p)
    ensures StepOf(plan, brokers, left, cause, k, child)
  {
    hide ScopeOf, SweepAt, MeasuredId, MeasuredTo, LeftAt, Clean, StepOf, Grew, SweepRecorded, Unswept, IsStep;
    var after := MeasuredTo(c, plan, brokers, left, cause, n);
    SweepsLeave(c, plan, brokers, left, cause, n);
    KeptByGrowth(c, after, MeasuredRoots(brokers, n));
    if StepOf(plan, brokers, left, cause, k, p) {
      StepsAreNew(c, plan, brokers, left, cause, n, k, p);
    }
    if child in c.nodes {
      InEndpoints(c, child, p);
    } else {
      NewNodesAreSteps(c, plan, brokers, left, cause, n, child);
      var i: nat :| i < n && StepOf(plan, brokers, left, cause, i, child);
      StepIsUsable(plan, brokers, left, cause, i, child);
      StepOfSweep(plan, brokers, left, cause, after, i, child, p);
      if p == brokers[i].evidenceID {
        SameDigest(plan.sha256, brokers, i, k);
      } else {
        StepsAreNew(c, plan, brokers, left, cause, n, i, p);
        StepsStayApart(plan, brokers, left, cause, i, k, p);
      }
    }
  }

  lemma InEndpoints(c: Content, child: EvidenceID, p: EvidenceID)
    requires EndpointsPresent(c.nodes, c.parents) && p in Next(c.parents, child)
    ensures p in c.nodes
  {
  }

  lemma StepOfSweep(
    plan: Plan, brokers: seq<DiscoveredBroker>, left: nat, cause: FailureClass, after: Content, i: nat,
    child: EvidenceID, p: EvidenceID)
    requires StepOf(plan, brokers, left, cause, i, child) && p in Next(after.parents, child)
    requires SweepRecorded(plan.sha256, brokers[i], SweepAt(plan, brokers, left, cause, i), after)
    ensures p == brokers[i].evidenceID || StepOf(plan, brokers, left, cause, i, p)
  {
    hide ScopeOf, SweepAt, SweepRecorded, IsStep;
    var j: nat :| IsStep(
      ScopeOf(plan.sha256, brokers[i].evidenceID), SweepAt(plan, brokers, left, cause, i), j, child);
    HangsWithin(plan, brokers, left, cause, after, i, j, child, p);
  }

  lemma SameDigest(sha256: string -> seq<Byte>, brokers: seq<DiscoveredBroker>, i: nat, k: nat)
    requires DistinctDigests(sha256, brokers) && i < |brokers| && k < |brokers|
    requires brokers[i].usable && brokers[k].usable
    ensures brokers[i].evidenceID == brokers[k].evidenceID ==> i == k
  {
  }

  lemma SweepIsPlaced(
    c: Content, plan: Plan, brokers: seq<DiscoveredBroker>, left: nat, cause: FailureClass, n: nat, k: nat)
    requires n <= |brokers| && k < n && brokers[k].usable && Unsaid(c) && EndpointsPresent(c.nodes, c.parents)
    requires Clean(c, plan, brokers, left, cause, n) && Healthy(plan.sha256, c.nodes, brokers)
    requires forall x :: brokers[k].evidenceID !in Next(c.parents, x)
    ensures Placed(
      ScopeOf(plan.sha256, brokers[k].evidenceID), brokers[k].evidenceID, SweepAt(plan, brokers, left, cause, k),
      MeasuredTo(c, plan, brokers, left, cause, n))
  {
    hide ScopeOf, SweepAt, MeasuredId, MeasuredTo, LeftAt, Grew, Unswept, IsStep, ValidSweep, EndpointsPresent,
      Unsaid, RecordedStep, FreshFor;
    var after, root := MeasuredTo(c, plan, brokers, left, cause, n), brokers[k].evidenceID;
    var scope, sweep := ScopeOf(plan.sha256, root), SweepAt(plan, brokers, left, cause, k);
    assert CleanAt(c, plan, brokers, left, cause, k);
    SweepsLeave(c, plan, brokers, left, cause, n);
    forall j | 0 <= j < |sweep| ensures MeasuredId(scope, sweep[j]) != root {
      StepHere(plan, brokers, left, cause, k, j);
      StepsAreNew(c, plan, brokers, left, cause, n, k, MeasuredId(scope, sweep[j]));
    }
    forall child, p | p in Next(after.parents, child) && (p == root || exists a: nat :: IsStep(scope, sweep, a, p))
      ensures exists j: nat :: IsStep(scope, sweep, j, child)
    {
      OnlyOwnSteps(c, plan, brokers, left, cause, n, k, child, p);
    }
  }

  lemma StepHere(plan: Plan, brokers: seq<DiscoveredBroker>, left: nat, cause: FailureClass, k: nat, j: nat)
    requires k < |brokers| && brokers[k].usable && j < |SweepAt(plan, brokers, left, cause, k)|
    ensures StepOf(
      plan, brokers, left, cause, k,
      MeasuredId(ScopeOf(plan.sha256, brokers[k].evidenceID), SweepAt(plan, brokers, left, cause, k)[j]))
  {
    hide ScopeOf, SweepAt, MeasuredId;
    assert IsStep(
      ScopeOf(plan.sha256, brokers[k].evidenceID), SweepAt(plan, brokers, left, cause, k), j,
      MeasuredId(ScopeOf(plan.sha256, brokers[k].evidenceID), SweepAt(plan, brokers, left, cause, k)[j]));
  }
}
