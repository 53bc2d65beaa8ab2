/** What a complete run means: measurements svcdoctor's budget stopped could have gone any
way at all without changing what the run says, and where no address was missed, so could
everything else that was cut short. */
module CompletenessLaws {
  import opened Evidences
  import opened Graphs
  import opened Transports
  import opened Completeness

  /** A connection that was never tried, because svcdoctor's budget was gone before it. */
  ghost predicate Unattempted(g: Graph, id: EvidenceID) {
    && InState(g, id, Skipped) && g.nodes[id].step == STEP_CONNECT
    && LocalCause(g.nodes[id].failureClass)
  }

  /** A handshake that was skipped because its connection was stopped or never tried. */
  ghost predicate SkippedBehind(g: Graph, x: EvidenceID) {
    && InState(g, x, Skipped) && g.nodes[x].step == STEP_HANDSHAKE
    && (exists c :: x in Below(g, c, STEP_HANDSHAKE))
    && (forall c :: x in Below(g, c, STEP_HANDSHAKE) ==> Stopped(g, c) || Unattempted(g, c))
  }

  /** What svcdoctor's budget kept from being measured. */
  ghost predicate CutShort(g: Graph, id: EvidenceID) {
    (Stopped(g, id) && TransportStep(g.nodes[id].step)) || Unattempted(g, id) || SkippedBehind(g, id)
  }

  /** h is g with the transport measurements that were cut short replaced by any
  outcome whatever; the shape and every other node are the same. */
  ghost predicate Finishes(g: Graph, h: Graph) {
    && h.order == g.order && h.children == g.children && h.nodes.Keys == g.nodes.Keys
    && (forall id :: id in g.nodes ==> h.nodes[id].step == g.nodes[id].step)
    && (forall id :: id in g.nodes && !CutShort(g, id) ==> h.nodes[id] == g.nodes[id])
  }

  /** The verdict: some path beneath the advertisement carried the transport. */
  ghost predicate Reachable(g: Graph, ad: EvidenceID) {
    exists connections :: Sweep(g, ad, connections) && exists c :: c in connections && Reached(g, c)
  }

  lemma SameShape(g: Graph, h: Graph)
    requires Finishes(g, h)
    ensures forall id :: Roots(h, id) == Roots(g, id)
    ensures forall id, step :: Below(h, id, step) == Below(g, id, step)
    ensures forall ad, l :: IsLookup(h, ad, l) <==> IsLookup(g, ad, l)
    ensures forall ad :: LiteralSweep(h, ad) <==> LiteralSweep(g, ad)
    ensures forall connections :: WellFormed(h, connections) <==> WellFormed(g, connections)
  {
    hide CutShort;
    forall id, step ensures Below(h, id, step) == Below(g, id, step) {
    }
  }

  lemma Untouched(g: Graph, h: Graph, id: EvidenceID)
    requires Finishes(g, h) && !CutShort(g, id)
    ensures forall s :: InState(h, id, s) <==> InState(g, id, s)
    ensures Stopped(h, id) <==> Stopped(g, id)
  {
    hide CutShort;
  }

  lemma ReachedStays(g: Graph, h: Graph, c: EvidenceID)
    requires Finishes(g, h) && Reached(g, c)
    ensures Reached(h, c)
  {
    hide Below, Finishes;
    SameShape(g, h);
    Untouched(g, h, c);
    forall x | x in Below(h, c, STEP_HANDSHAKE) ensures InState(h, x, Pass) {
      Untouched(g, h, x);
    }
  }

  lemma FinishedPathStays(g: Graph, h: Graph, c: EvidenceID)
    requires Finishes(g, h) && RecordsStep(g, c, STEP_CONNECT) && !Unfinished(g, c) && !Unattempted(g, c)
    ensures Reached(h, c) <==> Reached(g, c)
    ensures !Unfinished(h, c)
  {
    hide Below, Finishes;
    SameShape(g, h);
    StepNames();
    Untouched(g, h, c);
    forall x | x in Below(g, c, STEP_HANDSHAKE)
      ensures (InState(h, x, Pass) <==> InState(g, x, Pass)) && !Stopped(h, x)
    {
      HandshakeStep(g, c, x);
      assert !Stopped(g, x) && !SkippedBehind(g, x);
      Untouched(g, h, x);
    }
  }

  ghost predicate RecordsConnections(g: Graph, connections: set<EvidenceID>) {
    forall c :: c in connections ==> RecordsStep(g, c, STEP_CONNECT)
  }

  lemma SweepRecordsConnections(g: Graph, ad: EvidenceID, connections: set<EvidenceID>)
    requires Sweep(g, ad, connections)
    ensures RecordsConnections(g, connections)
  {
  }

  /** One path was reached, or every one was at least tried. */
  ghost predicate Decided(g: Graph, connections: set<EvidenceID>) {
    (exists c :: c in connections && Reached(g, c)) || (forall c :: c in connections ==> !Unattempted(g, c))
  }

  lemma SettledStays(g: Graph, h: Graph, connections: set<EvidenceID>)
    requires Finishes(g, h) && Settled(g, connections) && RecordsConnections(g, connections) && Decided(g, connections)
    ensures Settled(h, connections)
    ensures (exists c :: c in connections && Reached(h, c)) <==> (exists c :: c in connections && Reached(g, c))
  {
    hide Reached, Unfinished, WellFormed, Finishes;
    SameShape(g, h);
    if c :| c in connections && Reached(g, c) {
      ReachedStays(g, h, c);
    } else {
      forall c | c in connections ensures !Unfinished(h, c) && !Reached(h, c) {
        FinishedPathStays(g, h, c);
      }
    }
  }

  lemma LookupIsNotCut(g: Graph, ad: EvidenceID, lookup: EvidenceID)
    requires IsLookup(g, ad, lookup) && !Stopped(g, lookup)
    ensures !CutShort(g, lookup)
  {
    assert lookup in Below(g, ad, STEP_LOOKUP);
    assert STEP_LOOKUP[0] == 'd' && STEP_HANDSHAKE[0] == 't';
  }

  lemma SweepStays(g: Graph, h: Graph, ad: EvidenceID, connections: set<EvidenceID>)
    requires Finishes(g, h) && Sweep(g, ad, connections)
    ensures Sweep(h, ad, connections)
  {
    hide Below, Roots, Finishes, IsLookup;
    SameShape(g, h);
    if lookup :| NamedSweep(g, ad, lookup) && connections == Below(g, lookup, STEP_CONNECT) {
      LookupIsNotCut(g, ad, lookup);
      Untouched(g, h, lookup);
      assert NamedSweep(h, ad, lookup);
    }
  }

  lemma LookupFailureStays(g: Graph, h: Graph, ad: EvidenceID)
    requires Finishes(g, h) && LookupFailed(g, ad)
    ensures LookupFailed(h, ad) && !Reachable(g, ad) && !Reachable(h, ad)
  {
    hide Below, Roots, Finishes, IsLookup;
    SameShape(g, h);
    var lookup :| IsLookup(g, ad, lookup) && InState(g, lookup, Fail);
    LookupIsNotCut(g, ad, lookup);
    Untouched(g, h, lookup);
    assert IsLookup(h, ad, lookup) && InState(h, lookup, Fail);
    forall connections ensures !Sweep(g, ad, connections) && !Sweep(h, ad, connections) {
      if Sweep(g, ad, connections) {
        OneSweep(g, ad, connections);
      }
      if Sweep(h, ad, connections) {
        OneSweep(h, ad, connections);
      }
    }
  }

  ghost predicate SweepsDecided(g: Graph, ad: EvidenceID) {
    forall connections :: Sweep(g, ad, connections) ==> Decided(g, connections)
  }

  /** A resolved advertisement none of whose addresses was missed keeps its verdict
  however the measurements that were cut short had ended. */
  lemma ResolvedVerdictStands(g: Graph, h: Graph, ad: EvidenceID)
    requires Finishes(g, h) && Resolved(g, ad) && SweepsDecided(g, ad)
    ensures Resolved(h, ad)
    ensures Reachable(h, ad) <==> Reachable(g, ad)
  {
    hide Sweep, Settled, LookupFailed, Finishes, Reached, Decided;
    if LookupFailed(g, ad) {
      LookupFailureStays(g, h, ad);
    } else {
      var connections :| Sweep(g, ad, connections) && Settled(g, connections);
      SweepStays(g, h, ad, connections);
      SweepRecordsConnections(g, ad, connections);
      SettledStays(g, h, connections);
      OneSweep(g, ad, connections);
      OneSweep(h, ad, connections);
    }
  }

  /** No way of finishing what was cut short changes the verdict. */
  ghost predicate VerdictStands(g: Graph, ad: EvidenceID) {
    forall h :: Finishes(g, h) ==> (Reachable(h, ad) <==> Reachable(g, ad))
  }

  /** A failed lookup settles the verdict for good. */
  lemma FailedVerdictStands(g: Graph, ad: EvidenceID)
    requires LookupFailed(g, ad)
    ensures Resolved(g, ad) && VerdictStands(g, ad)
  {
    hide LookupFailed, Finishes, Reachable;
    forall h | Finishes(g, h) ensures Reachable(h, ad) <==> Reachable(g, ad) {
      LookupFailureStays(g, h, ad);
    }
  }

  /** A handshake is run over one connection, only once that is established, and skipped
  when the connection got no answer. */
  ghost predicate FollowsOn(g: Graph, c: EvidenceID, x: EvidenceID) {
    && (Stopped(g, x) ==> InState(g, c, Pass))
    && (Stopped(g, c) || Unattempted(g, c) ==> InState(g, x, Skipped))
    && (forall d :: x in Below(g, d, STEP_HANDSHAKE) ==> d == c)
  }

  /** The shape the transport chain gives the handshakes of a sweep. */
  ghost predicate HandshakesFollow(g: Graph, connections: set<EvidenceID>) {
    forall c, x :: c in connections && x in Below(g, c, STEP_HANDSHAKE) ==> FollowsOn(g, c, x)
  }

  /** g with everything that was cut short succeeding. */
  ghost function Succeeding(g: Graph): Graph {
    g.(nodes := map id | id in g.nodes ::
      if CutShort(g, id) then g.nodes[id].(state := Pass, failureClass := FailureNone) else g.nodes[id])
  }

  lemma SucceedingFinishes(g: Graph)
    ensures Finishes(g, Succeeding(g))
    ensures forall id :: CutShort(g, id) ==> InState(Succeeding(g), id, Pass)
    ensures forall id :: InState(g, id, Pass) ==> InState(Succeeding(g), id, Pass)
  {
    hide SkippedBehind, TransportStep;
    forall id | CutShort(g, id) ensures id in g.nodes {
      CutShortIsNode(g, id);
    }
  }

  lemma CutShortIsNode(g: Graph, id: EvidenceID)
    requires CutShort(g, id)
    ensures id in g.nodes
  {
  }

  /** What was cut short of a sweep nothing was reached in leaves its verdict really
  open: as measured nothing was reached, and had the rest succeeded something would be. */
  lemma MissedVerdictIsOpen(g: Graph, ad: EvidenceID, connections: set<EvidenceID>)
    requires Sweep(g, ad, connections) && connections != {} && WellFormed(g, connections)
    requires HandshakesFollow(g, connections) && !(Resolved(g, ad) && Decided(g, connections))
    ensures Finishes(g, Succeeding(g)) && !Reachable(g, ad) && Reachable(Succeeding(g), ad)
  {
    hide Finishes, Below, Sweep, Succeeding, LookupFailed, HandshakesFollow;
    var h := Succeeding(g);
    SucceedingFinishes(g);
    OneSweep(g, ad, connections);
    SweepStays(g, h, ad, connections);
    SweepRecordsConnections(g, ad, connections);
    var c :| c in connections && (Unfinished(g, c) || Unattempted(g, c));
    CutShortSucceeds(g, connections, c);
  }

  lemma BehindCutShort(g: Graph, connections: set<EvidenceID>, c: EvidenceID, x: EvidenceID)
    requires c in connections && x in Below(g, c, STEP_HANDSHAKE) && HandshakesFollow(g, connections)
    requires Stopped(g, c) || Unattempted(g, c)
    ensures SkippedBehind(g, x)
  {
    hide Stopped, Unattempted, Below;
    HandshakeStep(g, c, x);
    assert FollowsOn(g, c, x);
    forall d | x in Below(g, d, STEP_HANDSHAKE) ensures d == c {
    }
  }

  lemma CutShortSucceeds(g: Graph, connections: set<EvidenceID>, c: EvidenceID)
    requires c in connections && (Unfinished(g, c) || Unattempted(g, c)) && RecordsStep(g, c, STEP_CONNECT)
    requires |Below(g, c, STEP_HANDSHAKE)| <= 1 && HandshakesFollow(g, connections)
    ensures Reached(Succeeding(g), c)
  {
    hide Finishes, Succeeding, Below, Unattempted;
    var h, handshakes := Succeeding(g), Below(g, c, STEP_HANDSHAKE);
    SucceedingFinishes(g);
    SameShape(g, h);
    if Stopped(g, c) || Unattempted(g, c) {
      assert CutShort(g, c);
      forall x | x in handshakes ensures InState(h, x, Pass) {
        BehindCutShort(g, connections, c, x);
      }
    } else {
      var x :| x in handshakes && Stopped(g, x);
      assert FollowsOn(g, c, x);
      OnlyMember(handshakes, x);
      HandshakeStep(g, c, x);
      assert CutShort(g, x);
    }
  }

  lemma HandshakeStep(g: Graph, c: EvidenceID, x: EvidenceID)
    requires x in Below(g, c, STEP_HANDSHAKE)
    ensures RecordsStep(g, x, STEP_HANDSHAKE)
  {
  }

  /** The exact meaning of the verdict: a sweep of a recognized shape is resolved, with
  no address missed or one reached, if and only if no way of finishing what was cut
  short would change its reachability. */
  lemma ResolvedIffVerdictStands(g: Graph, ad: EvidenceID, connections: set<EvidenceID>)
    requires Sweep(g, ad, connections) && connections != {} && WellFormed(g, connections)
    requires HandshakesFollow(g, connections)
    ensures VerdictStands(g, ad) <==> Resolved(g, ad) && Decided(g, connections)
  {
    hide Finishes, Sweep, Resolved, Reachable, WellFormed, HandshakesFollow, Succeeding, Decided;
    if Resolved(g, ad) && Decided(g, connections) {
      OneSweep(g, ad, connections);
      forall h | Finishes(g, h) ensures Reachable(h, ad) <==> Reachable(g, ad) {
        ResolvedVerdictStands(g, h, ad);
      }
    } else {
      MissedVerdictIsOpen(g, ad, connections);
    }
  }

  // ---- finishing what was stopped ----

  /** A transport step that was stopped, or a handshake skipped behind such connections
  only: what a run leaves UNKNOWN, without the addresses it never tried. */
  ghost predicate StoppedShort(g: Graph, id: EvidenceID) {
    || (Stopped(g, id) && TransportStep(g.nodes[id].step))
    || (SkippedBehind(g, id) && forall c :: id in Below(g, c, STEP_HANDSHAKE) ==> Stopped(g, c))
  }

  /** h is g with what was stopped replaced by any outcome whatever. */
  ghost predicate FinishesStopped(g: Graph, h: Graph) {
    && h.order == g.order && h.children == g.children && h.nodes.Keys == g.nodes.Keys
    && (forall id :: id in g.nodes ==> h.nodes[id].step == g.nodes[id].step)
    && (forall id :: id in g.nodes && !StoppedShort(g, id) ==> h.nodes[id] == g.nodes[id])
  }

  lemma StoppedIsCutShort(g: Graph, h: Graph)
    requires FinishesStopped(g, h)
    ensures Finishes(g, h)
  {
    hide SkippedBehind, TransportStep, Unattempted, Below;
  }

  lemma StillThere(g: Graph, h: Graph, id: EvidenceID)
    requires FinishesStopped(g, h) && !StoppedShort(g, id)
    ensures forall s :: InState(h, id, s) <==> InState(g, id, s)
    ensures Stopped(h, id) <==> Stopped(g, id)
  {
    hide StoppedShort;
  }

  /** A path no part of which was stopped is as it was, tried or not. */
  lemma UnstoppedPathStays(g: Graph, h: Graph, c: EvidenceID)
    requires FinishesStopped(g, h) && RecordsStep(g, c, STEP_CONNECT) && !Unfinished(g, c)
    ensures Reached(h, c) <==> Reached(g, c)
    ensures !Unfinished(h, c)
  {
    hide Below, Finishes, FinishesStopped;
    StoppedIsCutShort(g, h);
    SameShape(g, h);
    StepNames();
    StillThere(g, h, c);
    forall x | x in Below(g, c, STEP_HANDSHAKE)
      ensures (InState(h, x, Pass) <==> InState(g, x, Pass)) && !Stopped(h, x)
    {
      HandshakeStep(g, c, x);
      StillThere(g, h, x);
    }
  }

  lemma SettledStaysStopped(g: Graph, h: Graph, connections: set<EvidenceID>)
    requires FinishesStopped(g, h) && Settled(g, connections) && RecordsConnections(g, connections)
    ensures Settled(h, connections)
    ensures (exists c :: c in connections && Reached(h, c)) <==> (exists c :: c in connections && Reached(g, c))
  {
    hide Reached, Unfinished, WellFormed, Finishes, FinishesStopped;
    StoppedIsCutShort(g, h);
    SameShape(g, h);
    if c :| c in connections && Reached(g, c) {
      ReachedStays(g, h, c);
    } else {
      forall c | c in connections ensures !Unfinished(h, c) && !Reached(h, c) {
        UnstoppedPathStays(g, h, c);
      }
    }
  }

  /** However what was stopped had ended, a resolved advertisement stays resolved and its
  verdict is the same, whether or not an address was missed. */
  lemma ResolvedStays(g: Graph, h: Graph, ad: EvidenceID)
    requires FinishesStopped(g, h) && Resolved(g, ad)
    ensures Resolved(h, ad)
    ensures Reachable(h, ad) <==> Reachable(g, ad)
  {
    hide Sweep, Settled, LookupFailed, Finishes, FinishesStopped, Reached;
    StoppedIsCutShort(g, h);
    if LookupFailed(g, ad) {
      LookupFailureStays(g, h, ad);
    } else {
      var connections :| Sweep(g, ad, connections) && Settled(g, connections);
      SweepStays(g, h, ad, connections);
      SweepRecordsConnections(g, ad, connections);
      SettledStaysStopped(g, h, connections);
      OneSweep(g, ad, connections);
      OneSweep(h, ad, connections);
    }
  }

  /** Finishing what was stopped, in any way, never makes a complete run incomplete and
  never changes the verdict on anything it promised. */
  lemma CompletenessIsMonotone(g: Graph, h: Graph)
    requires FinishesStopped(g, h) && CompleteRun(false, g)
    ensures CompleteRun(false, h)
    ensures forall ad :: Promised(g, ad) ==> (Reachable(h, ad) <==> Reachable(g, ad))
  {
    hide Resolved, Reachable, Finishes, FinishesStopped, MetadataPassed, Promised, Stopped;
    StoppedIsCutShort(g, h);
    SameMetadata(g, h);
    SamePromises(g, h);
    if MetadataPassed(g) {
      forall ad | Promised(g, ad) ensures Resolved(h, ad) && (Reachable(h, ad) <==> Reachable(g, ad)) {
        ResolvedStays(g, h, ad);
      }
    } else {
      NothingStopped(g, h);
      forall id ensures !Stopped(h, id) {
        StillThere(g, h, id);
      }
      forall ad ensures Reachable(h, ad) <==> Reachable(g, ad) {
        SameVerdict(g, h, ad);
      }
    }
  }

  lemma NothingStopped(g: Graph, h: Graph)
    requires FinishesStopped(g, h) && forall c :: !Stopped(g, c)
    ensures h.nodes == g.nodes && forall id :: !StoppedShort(g, id)
  {
    hide Stopped, Below, Unattempted;
    forall id ensures !StoppedShort(g, id) {
      assert !Stopped(g, id);
    }
  }

  lemma SameVerdict(g: Graph, h: Graph, ad: EvidenceID)
    requires Finishes(g, h) && h.nodes == g.nodes
    ensures Reachable(h, ad) <==> Reachable(g, ad)
  {
    hide Below, Roots, Finishes, IsLookup;
    SameShape(g, h);
    forall connections ensures Sweep(h, ad, connections) <==> Sweep(g, ad, connections) {
      if lookup :| NamedSweep(h, ad, lookup) && connections == Below(h, lookup, STEP_CONNECT) {
        assert NamedSweep(g, ad, lookup);
      }
      if lookup :| NamedSweep(g, ad, lookup) && connections == Below(g, lookup, STEP_CONNECT) {
        assert NamedSweep(h, ad, lookup);
      }
    }
    forall c ensures Reached(h, c) <==> Reached(g, c) {
    }
  }

  // ---- finishing what was cut short, missed addresses included ----

  /** No address was missed where it could matter. */
  ghost predicate NoneMissed(g: Graph) {
    if MetadataPassed(g) then forall ad :: Promised(g, ad) ==> SweepsDecided(g, ad)
    else forall id :: !Unattempted(g, id)
  }

  /** Where no address was missed, that is so of everything that was cut short. */
  lemma AnyFinishingStaysComplete(g: Graph, h: Graph)
    requires Finishes(g, h) && CompleteRun(false, g) && NoneMissed(g)
    ensures CompleteRun(false, h)
    ensures MetadataPassed(g) ==>
      forall ad :: Promised(g, ad) ==> (Reachable(h, ad) <==> Reachable(g, ad))
  {
    hide Resolved, Reachable, SweepsDecided;
    DifferentSteps();
    SameMetadata(g, h);
    SamePromises(g, h);
    if MetadataPassed(g) {
      forall ad | Promised(g, ad) ensures Resolved(h, ad) && (Reachable(h, ad) <==> Reachable(g, ad)) {
        ResolvedVerdictStands(g, h, ad);
      }
    } else {
      forall id ensures !Stopped(h, id) {
        NothingCutShort(g, id);
        Untouched(g, h, id);
      }
    }
  }

  /** g with one connection it never tried tried and stopped. */
  ghost function Stopping(g: Graph, c: EvidenceID): Graph
    requires c in g.nodes
  {
    g.(nodes := g.nodes[c := g.nodes[c].(state := Unknown, failureClass := ExecLocalTimeout)])
  }

  lemma StoppingFinishes(g: Graph, c: EvidenceID)
    requires Unattempted(g, c)
    ensures Finishes(g, Stopping(g, c)) && Stopped(Stopping(g, c), c)
  {
    hide SkippedBehind, TransportStep;
  }

  /** An undecided sweep is left open by one more stopped connection. */
  lemma StoppingOpens(g: Graph, ad: EvidenceID, connections: set<EvidenceID>, c: EvidenceID)
    requires Sweep(g, ad, connections) && c in connections && Unattempted(g, c)
    requires forall d :: d in connections ==> !Reached(g, d)
    ensures !Resolved(Stopping(g, c), ad)
  {
    hide Sweep, Finishes, Below, Stopping, LookupFailed;
    var h := Stopping(g, c);
    StoppingFinishes(g, c);
    SweepStays(g, h, ad, connections);
    OneSweep(h, ad, connections);
    forall d | d in connections ensures !Reached(h, d) {
      StoppingReachesNothing(g, c, d);
    }
    assert Unfinished(h, c);
  }

  lemma StoppingReachesNothing(g: Graph, c: EvidenceID, d: EvidenceID)
    requires Unattempted(g, c) && !Reached(g, d)
    ensures !Reached(Stopping(g, c), d)
  {
    hide Below, Finishes;
    StoppingFinishes(g, c);
    SameShape(g, Stopping(g, c));
  }

  /** The other half: a complete run stays complete however everything that was cut short
  had ended if and only if no address was missed where it could matter. */
  lemma StaysCompleteExactly(g: Graph)
    requires CompleteRun(false, g)
    ensures NoneMissed(g) <==> forall h :: Finishes(g, h) ==> CompleteRun(false, h)
  {
    hide Finishes, Sweep, Resolved, MetadataPassed, Promised, Stopped, Unattempted, Reached, Stopping;
    if NoneMissed(g) {
      forall h | Finishes(g, h) ensures CompleteRun(false, h) {
        AnyFinishingStaysComplete(g, h);
      }
    } else if MetadataPassed(g) {
      var ad, connections :| Promised(g, ad) && Sweep(g, ad, connections) && !Decided(g, connections);
      var c := MissedOne(g, connections);
      UnattemptedIsNode(g, c);
      StoppingFinishes(g, c);
      StoppingOpens(g, ad, connections, c);
      SameMetadata(g, Stopping(g, c));
      SamePromises(g, Stopping(g, c));
      assert !CompleteRun(false, Stopping(g, c));
    } else {
      var c :| Unattempted(g, c);
      UnattemptedIsNode(g, c);
      StoppingFinishes(g, c);
      SameMetadata(g, Stopping(g, c));
      assert !CompleteRun(false, Stopping(g, c));
    }
  }

  lemma MissedOne(g: Graph, connections: set<EvidenceID>) returns (c: EvidenceID)
    requires !Decided(g, connections)
    ensures c in connections && Unattempted(g, c) && forall d :: d in connections ==> !Reached(g, d)
  {
    hide Unattempted, Reached;
    c :| c in connections && Unattempted(g, c);
  }

  lemma UnattemptedIsNode(g: Graph, c: EvidenceID)
    requires Unattempted(g, c)
    ensures c in g.nodes
  {
  }

  lemma SamePromises(g: Graph, h: Graph)
    requires Finishes(g, h)
    ensures forall ad :: Promised(h, ad) <==> Promised(g, ad)
  {
    hide Stopped;
    DifferentSteps();
  }

  lemma NothingCutShort(g: Graph, id: EvidenceID)
    requires (forall c :: !Stopped(g, c)) && (forall c :: !Unattempted(g, c))
    ensures !CutShort(g, id)
  {
    hide Stopped, Unattempted, Below;
  }

  lemma SameMetadata(g: Graph, h: Graph)
    requires Finishes(g, h)
    ensures MetadataPassed(h) <==> MetadataPassed(g)
  {
    DifferentSteps();
    forall i: nat ensures FirstMetadata(h, i) <==> FirstMetadata(g, i) {
    }
    forall i: nat | FirstMetadata(g, i) ensures InState(h, g.order[i], Pass) <==> InState(g, g.order[i], Pass) {
    }
  }

  // ---- shapes at the edge ----

  /** An advertisement nothing was measured under is unresolved. */
  lemma ChildlessIsUnresolved(g: Graph, ad: EvidenceID)
    requires g.Children(ad) == []
    ensures !Resolved(g, ad)
  {
    assert Roots(g, ad) == {};
    forall l ensures !IsLookup(g, ad, l) {
      assert l in {l};
    }
  }

  /** Several connections under a literal address are accepted as a sweep, and settled
  as one. */
  lemma SeveralLiteralConnectionsResolve(g: Graph, ad: EvidenceID)
    requires |Roots(g, ad)| > 1 && Roots(g, ad) == Below(g, ad, STEP_CONNECT)
    ensures Resolved(g, ad) <==> Settled(g, Roots(g, ad))
  {
    hide Below, Roots, Settled;
    var connections := Roots(g, ad);
    assert connections != {};
    assert Sweep(g, ad, connections);
    OneSweep(g, ad, connections);
  }
}
