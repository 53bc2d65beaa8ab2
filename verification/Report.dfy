/** The report: findings checked against the graph, in canonical order, with a derived summary. */
module Reports {
  import opened Text
  import opened Orders
  import opened Results
  import opened Evidences
  import opened Graphs
  import opened Findings
  import opened FindingOrders
  import opened Merging
  import opened Convergence
  import opened ConvergenceLaws

  datatype SummaryStatus = StatusOK | StatusProblemsFound

  datatype Summary = Summary(
    status: SummaryStatus,
    firstBrokenLayer: Layer,
    info: nat,
    warn: nat,
    error: nat,
    critical: nat,
    skippedEvidence: nat,
    unknownEvidence: nat)

  ghost function CountSeverity(fs: seq<Finding>, s: Severity): nat {
    multiset(seq(|fs|, i requires 0 <= i < |fs| => fs[i].severity))[s]
  }

  ghost function InState(g: Graph, state: State): set<EvidenceID> {
    set id | id in g.nodes && g.nodes[id].state == state
  }

  /** The lowest layer holding a FAIL, or unspecified when nothing failed. */
  ghost predicate IsFirstBroken(g: Graph, layer: Layer) {
    && (forall id :: id in InState(g, Fail) ==> layer != LayerUnspecified && layer.Rank() <= g.nodes[id].layer.Rank())
    && (layer != LayerUnspecified ==> exists id :: id in InState(g, Fail) && g.nodes[id].layer == layer)
  }

  ghost predicate IsSummary(g: Graph, fs: seq<Finding>, s: Summary) {
    && (s.status == StatusProblemsFound <==> HasProblem(fs))
    && s.info == CountSeverity(fs, Info) && s.warn == CountSeverity(fs, Warn)
    && s.error == CountSeverity(fs, Error) && s.critical == CountSeverity(fs, Critical)
    && IsFirstBroken(g, s.firstBrokenLayer)
    && s.skippedEvidence == |InState(g, Skipped)|
    && s.unknownEvidence == |InState(g, Unknown)|
  }

  lemma CountNext(fs: seq<Finding>, f: Finding, s: Severity)
    ensures CountSeverity(fs + [f], s) == CountSeverity(fs, s) + if f.severity == s then 1 else 0
  {
    var more := fs + [f];
    assert seq(|more|, i requires 0 <= i < |more| => more[i].severity)
        == seq(|fs|, i requires 0 <= i < |fs| => fs[i].severity) + [f.severity];
  }

  /** The counters and the status of a run of findings. */
  ghost predicate Counted(fs: seq<Finding>, s: Summary) {
    && (s.status == StatusProblemsFound <==> HasProblem(fs))
    && s.info == CountSeverity(fs, Info) && s.warn == CountSeverity(fs, Warn)
    && s.error == CountSeverity(fs, Error) && s.critical == CountSeverity(fs, Critical)
  }

  function CountFinding(s: Summary, f: Finding): Summary {
    match f.severity
    case Info => s.(info := s.info + 1)
    case Warn => s.(warn := s.warn + 1)
    case Error => s.(error := s.error + 1, status := StatusProblemsFound)
    case Critical => s.(critical := s.critical + 1, status := StatusProblemsFound)
    case SeverityUnspecified => s
  }

  lemma CountedNext(fs: seq<Finding>, s: Summary, f: Finding)
    requires Counted(fs, s)
    ensures Counted(fs + [f], CountFinding(s, f))
  {
    hide CountSeverity;
    CountNext(fs, f, Info);
    CountNext(fs, f, Warn);
    CountNext(fs, f, Error);
    CountNext(fs, f, Critical);
    assert f in fs + [f];
    assert HasProblem(fs + [f]) <==> HasProblem(fs) || f.severity == Error || f.severity == Critical by {
      if HasProblem(fs) {
        var x :| x in fs && (x.severity == Error || x.severity == Critical);
        assert x in fs + [f];
      }
    }
  }

  /** The evidence part of the summary, over the nodes seen so far. */
  ghost predicate Surveyed(g: Graph, seen: set<EvidenceID>, s: Summary) {
    && (forall id :: id in InState(g, Fail) * seen ==>
      s.firstBrokenLayer != LayerUnspecified && s.firstBrokenLayer.Rank() <= g.nodes[id].layer.Rank())
    && (s.firstBrokenLayer != LayerUnspecified ==>
      exists id :: id in InState(g, Fail) * seen && g.nodes[id].layer == s.firstBrokenLayer)
    && s.skippedEvidence == |InState(g, Skipped) * seen|
    && s.unknownEvidence == |InState(g, Unknown) * seen|
  }

  function SurveyNode(s: Summary, e: Evidence): Summary {
    match e.state
    case Fail =>
      if s.firstBrokenLayer == LayerUnspecified || e.layer.Rank() < s.firstBrokenLayer.Rank()
      then s.(firstBrokenLayer := e.layer) else s
    case Skipped => s.(skippedEvidence := s.skippedEvidence + 1)
    case Unknown => s.(unknownEvidence := s.unknownEvidence + 1)
    case _ => s
  }

  lemma SurveyedNext(g: Graph, seen: set<EvidenceID>, s: Summary, id: EvidenceID)
    requires Surveyed(g, seen, s) && id in g.nodes && id !in seen && g.nodes[id].layer != LayerUnspecified
    ensures Surveyed(g, seen + {id}, SurveyNode(s, g.nodes[id]))
  {
    hide InState, SurveyNode;
    InStateIsNode(g, Fail);
    StateNext(g, seen, id, Skipped);
    StateNext(g, seen, id, Unknown);
    StateNext(g, seen, id, Fail);
    BrokenNext(g, InState(g, Fail) * seen, s, id);
    CountsNext(s, g.nodes[id]);
  }

  lemma CountsNext(s: Summary, e: Evidence)
    ensures SurveyNode(s, e).skippedEvidence == s.skippedEvidence + if e.state == Skipped then 1 else 0
    ensures SurveyNode(s, e).unknownEvidence == s.unknownEvidence + if e.state == Unknown then 1 else 0
  {
  }

  lemma InStateIsNode(g: Graph, state: State)
    ensures InState(g, state) <= g.nodes.Keys
  {
  }

  /** Only a FAIL moves the first broken layer, and only to a lower one. */
  lemma BrokenNext(g: Graph, failed: set<EvidenceID>, s: Summary, id: EvidenceID)
    requires forall x :: x in failed ==>
      x in g.nodes && s.firstBrokenLayer != LayerUnspecified && s.firstBrokenLayer.Rank() <= g.nodes[x].layer.Rank()
    requires s.firstBrokenLayer != LayerUnspecified ==>
      exists x :: x in failed && g.nodes[x].layer == s.firstBrokenLayer
    requires id in g.nodes && g.nodes[id].layer != LayerUnspecified
    ensures var after, more := SurveyNode(s, g.nodes[id]), if g.nodes[id].state == Fail then failed + {id} else failed;
      && (forall x :: x in more ==>
        after.firstBrokenLayer != LayerUnspecified && after.firstBrokenLayer.Rank() <= g.nodes[x].layer.Rank())
      && (after.firstBrokenLayer != LayerUnspecified ==>
        exists x :: x in more && g.nodes[x].layer == after.firstBrokenLayer)
  {
    var after := SurveyNode(s, g.nodes[id]);
    if g.nodes[id].state == Fail && after.firstBrokenLayer == g.nodes[id].layer {
      assert id in failed + {id};
    } else if s.firstBrokenLayer != LayerUnspecified {
      var x :| x in failed && g.nodes[x].layer == s.firstBrokenLayer;
      assert x in failed + {id};
    }
  }

  lemma StateNext(g: Graph, seen: set<EvidenceID>, id: EvidenceID, state: State)
    requires id in g.nodes && id !in seen
    ensures InState(g, state) * (seen + {id}) ==
      if g.nodes[id].state == state then InState(g, state) * seen + {id} else InState(g, state) * seen
    ensures |InState(g, state) * (seen + {id})| ==
      |InState(g, state) * seen| + if g.nodes[id].state == state then 1 else 0
  {
    var before, after := InState(g, state) * seen, InState(g, state) * (seen + {id});
    if g.nodes[id].state == state {
      assert after == before + {id} && id !in before;
    } else {
      assert after == before;
    }
  }

  method CountFindings(fs: seq<Finding>) returns (s: Summary)
    ensures Counted(fs, s) && NothingSurveyed(s)
  {
    hide *;
    s := Summary(StatusOK, LayerUnspecified, 0, 0, 0, 0, 0, 0);
    CountingStarts(s);
    var i := 0;
    while i < |fs|
      invariant 0 <= i <= |fs|
      invariant Counted(fs[..i], s) && NothingSurveyed(s)
    {
      CountedNext(fs[..i], s, fs[i]);
      CountingSurveysNothing(s, fs[i]);
      assert fs[..i + 1] == fs[..i] + [fs[i]];
      s := CountFinding(s, fs[i]);
      i := i + 1;
    }
    assert fs[..i] == fs;
  }

  predicate NothingSurveyed(s: Summary) {
    s.firstBrokenLayer == LayerUnspecified && s.skippedEvidence == 0 && s.unknownEvidence == 0
  }

  ghost function Elements(ids: seq<EvidenceID>): set<EvidenceID> {
    set id | id in ids
  }

  lemma ElementsNext(ids: seq<EvidenceID>, i: nat)
    requires Distinct(ids) && i < |ids|
    ensures Elements(ids[..i + 1]) == Elements(ids[..i]) + {ids[i]} && ids[i] !in Elements(ids[..i])
  {
    assert ids[..i + 1] == ids[..i] + [ids[i]];
  }

  /** The summary after the first i nodes in graph order. */
  ghost predicate SurveyedTo(g: Graph, fs: seq<Finding>, i: nat, s: Summary) {
    i <= |g.order| && Counted(fs, s) && Surveyed(g, Elements(g.order[..i]), s)
  }

  method SurveyGraph(g: Graph, ghost fs: seq<Finding>, counted: Summary) returns (s: Summary)
    requires Frozen(g) && Counted(fs, counted) && NothingSurveyed(counted)
    ensures IsSummary(g, fs, s)
  {
    hide *;
    OrderedInGraph(g);
    s := counted;
    SurveyStarts(g, fs, s);
    var i := 0;
    while i < |g.order|
      invariant 0 <= i <= |g.order|
      invariant SurveyedTo(g, fs, i, s)
    {
      SurveyStep(g, fs, i, s);
      s := SurveyNode(s, g.nodes[g.order[i]]);
      i := i + 1;
    }
    SurveyComplete(g, fs, s);
  }

  lemma OrderedInGraph(g: Graph)
    requires Frozen(g)
    ensures forall i :: 0 <= i < |g.order| ==> g.order[i] in g.nodes
  {
    hide Frozen;
    FrozenOrder(g);
  }

  lemma SurveyStep(g: Graph, fs: seq<Finding>, i: nat, s: Summary)
    requires Frozen(g) && i < |g.order| && SurveyedTo(g, fs, i, s) && g.order[i] in g.nodes
    ensures SurveyedTo(g, fs, i + 1, SurveyNode(s, g.nodes[g.order[i]]))
  {
    hide Frozen, Counted, Surveyed, Ascending, Distinct, Elements, SurveyNode;
    FrozenOrder(g);
    ElementsNext(g.order, i);
    LayerIsSet(g, g.order[i]);
    SurveyedNext(g, Elements(g.order[..i]), s, g.order[i]);
    KeepsCount(fs, s, g.nodes[g.order[i]]);
  }

  lemma CountingStarts(s: Summary)
    requires s == Summary(StatusOK, LayerUnspecified, 0, 0, 0, 0, 0, 0)
    ensures Counted([], s) && NothingSurveyed(s)
  {
  }

  lemma CountingSurveysNothing(s: Summary, f: Finding)
    requires NothingSurveyed(s)
    ensures NothingSurveyed(CountFinding(s, f))
  {
  }

  lemma SurveyStarts(g: Graph, fs: seq<Finding>, s: Summary)
    requires Counted(fs, s) && NothingSurveyed(s)
    ensures SurveyedTo(g, fs, 0, s)
  {
    hide Counted;
    assert Elements(g.order[..0]) == {};
  }

  lemma KeepsCount(fs: seq<Finding>, s: Summary, e: Evidence)
    requires Counted(fs, s)
    ensures Counted(fs, SurveyNode(s, e))
  {
    hide CountSeverity, HasProblem;
  }

  lemma LayerIsSet(g: Graph, id: EvidenceID)
    requires Frozen(g) && id in g.nodes
    ensures g.nodes[id].layer != LayerUnspecified
  {
    hide LegalGraph, GraphOf;
  }

  lemma SurveyComplete(g: Graph, fs: seq<Finding>, s: Summary)
    requires Frozen(g) && SurveyedTo(g, fs, |g.order|, s)
    ensures IsSummary(g, fs, s)
  {
    hide Frozen, Distinct, Ascending, Counted, Surveyed;
    FrozenOrder(g);
    assert g.order[..|g.order|] == g.order;
    SurveyedAll(g, Elements(g.order), fs, s);
  }

  lemma SurveyedAll(g: Graph, seen: set<EvidenceID>, fs: seq<Finding>, s: Summary)
    requires Counted(fs, s) && Surveyed(g, seen, s) && forall id :: id in g.nodes ==> id in seen
    ensures IsSummary(g, fs, s)
  {
    hide CountSeverity, HasProblem;
    assert InState(g, Fail) * seen == InState(g, Fail);
    assert InState(g, Skipped) * seen == InState(g, Skipped);
    assert InState(g, Unknown) * seen == InState(g, Unknown);
  }

  // ---- what the summary says ----

  ghost function PlacesOf(fs: seq<Finding>, s: Severity): set<int> {
    set k | 0 <= k < |fs| && fs[k].severity == s
  }

  lemma PlacesNext(fs: seq<Finding>, f: Finding, s: Severity)
    ensures |PlacesOf(fs + [f], s)| == |PlacesOf(fs, s)| + if f.severity == s then 1 else 0
  {
    var before, after := PlacesOf(fs, s), PlacesOf(fs + [f], s);
    if f.severity == s {
      assert after == before + {|fs|} && |fs| !in before;
    } else {
      assert after == before;
    }
  }

  lemma {:induction false} CountIsPlaces(fs: seq<Finding>, s: Severity)
    ensures CountSeverity(fs, s) == |PlacesOf(fs, s)|
  {
    if fs == [] {
      assert PlacesOf(fs, s) == {};
    } else {
      hide CountSeverity, PlacesOf;
      var front, last := fs[..|fs| - 1], fs[|fs| - 1];
      assert fs == front + [last];
      CountIsPlaces(front, s);
      CountNext(front, last, s);
      PlacesNext(front, last, s);
    }
  }

  /** The summary in terms of the findings' severities and the nodes' states and layers. */
  ghost predicate SummarySays(g: Graph, fs: seq<Finding>, s: Summary) {
    && (s.status == StatusProblemsFound <==> exists f :: f in fs && (f.severity == Error || f.severity == Critical))
    && s.info == |PlacesOf(fs, Info)| && s.warn == |PlacesOf(fs, Warn)|
    && s.error == |PlacesOf(fs, Error)| && s.critical == |PlacesOf(fs, Critical)|
    && s.skippedEvidence == |set id | id in g.nodes && g.nodes[id].state == Skipped|
    && s.unknownEvidence == |set id | id in g.nodes && g.nodes[id].state == Unknown|
    && (s.firstBrokenLayer == LayerUnspecified <==> forall id :: id in g.nodes ==> g.nodes[id].state != Fail)
    && (s.firstBrokenLayer != LayerUnspecified ==>
      && (exists id :: id in g.nodes && g.nodes[id].state == Fail && g.nodes[id].layer == s.firstBrokenLayer)
      && (forall id :: id in g.nodes && g.nodes[id].state == Fail ==>
        NoDeeper(s.firstBrokenLayer, g.nodes[id].layer)))
  }

  lemma SummaryReads(g: Graph, fs: seq<Finding>, s: Summary)
    requires IsSummary(g, fs, s)
    ensures SummarySays(g, fs, s)
  {
    hide CountSeverity, PlacesOf, NoDeeper, Layer.Rank;
    CountIsPlaces(fs, Info);
    CountIsPlaces(fs, Warn);
    CountIsPlaces(fs, Error);
    CountIsPlaces(fs, Critical);
    forall id | id in InState(g, Fail)
      ensures s.firstBrokenLayer.Rank() <= g.nodes[id].layer.Rank() <==>
        NoDeeper(s.firstBrokenLayer, g.nodes[id].layer)
    {
      LayersCompare(s.firstBrokenLayer, g.nodes[id].layer);
    }
    forall id | id in g.nodes && g.nodes[id].state == Fail ensures id in InState(g, Fail) {
    }
  }

  method DeriveSummary(g: Graph, fs: seq<Finding>) returns (s: Summary)
    requires Frozen(g)
    ensures IsSummary(g, fs, s) && SummarySays(g, fs, s)
  {
    hide *;
    s := CountFindings(fs);
    s := SurveyGraph(g, fs, s);
    SummaryReads(g, fs, s);
  }

  // ---- the report ----

  /** metadata stands for the run, target, vantage and security sections together. */
  datatype Report = Report(graph: Graph, findings: seq<Finding>, summary: Summary)

  ghost predicate CitesOnly(g: Graph, fs: seq<Finding>) {
    forall ref :: CitedBy(fs, ref) ==> ref in g.nodes
  }

  /** validateEvidenceRefs: one dangling reference refuses the whole report. */
  method ValidateEvidenceRefs(g: Graph, fs: seq<Finding>) returns (ok: bool)
    ensures ok <==> CitesOnly(g, fs)
    ensures ok <==> forall f, ref :: f in fs && ref in f.evidenceRefs ==> ref in g.nodes
  {
    var i := 0;
    while i < |fs|
      invariant 0 <= i <= |fs|
      invariant forall k, ref :: 0 <= k < i && ref in fs[k].evidenceRefs ==> ref in g.nodes
    {
      var refs := fs[i].evidenceRefs;
      var j := 0;
      while j < |refs|
        invariant 0 <= j <= |refs|
        invariant forall ref :: ref in refs[..j] ==> ref in g.nodes
      {
        assert refs[..j + 1] == refs[..j] + [refs[j]];
        if refs[j] !in g.nodes {
          assert fs[i] in fs && CitedBy(fs, refs[j]);
          return false;
        }
        j := j + 1;
      }
      assert refs[..j] == refs;
      i := i + 1;
    }
    return true;
  }

  method NewReport(metadataSet: bool, g: Graph, input: seq<Finding>) returns (r: Result<Report>)
    requires Frozen(g)
    ensures r.Ok? <==> metadataSet && (forall f :: f in input ==> !f.IsZero()) && CitesOnly(g, input)
    ensures r.Ok? <==>
      && metadataSet && (forall f :: f in input ==> f.code != "" || f.summary != "")
      && forall f, ref :: f in input && ref in f.evidenceRefs ==> ref in g.nodes
    ensures r.Ok? ==> r.value.graph == g && r.value.findings == StableSort(input, CompareReport)
    ensures r.Ok? ==> IsSummary(g, r.value.findings, r.value.summary)
    ensures r.Ok? ==> SummarySays(g, r.value.findings, r.value.summary)
    ensures r.Ok? ==> multiset(r.value.findings) == multiset(input) && SeverestFirst(r.value.findings)
    ensures r.Ok? && (forall f :: f in input ==> f.Built()) ==>
      forall i, j :: 0 <= i < j < |r.value.findings| ==>
        || ReadsFirst(r.value.findings[i], r.value.findings[j])
        || ReadsAlike(r.value.findings[i], r.value.findings[j])
  {
    hide Frozen, CitesOnly, IsSummary, SummarySays, CompareReport, Finding.Built, ReadsFirst, ReadsAlike,
      SeverestFirst;
    if !metadataSet {
      return Err(ErrInvalidValue);
    }
    var i := 0;
    while i < |input|
      invariant 0 <= i <= |input|
      invariant forall k :: 0 <= k < i ==> !input[k].IsZero()
    {
      if input[i].IsZero() {
        assert input[i] in input;
        return Err(ErrInvalidValue);
      }
      i := i + 1;
    }
    var cites := ValidateEvidenceRefs(g, input);
    if !cites {
      return Err(ErrInvalidReport);
    }
    var findings := new Finding[|input|](k requires 0 <= k < |input| => input[k]);
    assert findings[..] == input;
    SortFindings(findings);
    var summary := DeriveSummary(g, findings[..]);
    return Ok(Report(g, findings[..], summary));
  }

  /** When every rule cited only graph nodes, the report accepts the converged
  findings, keeps them in the order convergence produced, and its status answers
  for the raw findings. */
  lemma ReportKeepsConvergence(g: Graph, s: seq<Finding>, out: seq<Finding>)
    requires AllBuilt(s) && IsConverged(s, out) && CitesOnly(g, s)
    ensures CitesOnly(g, out) && forall f :: f in out ==> !f.IsZero()
    ensures StableSort(out, CompareReport) == out
    ensures forall summary :: IsSummary(g, out, summary) ==> (summary.status == StatusProblemsFound <==> HasProblem(s))
  {
    hide AllBuilt, IsConverged, CitedBy, HasProblem, CountSeverity, IsFirstBroken, InState;
    ConvergenceConserves(s, out);
    ConvergedIsReportSorted(s, out);
    NoZeroOutputs(s, out);
  }

  lemma NoZeroOutputs(s: seq<Finding>, out: seq<Finding>)
    requires AllBuilt(s) && IsConverged(s, out)
    ensures forall f :: f in out ==> !f.IsZero()
  {
    hide IsConverged, Ascending, ValidProse, ValidIdentifier;
    ConvergedIsFixed(s, out);
  }
}
