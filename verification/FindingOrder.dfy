/** The canonical order of findings, and the stable in-place sort that imposes it. */
module FindingOrders {
  import opened Text
  import opened Orders
  import opened Evidences
  import opened Findings

  /** joinIDs: the references joined by NUL. */
  function JoinIDs(f: Finding): string {
    NulJoined(f.evidenceRefs)
  }

  /** Severity descending, then layer, code, subject reference, summary and references. */
  function CompareReport(a: Finding, b: Finding): int {
    var severity := CompareInt(b.severity.Rank(), a.severity.Rank());
    if severity != 0 then severity
    else
      var layer := CompareInt(a.layer.Rank(), b.layer.Rank());
      if layer != 0 then layer
      else
        var code := Compare(a.code, b.code);
        if code != 0 then code
        else
          var subject := Compare(a.subject.ref, b.subject.ref);
          if subject != 0 then subject
          else
            var summary := Compare(a.summary, b.summary);
            if summary != 0 then summary else Compare(JoinIDs(a), JoinIDs(b))
  }

  lemma ReportOrder()
    ensures TotalPreorder(CompareReport)
  {
    forall a, b ensures CompareReport(a, b) < 0 <==> CompareReport(b, a) > 0 {
      ReportFlip(a, b);
    }
    forall a, b, c | CompareReport(a, b) <= 0 && CompareReport(b, c) <= 0 ensures CompareReport(a, c) <= 0 {
      ReportTransitive(a, b, c);
    }
  }

  lemma ReportFlip(a: Finding, b: Finding)
    ensures CompareReport(a, b) == -CompareReport(b, a)
  {
    hide Compare, JoinIDs;
    CompareFlip(a.code, b.code);
    CompareFlip(a.subject.ref, b.subject.ref);
    CompareFlip(a.summary, b.summary);
    CompareFlip(JoinIDs(a), JoinIDs(b));
  }

  lemma ReportTransitive(a: Finding, b: Finding, c: Finding)
    requires CompareReport(a, b) <= 0 && CompareReport(b, c) <= 0
    ensures CompareReport(a, c) <= 0
  {
    hide Compare, JoinIDs;
    CompareChain(a.code, b.code, c.code);
    CompareChain(a.subject.ref, b.subject.ref, c.subject.ref);
    CompareChain(a.summary, b.summary, c.summary);
    CompareChain(JoinIDs(a), JoinIDs(b), JoinIDs(c));
  }

  // ---- what the order says ----

  /** The more severe finding comes first. Equally severe ones come by layer, the shallowest
  first, then in the order of their codes, subject references, summaries and references. */
  ghost predicate ReadsFirst(a: Finding, b: Finding) {
    || (a.severity != b.severity && NoLessSevere(a.severity, b.severity))
    || (a.severity == b.severity && a.layer != b.layer && NoDeeper(a.layer, b.layer))
    || (a.severity == b.severity && a.layer == b.layer && TextReadsFirst(a, b))
  }

  ghost predicate TextReadsFirst(a: Finding, b: Finding) {
    || TextBefore(a.code, b.code)
    || (a.code == b.code && TextBefore(a.subject.ref, b.subject.ref))
    || (a.code == b.code && a.subject.ref == b.subject.ref && TextBefore(a.summary, b.summary))
    || (a.code == b.code && a.subject.ref == b.subject.ref && a.summary == b.summary
        && ListBefore(a.evidenceRefs, b.evidenceRefs))
  }

  /** Equal in everything a report is ordered by. */
  ghost predicate ReadsAlike(a: Finding, b: Finding) {
    && a.severity == b.severity && a.layer == b.layer && a.code == b.code
    && a.subject.ref == b.subject.ref && a.summary == b.summary && a.evidenceRefs == b.evidenceRefs
  }

  lemma RefsJoinInOrder(a: Finding, b: Finding)
    requires a.Built() && b.Built()
    ensures Compare(JoinIDs(a), JoinIDs(b)) < 0 <==> ListBefore(a.evidenceRefs, b.evidenceRefs)
    ensures Compare(JoinIDs(a), JoinIDs(b)) == 0 <==> a.evidenceRefs == b.evidenceRefs
  {
    hide ValidCode, ValidProse, Trimmed, Ascending, IsControl;
    forall p | p in a.evidenceRefs || p in b.evidenceRefs ensures NulFree(p) {
      IdentifierIsNulFree(p);
    }
    JoinedOrder(a.evidenceRefs, b.evidenceRefs);
  }

  lemma ReportReads(a: Finding, b: Finding)
    requires a.Built() && b.Built()
    ensures CompareReport(a, b) < 0 <==> ReadsFirst(a, b)
    ensures CompareReport(a, b) == 0 <==> ReadsAlike(a, b)
  {
    hide Compare, JoinIDs, Finding.Built, TextBefore, ListBefore, NoLessSevere, NoDeeper, Severity.Rank, Layer.Rank;
    RanksCompare(a.severity, b.severity, High, High);
    LayersCompare(a.layer, b.layer);
    CompareIsTextOrder(a.code, b.code);
    CompareIsTextOrder(a.subject.ref, b.subject.ref);
    CompareIsTextOrder(a.summary, b.summary);
    RefsJoinInOrder(a, b);
  }

  /** Sorted by the comparison, built findings read in that order. */
  lemma SortedReads(fs: seq<Finding>)
    requires Sorted(fs, CompareReport) && forall f :: f in fs ==> f.Built()
    ensures forall i, j :: 0 <= i < j < |fs| ==> ReadsFirst(fs[i], fs[j]) || ReadsAlike(fs[i], fs[j])
  {
    hide Finding.Built, CompareReport, ReadsFirst, ReadsAlike;
    forall i, j | 0 <= i < j < |fs| ensures ReadsFirst(fs[i], fs[j]) || ReadsAlike(fs[i], fs[j]) {
      ReportReads(fs[i], fs[j]);
    }
  }

  /** No finding is listed before a more severe one, and among equally severe ones none
  before one of a shallower layer. */
  ghost predicate SeverestFirst(fs: seq<Finding>) {
    && (forall i, j :: 0 <= i < j < |fs| ==> NoLessSevere(fs[i].severity, fs[j].severity))
    && (forall i, j :: 0 <= i < j < |fs| && fs[i].severity == fs[j].severity ==> NoDeeper(fs[i].layer, fs[j].layer))
  }

  lemma SortedRanks(fs: seq<Finding>)
    requires Sorted(fs, CompareReport)
    ensures SeverestFirst(fs)
  {
    hide Compare, JoinIDs, NoLessSevere, NoDeeper, Severity.Rank, Layer.Rank;
    forall i, j | 0 <= i < j < |fs|
      ensures NoLessSevere(fs[i].severity, fs[j].severity)
      ensures fs[i].severity == fs[j].severity ==> NoDeeper(fs[i].layer, fs[j].layer)
    {
      assert CompareReport(fs[i], fs[j]) <= 0;
      RanksCompare(fs[i].severity, fs[j].severity, High, High);
      LayersCompare(fs[i].layer, fs[j].layer);
    }
  }

  /** SortFindings: canonical order, in place. */
  method SortFindings(findings: array<Finding>)
    modifies findings
    ensures findings[..] == StableSort(old(findings[..]), CompareReport)
    ensures multiset(findings[..]) == multiset(old(findings[..]))
    ensures SeverestFirst(findings[..])
    ensures (forall f :: f in old(findings[..]) ==> f.Built()) ==>
      forall i, j :: 0 <= i < j < findings.Length ==>
        ReadsFirst(findings[i], findings[j]) || ReadsAlike(findings[i], findings[j])
  {
    hide Finding.Built, CompareReport, ReadsFirst, ReadsAlike, SeverestFirst;
    ghost var before := findings[..];
    SortStableFunc(findings, CompareReport);
    ReportOrder();
    StableSortSorted(before, CompareReport);
    StableSortPermutes(before, CompareReport);
    SameElements(findings[..], before);
    SortedRanks(findings[..]);
    if forall f :: f in before ==> f.Built() {
      SortedReads(findings[..]);
    }
  }
}
