/** Findings: what diagnosis concludes, and the invariant its constructor establishes. */
module Findings {
  import opened Text
  import opened Orders
  import opened Results
  import opened Evidences

  datatype FindingKind = KindUnspecified | Confirmed | Hypothesis {
    function Rank(): nat {
      match this
      case KindUnspecified => 0
      case Confirmed => 1
      case Hypothesis => 2
    }
  }

  datatype Severity = SeverityUnspecified | Info | Warn | Error | Critical {
    function Rank(): nat {
      match this
      case SeverityUnspecified => 0
      case Info => 1
      case Warn => 2
      case Error => 3
      case Critical => 4
    }

    function Max(other: Severity): Severity {
      if other.Rank() > Rank() then other else this
    }
  }

  datatype Confidence = ConfidenceUnspecified | Low | Medium | High {
    function Rank(): nat {
      match this
      case ConfidenceUnspecified => 0
      case Low => 1
      case Medium => 2
      case High => 3
    }

    function Max(other: Confidence): Confidence {
      if other.Rank() > Rank() then other else this
    }
  }

  /** CRITICAL over ERROR over WARN over INFO. */
  ghost predicate NoLessSevere(a: Severity, b: Severity) {
    match b
    case Critical => a == Critical
    case Error => a == Critical || a == Error
    case Warn => a == Critical || a == Error || a == Warn
    case Info => a != SeverityUnspecified
    case SeverityUnspecified => true
  }

  /** HIGH over MEDIUM over LOW. */
  ghost predicate NoLessSure(a: Confidence, b: Confidence) {
    match b
    case High => a == High
    case Medium => a == High || a == Medium
    case Low => a != ConfidenceUnspecified
    case ConfidenceUnspecified => true
  }

  lemma RanksCompare(a: Severity, b: Severity, c: Confidence, d: Confidence)
    ensures a.Rank() >= b.Rank() <==> NoLessSevere(a, b)
    ensures c.Rank() >= d.Rank() <==> NoLessSure(c, d)
    ensures (a.Rank() == b.Rank() <==> a == b) && (c.Rank() == d.Rank() <==> c == d)
  {
  }

  datatype AdviceKind = AdviceUnspecified | NextEvidence | Remediation {
    function Name(): string {
      match this
      case AdviceUnspecified => "UNSPECIFIED"
      case NextEvidence => "NEXT_EVIDENCE"
      case Remediation => "REMEDIATION"
    }
  }

  datatype SafetyClass =
    | SafetyUnspecified | Observe | Verify | CompareOnly | ConfigChange | Restart | Disruptive | SecurityWeakening
  {
    function Name(): string {
      match this
      case SafetyUnspecified => "UNSPECIFIED"
      case Observe => "OBSERVE"
      case Verify => "VERIFY"
      case CompareOnly => "COMPARE"
      case ConfigChange => "CONFIG_CHANGE"
      case Restart => "RESTART"
      case Disruptive => "DISRUPTIVE"
      case SecurityWeakening => "SECURITY_WEAKENING"
    }
  }

  datatype Recommendation = Recommendation(
    action: string, kind: AdviceKind, safety: SafetyClass, rationale: string, selfCollectable: bool)
  {
    predicate IsZero() {
      action == ""
    }

    /** What both recommendation constructors guarantee about the text they hold. */
    predicate Built() {
      && ValidIdentifier(action)
      && (rationale == "" || ValidIdentifier(rationale))
    }
  }

  predicate UpperOrDigit(c: char) {
    'A' <= c <= 'Z' || '0' <= c <= '9'
  }

  /** validateFindingCode: at least two non-empty upper-case segments joined by underscores. */
  predicate ValidCode(s: string) {
    && s != []
    && 'A' <= s[0] <= 'Z'
    && s[|s| - 1] != '_'
    && (forall i :: 0 <= i < |s| ==> s[i] == '_' || UpperOrDigit(s[i]))
    && (forall i :: 0 <= i < |s| - 1 ==> s[i] != '_' || s[i + 1] != '_')
    && (exists i :: 0 <= i < |s| && s[i] == '_')
  }

  /** A Finding, and equally the FindingInput it is built from: the fields are the same. */
  /** The grammar of codes: at least two segments of capital letters and digits, with an
  underscore between one and the next, the first starting with a letter. */
  lemma CodeReads(s: string, allowed: char -> bool)
    requires forall c :: allowed(c) <==> 'A' <= c <= 'Z' || '0' <= c <= '9'
    ensures ValidCode(s) <==> exists segments ::
      ReadsAs(s, '_', allowed, segments) && |segments| >= 2 && segments[0] != [] && 'A' <= segments[0][0] <= 'Z'
  {
    hide Separated, AreWords, ReadsAs, ValidCode;
    CodeIsSeparated(s);
    WordsRead(s, '_', allowed);
    forall segments | ReadsAs(s, '_', allowed, segments)
      ensures segments != [] && segments[0] != [] && s != [] && s[0] == segments[0][0]
      ensures '_' in s <==> |segments| >= 2
    {
      SegmentsTell(s, '_', allowed, segments);
    }
  }

  lemma CodeIsSeparated(s: string)
    ensures ValidCode(s) <==>
      && Separated(s, '_') && (forall c :: c in s ==> c == '_' || 'A' <= c <= 'Z' || '0' <= c <= '9')
      && '_' in s && 'A' <= s[0] <= 'Z'
  {
    assert forall i :: 0 <= i < |s| ==> s[i] in s;
  }

  lemma SegmentsTell(s: string, separator: char, allowed: char -> bool, segments: seq<string>)
    requires ReadsAs(s, separator, allowed, segments) && !allowed(separator)
    ensures segments != [] && segments[0] != [] && s != [] && s[0] == segments[0][0]
    ensures separator in s <==> |segments| >= 2
  {
    hide JoinedBy;
    WordsAreSeparated(segments, separator);
    WordsHold(segments, separator, separator);
    assert segments[0] in segments;
    assert !InSome(segments, separator);
  }

  datatype Finding = Finding(
    code: string,
    kind: FindingKind,
    severity: Severity,
    confidence: Confidence,
    layer: Layer,
    subject: Subject,
    summary: string,
    detail: string,
    evidenceRefs: seq<EvidenceID>,
    recommendations: seq<Recommendation>,
    vantageDependent: bool,
    discriminator: string)
  {
    predicate IsZero() {
      code == "" && summary == ""
    }

    /** The checks on every field but the two lists. */
    predicate FieldsValid() {
      && ValidCode(code)
      && !kind.KindUnspecified? && !severity.SeverityUnspecified? && !confidence.ConfidenceUnspecified?
      && layer.Valid()
      && subject.Built()
      && ValidIdentifier(summary)
      && (detail == "" || ValidProse(detail))
      && (discriminator == "" || ValidIdentifier(discriminator))
      && (kind == Confirmed ==> discriminator == "")
    }

    predicate RefsValid() {
      evidenceRefs != [] && forall ref :: ref in evidenceRefs ==> ValidIdentifier(ref)
    }

    predicate AdviceBuilt() {
      forall r :: r in recommendations ==> r.Built()
    }

    /** The values NewFinding produces: what every non-zero Finding satisfies. */
    ghost predicate Built() {
      FieldsValid() && RefsValid() && AdviceBuilt() && Ascending(evidenceRefs)
    }
  }

  ghost function RefSet(refs: seq<EvidenceID>): set<EvidenceID> {
    set ref | ref in refs
  }

  /** normalizeEvidenceRefs: validated, deduplicated and sorted. */
  method NormalizeEvidenceRefs(refs: seq<EvidenceID>) returns (r: Result<seq<EvidenceID>>)
    ensures r.Ok? <==> refs != [] && forall ref :: ref in refs ==> ValidIdentifier(ref)
    ensures r.Ok? ==> r.value == InOrder(RefSet(refs))
  {
    hide ValidIdentifier, Ascending;
    if |refs| == 0 {
      return Err(ErrInvalidValue);
    }
    var seen: set<EvidenceID> := {};
    var out: seq<EvidenceID> := [];
    var i := 0;
    while i < |refs|
      invariant 0 <= i <= |refs|
      invariant Distinct(out)
      invariant forall x :: x in out <==> x in refs[..i]
      invariant forall x :: x in seen <==> x in refs[..i]
      invariant forall x :: x in refs[..i] ==> ValidIdentifier(x)
    {
      var id := refs[i];
      assert refs[..i + 1] == refs[..i] + [id];
      if !ValidIdentifier(id) {
        return Err(ErrInvalidValue);
      }
      if id !in seen {
        seen := seen + {id};
        out := out + [id];
      }
      i := i + 1;
    }
    assert refs[..|refs|] == refs;
    out := SortDistinct(out);
    InOrderUnique(out, RefSet(refs));
    return Ok(out);
  }

  /** copyRecommendations: an owned copy, refused when a recommendation has no action. */
  method CopyRecommendations(rs: seq<Recommendation>) returns (r: Result<seq<Recommendation>>)
    ensures r.Ok? <==> forall x :: x in rs ==> !x.IsZero()
    ensures r.Ok? ==> r.value == rs
  {
    var out: seq<Recommendation> := [];
    var i := 0;
    while i < |rs|
      invariant 0 <= i <= |rs| && out == rs[..i]
      invariant forall x :: x in rs[..i] ==> !x.IsZero()
    {
      if rs[i].IsZero() {
        return Err(ErrInvalidValue);
      }
      out := out + [rs[i]];
      i := i + 1;
    }
    return Ok(out);
  }

  /** The finding an acceptable input becomes: its references as an ordered set. */
  ghost function Normalized(f: Finding): Finding {
    f.(evidenceRefs := InOrder(RefSet(f.evidenceRefs)))
  }

  method NewFinding(f: Finding) returns (r: Result<Finding>)
    requires f.subject.Built()
    ensures r.Ok? <==> f.FieldsValid() && f.RefsValid() && forall x :: x in f.recommendations ==> !x.IsZero()
    ensures r.Ok? ==> r.value == Normalized(f)
    ensures r.Ok? <==>
      && f.kind != KindUnspecified && f.severity != SeverityUnspecified && f.confidence != ConfidenceUnspecified
      && f.layer != LayerUnspecified && (f.kind == Confirmed ==> f.discriminator == "")
      && (f.discriminator != "" ==> ValidIdentifier(f.discriminator))
      && ValidCode(f.code) && ValidIdentifier(f.summary) && (f.detail != "" ==> ValidProse(f.detail))
      && f.evidenceRefs != [] && (forall ref :: ref in f.evidenceRefs ==> ValidIdentifier(ref))
      && forall x :: x in f.recommendations ==> x.action != ""
    ensures r.Ok? ==>
      && (forall ref :: ref in r.value.evidenceRefs <==> ref in f.evidenceRefs)
      && r.value == f.(evidenceRefs := r.value.evidenceRefs)
  {
    hide ValidIdentifier, ValidProse, ValidCode, Ascending;
    if !ValidCode(f.code) { return Err(ErrInvalidValue); }
    if f.kind.KindUnspecified? { return Err(ErrInvalidValue); }
    if f.severity.SeverityUnspecified? { return Err(ErrInvalidValue); }
    if f.confidence.ConfidenceUnspecified? { return Err(ErrInvalidValue); }
    if !f.layer.Valid() { return Err(ErrInvalidValue); }
    if !ValidIdentifier(f.summary) { return Err(ErrInvalidValue); }
    if f.detail != "" && !ValidProse(f.detail) { return Err(ErrInvalidValue); }
    if f.discriminator != "" && !ValidIdentifier(f.discriminator) { return Err(ErrInvalidValue); }
    if f.kind == Confirmed && f.discriminator != "" { return Err(ErrInvalidValue); }
    var refs := NormalizeEvidenceRefs(f.evidenceRefs);
    if refs.Err? { return Err(refs.error); }
    var recommendations := CopyRecommendations(f.recommendations);
    if recommendations.Err? { return Err(recommendations.error); }
    return Ok(f.(evidenceRefs := refs.value, recommendations := recommendations.value));
  }

  /** NewFinding's results satisfy the invariant, and the invariant is all it takes:
  a built finding passes NewFinding again and comes back unchanged. */
  lemma NewFindingEstablishesBuilt(f: Finding)
    requires f.FieldsValid() && f.RefsValid() && f.AdviceBuilt()
    ensures Normalized(f).Built()
    ensures f.Built() ==> Normalized(f) == f
    ensures f.Built() ==> !f.IsZero()
  {
    hide ValidIdentifier, ValidProse, Ascending;
    if f.Built() {
      InOrderUnique(f.evidenceRefs, RefSet(f.evidenceRefs));
    }
    var refs := InOrder(RefSet(f.evidenceRefs));
    assert f.evidenceRefs[0] in refs;
  }

  // ---- the key findings of one merge group are ordered by ----

  /** joinRefs: the references, each NUL-terminated. */
  function JoinRefs(f: Finding): string {
    NulTerminated(f.evidenceRefs)
  }

  function AdviceParts(r: Recommendation): seq<string> {
    [r.action, r.kind.Name(), r.safety.Name(), r.rationale, if r.selfCollectable then "1" else "0"]
  }

  function AllAdviceParts(rs: seq<Recommendation>): seq<string> {
    if rs == [] then [] else AdviceParts(rs[0]) + AllAdviceParts(rs[1..])
  }

  /** joinAdvice: five NUL-terminated fields per recommendation. */
  function JoinAdvice(f: Finding): string {
    NulTerminated(AllAdviceParts(f.recommendations))
  }

  lemma KindNameIsNulFree(k: AdviceKind)
    ensures NulFree(k.Name())
  {
  }

  lemma SafetyNameIsNulFree(s: SafetyClass)
    ensures NulFree(s.Name())
  {
  }

  lemma NamesAreInjective(r: Recommendation, s: Recommendation)
    requires AdviceParts(r) == AdviceParts(s)
    ensures r == s
  {
    assert AdviceParts(r)[0] == AdviceParts(s)[0];
    assert AdviceParts(r)[1] == AdviceParts(s)[1];
    assert AdviceParts(r)[2] == AdviceParts(s)[2];
    assert AdviceParts(r)[3] == AdviceParts(s)[3];
    assert AdviceParts(r)[4][0] == AdviceParts(s)[4][0];
  }

  lemma {:induction false} AdvicePartsNulFree(rs: seq<Recommendation>)
    requires forall r :: r in rs ==> r.Built()
    ensures forall p :: p in AllAdviceParts(rs) ==> NulFree(p)
  {
    if rs != [] {
      var r := rs[0];
      assert r.Built();
      KindNameIsNulFree(r.kind);
      SafetyNameIsNulFree(r.safety);
      IdentifierIsNulFree(r.action);
      IdentifierIsNulFree(r.rationale);
      AdvicePartsNulFree(rs[1..]);
    }
  }

  lemma {:induction false} AdvicePartsInjective(rs: seq<Recommendation>, ss: seq<Recommendation>)
    requires AllAdviceParts(rs) == AllAdviceParts(ss)
    ensures rs == ss
  {
    if rs != [] && ss != [] {
      var a, b := AllAdviceParts(rs), AllAdviceParts(ss);
      assert AdviceParts(rs[0]) == a[..5] && AdviceParts(ss[0]) == b[..5];
      assert AllAdviceParts(rs[1..]) == a[5..] && AllAdviceParts(ss[1..]) == b[5..];
      NamesAreInjective(rs[0], ss[0]);
      AdvicePartsInjective(rs[1..], ss[1..]);
      assert rs == [rs[0]] + rs[1..] && ss == [ss[0]] + ss[1..];
    }
  }

  /** Neither rendering loses anything: on built findings both joins are injective. */
  lemma JoinsAreInjective(a: Finding, b: Finding)
    requires a.Built() && b.Built()
    ensures JoinRefs(a) == JoinRefs(b) ==> a.evidenceRefs == b.evidenceRefs
    ensures JoinAdvice(a) == JoinAdvice(b) ==> a.recommendations == b.recommendations
  {
    forall p | p in a.evidenceRefs || p in b.evidenceRefs ensures NulFree(p) {
      IdentifierIsNulFree(p);
    }
    AdvicePartsNulFree(a.recommendations);
    AdvicePartsNulFree(b.recommendations);
    if JoinRefs(a) == JoinRefs(b) {
      NulTerminatedInjective(a.evidenceRefs, b.evidenceRefs);
    }
    if JoinAdvice(a) == JoinAdvice(b) {
      NulTerminatedInjective(AllAdviceParts(a.recommendations), AllAdviceParts(b.recommendations));
      AdvicePartsInjective(a.recommendations, b.recommendations);
    }
  }

  // ---- the order recommendations come in ----

  /** NEXT_EVIDENCE, REMEDIATION, UNSPECIFIED: the names in their alphabetical order. */
  ghost function AdvicePlace(k: AdviceKind): nat {
    match k
    case NextEvidence => 0
    case Remediation => 1
    case AdviceUnspecified => 2
  }

  /** COMPARE, CONFIG_CHANGE, DISRUPTIVE, OBSERVE, RESTART, SECURITY_WEAKENING, UNSPECIFIED,
  VERIFY. */
  ghost function SafetyPlace(s: SafetyClass): nat {
    match s
    case CompareOnly => 0
    case ConfigChange => 1
    case Disruptive => 2
    case Observe => 3
    case Restart => 4
    case SecurityWeakening => 5
    case SafetyUnspecified => 6
    case Verify => 7
  }

  /** By action, by the names of the kind and of the safety class, by rationale, and what
  this tool cannot collect itself before what it can. */
  ghost predicate RecommendedFirst(r: Recommendation, s: Recommendation) {
    || TextBefore(r.action, s.action)
    || (r.action == s.action && AdvicePlace(r.kind) < AdvicePlace(s.kind))
    || (r.action == s.action && r.kind == s.kind && SafetyPlace(r.safety) < SafetyPlace(s.safety))
    || (r.action == s.action && r.kind == s.kind && r.safety == s.safety && TextBefore(r.rationale, s.rationale))
    || (r == s.(selfCollectable := false) && s.selfCollectable)
  }

  ghost predicate AdviceFirst(rs: seq<Recommendation>, ss: seq<Recommendation>) {
    if rs == [] || ss == [] then rs == [] && ss != []
    else RecommendedFirst(rs[0], ss[0]) || (rs[0] == ss[0] && AdviceFirst(rs[1..], ss[1..]))
  }

  lemma AdviceNames(a: AdviceKind, b: AdviceKind)
    ensures TextBefore(a.Name(), b.Name()) <==> AdvicePlace(a) < AdvicePlace(b)
    ensures a.Name() == b.Name() <==> a == b
  {
    hide TextBefore;
    CompareIsTextOrder(a.Name(), b.Name());
    assert a != b ==> a.Name()[0] != b.Name()[0];
  }

  lemma FirstDecides(a: string, b: string)
    requires a != [] && b != [] && a[0] != b[0]
    ensures TextBefore(a, b) <==> a[0] < b[0]
  {
    hide TextBefore;
    CompareIsTextOrder(a, b);
  }

  lemma SafetyNames(a: SafetyClass, b: SafetyClass)
    ensures TextBefore(a.Name(), b.Name()) <==> SafetyPlace(a) < SafetyPlace(b)
    ensures a.Name() == b.Name() <==> a == b
  {
    hide TextBefore, Compare;
    CompareIsTextOrder(a.Name(), b.Name());
    CompareZero(a.Name(), a.Name());
    if a != b && {a, b} == {CompareOnly, ConfigChange} {
      CompareThenConfig();
    } else if a != b {
      SafetyLetters(a, b);
      FirstDecides(a.Name(), b.Name());
    }
  }

  lemma SafetyLetters(a: SafetyClass, b: SafetyClass)
    ensures a.Name() != [] && b.Name() != []
    ensures a != b && {a, b} != {CompareOnly, ConfigChange} ==>
      a.Name()[0] != b.Name()[0] && (a.Name()[0] < b.Name()[0] <==> SafetyPlace(a) < SafetyPlace(b))
  {
    SafetyLetter(a);
    SafetyLetter(b);
  }

  /** The first letters of the names, in order; two of them share theirs. */
  lemma SafetyLetter(a: SafetyClass)
    ensures a.Name() != [] && a.Name()[0] == "CCDORSUV"[SafetyPlace(a)]
  {
  }

  lemma CompareThenConfig()
    ensures Compare("COMPARE", "CONFIG_CHANGE") < 0 && Compare("CONFIG_CHANGE", "COMPARE") > 0
    ensures "COMPARE" != "CONFIG_CHANGE"
  {
    SameHead("CO", "MPARE", "NFIG_CHANGE");
    SameHead("CO", "NFIG_CHANGE", "MPARE");
    assert "CO" + "MPARE" == "COMPARE" && "CO" + "NFIG_CHANGE" == "CONFIG_CHANGE";
    assert "MPARE"[0] < "NFIG_CHANGE"[0];
  }

  /** Five fields each: the first recommendation's decide unless they are the same. */
  lemma {:induction false} ListBeforeJoin(
    x: seq<string>, more: seq<string>, y: seq<string>, rest: seq<string>)
    requires |x| == |y|
    ensures ListBefore(x + more, y + rest) <==> ListBefore(x, y) || (x == y && ListBefore(more, rest))
  {
    hide TextBefore;
    if x == [] {
      assert x + more == more && y + rest == rest;
    } else {
      assert (x + more)[1..] == x[1..] + more && (y + rest)[1..] == y[1..] + rest;
      assert x == [x[0]] + x[1..] && y == [y[0]] + y[1..];
      ListBeforeJoin(x[1..], more, y[1..], rest);
    }
  }

  lemma FiveFields(x: seq<string>, y: seq<string>)
    requires |x| == |y| == 5
    ensures ListBefore(x, y) <==>
      || TextBefore(x[0], y[0])
      || (x[0] == y[0] && TextBefore(x[1], y[1]))
      || (x[..2] == y[..2] && TextBefore(x[2], y[2]))
      || (x[..3] == y[..3] && TextBefore(x[3], y[3]))
      || (x[..4] == y[..4] && TextBefore(x[4], y[4]))
  {
    hide TextBefore;
    assert x[..2] == [x[0], x[1]] && y[..2] == [y[0], y[1]];
    assert x[..3] == [x[0], x[1], x[2]] && y[..3] == [y[0], y[1], y[2]];
    assert x[..4] == [x[0], x[1], x[2], x[3]] && y[..4] == [y[0], y[1], y[2], y[3]];
    ListFrom(x, y, 0);
    ListFrom(x, y, 1);
    ListFrom(x, y, 2);
    ListFrom(x, y, 3);
    ListFrom(x, y, 4);
    assert x[5..] == [] && y[5..] == [] && x[0..] == x && y[0..] == y;
  }

  lemma ListFrom(x: seq<string>, y: seq<string>, k: nat)
    requires k < |x| == |y|
    ensures ListBefore(x[k..], y[k..]) <==>
      TextBefore(x[k], y[k]) || (x[k] == y[k] && ListBefore(x[k + 1..], y[k + 1..]))
  {
    hide TextBefore;
    assert x[k..][1..] == x[k + 1..] && y[k..][1..] == y[k + 1..];
  }

  lemma OneRecommendation(r: Recommendation, s: Recommendation)
    ensures ListBefore(AdviceParts(r), AdviceParts(s)) <==> RecommendedFirst(r, s)
  {
    hide TextBefore, ListBefore, AdviceKind.Name, SafetyClass.Name, AdvicePlace, SafetyPlace;
    var x, y := AdviceParts(r), AdviceParts(s);
    FiveFields(x, y);
    AdviceNames(r.kind, s.kind);
    SafetyNames(r.safety, s.safety);
    Flags(r.selfCollectable, s.selfCollectable);
    assert x[..2] == [x[0], x[1]] && y[..2] == [y[0], y[1]];
    assert x[..3] == [x[0], x[1], x[2]] && y[..3] == [y[0], y[1], y[2]];
    assert x[..4] == [x[0], x[1], x[2], x[3]] && y[..4] == [y[0], y[1], y[2], y[3]];
  }

  lemma Flags(a: bool, b: bool)
    ensures TextBefore(if a then "1" else "0", if b then "1" else "0") <==> !a && b
  {
    hide TextBefore;
    CompareIsTextOrder(if a then "1" else "0", if b then "1" else "0");
    assert "0"[0] < "1"[0];
  }

  /** The joined rendering orders lists of recommendations by the first one that differs. */
  lemma {:induction false} AdviceReads(rs: seq<Recommendation>, ss: seq<Recommendation>)
    ensures ListBefore(AllAdviceParts(rs), AllAdviceParts(ss)) <==> AdviceFirst(rs, ss)
  {
    hide TextBefore, RecommendedFirst, AdviceParts;
    if rs != [] && ss != [] {
      FiveEach(rs[0]);
      FiveEach(ss[0]);
      ListBeforeJoin(
        AdviceParts(rs[0]), AllAdviceParts(rs[1..]), AdviceParts(ss[0]), AllAdviceParts(ss[1..]));
      OneRecommendation(rs[0], ss[0]);
      if AdviceParts(rs[0]) == AdviceParts(ss[0]) {
        NamesAreInjective(rs[0], ss[0]);
      }
      AdviceReads(rs[1..], ss[1..]);
    } else {
      SomeParts(rs);
      SomeParts(ss);
    }
  }

  lemma FiveEach(r: Recommendation)
    ensures |AdviceParts(r)| == 5
  {
  }

  lemma SomeParts(rs: seq<Recommendation>)
    ensures AllAdviceParts(rs) == [] <==> rs == []
  {
  }
}
