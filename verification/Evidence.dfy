/** Evidence: one normalized diagnostic fact, and the vocabulary it is written in. */
module Evidences {
  import opened Text
  import opened Results

  type EvidenceID = string
  type Step = string

  datatype Layer =
    | LayerUnspecified | LayerInput | LayerDNS | LayerTCP | LayerTLS | LayerProtocol | LayerAuth | LayerTopology
  {
    predicate Valid() {
      !LayerUnspecified?
    }

    function Rank(): nat {
      match this
      case LayerUnspecified => 0
      case LayerInput => 1
      case LayerDNS => 2
      case LayerTCP => 3
      case LayerTLS => 4
      case LayerProtocol => 5
      case LayerAuth => 6
      case LayerTopology => 7
    }
  }

  datatype State = Unknown | Pass | Fail | Degraded | Skipped

  /** The classes the modelled code names, and every other one by its ordinal. */
  datatype FailureClass =
    | FailureNone
    | ExecLocalTimeout
    | ExecCancelled
    | ExecSkippedPrerequisiteFailed
    | ProtocolUnexpectedResponse
    | ProtocolUnsupportedVersion
    | ProtocolMalformedResponse
    | ProtocolPeerClosed
    | AuthMechanismNotOffered
    | OtherFailure(ordinal: nat)

  datatype SubjectKind = SubjectKindUnspecified | SubjectKindTarget | SubjectKindEndpoint {
    function Rank(): nat {
      match this
      case SubjectKindUnspecified => 0
      case SubjectKindTarget => 1
      case SubjectKindEndpoint => 2
    }
  }

  /** Input over DNS over TCP over TLS over protocol over auth over topology. */
  ghost predicate NoDeeper(a: Layer, b: Layer) {
    match b
    case LayerUnspecified => a == LayerUnspecified
    case LayerInput => a == LayerUnspecified || a == LayerInput
    case LayerDNS => a == LayerUnspecified || a == LayerInput || a == LayerDNS
    case LayerTCP => a == LayerUnspecified || a == LayerInput || a == LayerDNS || a == LayerTCP
    case LayerTLS => a != LayerProtocol && a != LayerAuth && a != LayerTopology
    case LayerProtocol => a != LayerAuth && a != LayerTopology
    case LayerAuth => a != LayerTopology
    case LayerTopology => true
  }

  lemma LayersCompare(a: Layer, b: Layer)
    ensures a.Rank() <= b.Rank() <==> NoDeeper(a, b)
    ensures a.Rank() == b.Rank() <==> a == b
  {
  }

  /** No subject, then the target, then an endpoint. */
  ghost predicate NoLaterKind(a: SubjectKind, b: SubjectKind) {
    match b
    case SubjectKindUnspecified => a == SubjectKindUnspecified
    case SubjectKindTarget => a != SubjectKindEndpoint
    case SubjectKindEndpoint => true
  }

  lemma SubjectKindsCompare(a: SubjectKind, b: SubjectKind)
    ensures a.Rank() <= b.Rank() <==> NoLaterKind(a, b)
    ensures a.Rank() == b.Rank() <==> a == b
  {
  }

  datatype Subject = Subject(kind: SubjectKind, ref: string) {
    predicate IsZero() {
      this == ZERO_SUBJECT
    }

    /** What the two subject constructors produce, or the zero value. */
    predicate Built() {
      IsZero() || (!kind.SubjectKindUnspecified? && ValidIdentifier(ref))
    }
  }

  const ZERO_SUBJECT := Subject(SubjectKindUnspecified, "")

  function NewEndpointSubject(ref: string): Result<Subject> {
    if ValidIdentifier(ref) then Ok(Subject(SubjectKindEndpoint, ref)) else Err(ErrInvalidValue)
  }

  /** Subjects in (kind, reference) order. */
  function CompareSubjects(a: Subject, b: Subject): int {
    var c := CompareInt(a.kind.Rank(), b.kind.Rank());
    if c != 0 then c else Compare(a.ref, b.ref)
  }

  predicate StepChar(c: char) {
    'a' <= c <= 'z' || '0' <= c <= '9' || c == '_'
  }

  /** validateDottedName: non-empty lower-case segments separated by single dots. */
  predicate ValidDottedName(s: string) {
    && s != []
    && s[0] != '.' && s[|s| - 1] != '.'
    && (forall i :: 0 <= i < |s| ==> s[i] == '.' || StepChar(s[i]))
    && (forall i :: 0 <= i < |s| - 1 ==> s[i] != '.' || s[i + 1] != '.')
  }

  /** The grammar of step and attribute names: segments of small letters, digits and
  underscores, with a dot between one and the next. */
  lemma DottedNameReads(s: string, allowed: char -> bool)
    requires forall c :: allowed(c) <==> 'a' <= c <= 'z' || '0' <= c <= '9' || c == '_'
    ensures ValidDottedName(s) <==> exists segments :: ReadsAs(s, '.', allowed, segments)
  {
    hide ReadsAs;
    WordsRead(s, '.', allowed);
    assert forall i :: 0 <= i < |s| ==> s[i] in s;
  }

  datatype Evidence = Evidence(
    id: EvidenceID,
    subject: Subject,
    layer: Layer,
    step: Step,
    state: State,
    failureClass: FailureClass)
  {
    predicate IsZero() {
      id == "" && subject.IsZero()
    }

    /** The invariant NewEvidence establishes. */
    predicate Built() {
      && ValidIdentifier(id)
      && !subject.IsZero() && subject.Built()
      && layer.Valid()
      && ValidDottedName(step)
      && (state == Pass ==> failureClass == FailureNone)
      && (state == Fail ==> failureClass != FailureNone)
    }
  }

  datatype Elapsed = Untimed | Timed(duration: int)

  /** What an input says beside the fields above: whether it has a start time, how long
  the step took, and for each attribute key whether its value is set. */
  datatype Particulars = Particulars(started: bool, elapsed: Elapsed, attributes: map<string, bool>) {
    predicate Valid() {
      && started
      && (elapsed.Timed? ==> elapsed.duration >= 0)
      && (forall key :: key in attributes ==> ValidDottedName(key) && attributes[key])
    }
  }

  /** A start time, no timing and no attributes. */
  const BARE := Particulars(true, Untimed, map[])

  /** NewEvidence: validation of every field and of the state and failure-class pair. */
  function NewEvidence(e: Evidence, more: Particulars): (r: Result<Evidence>)
    requires e.subject.Built()
    ensures r.Ok? ==> r.value == e
    ensures r.Ok? <==> e.Built() && more.Valid()
    ensures r.Ok? <==>
      && e.subject.kind != SubjectKindUnspecified && e.layer != LayerUnspecified
      && (e.state == Pass ==> e.failureClass == FailureNone) && (e.state == Fail ==> e.failureClass != FailureNone)
      && ValidIdentifier(e.id) && ValidDottedName(e.step)
      && more.started && (more.elapsed == Untimed || more.elapsed.duration >= 0)
      && forall key :: key in more.attributes ==> ValidDottedName(key) && more.attributes[key]
    ensures r.Ok? ==> ValidIdentifier(e.subject.ref)
  {
    if !ValidIdentifier(e.id) then Err(ErrInvalidValue)
    else if e.subject.IsZero() then Err(ErrInvalidValue)
    else if !e.layer.Valid() then Err(ErrInvalidValue)
    else if !ValidDottedName(e.step) then Err(ErrInvalidValue)
    else if e.state == Pass && e.failureClass != FailureNone then Err(ErrInvalidValue)
    else if e.state == Fail && e.failureClass == FailureNone then Err(ErrInvalidValue)
    else if !more.started then Err(ErrInvalidValue)
    else if more.elapsed.Timed? && more.elapsed.duration < 0 then Err(ErrInvalidValue)
    else if exists key :: key in more.attributes && !(ValidDottedName(key) && more.attributes[key]) then
      Err(ErrInvalidValue)
    else Ok(e)
  }
}
