/** Evidence identifiers: escaped components joined by a separator, optionally under
the scope of one sweep. */
module Identifiers {
  import opened Text
  import opened Results
  import opened Evidences

  const SEPARATOR: char := '/'

  // ---- escaping ----

  function EscapedChar(c: char): string {
    if c == '%' then "%25" else if c == SEPARATOR then "%2F" else [c]
  }

  function Escaped(s: string): string {
    if s == [] then [] else EscapedChar(s[0]) + Escaped(s[1..])
  }

  lemma EscapedUnfolds(s: string)
    ensures Escaped(s) == if s == [] then [] else EscapedChar(s[0]) + Escaped(s[1..])
  {
  }

  /** Characters are replaced one by one. */
  lemma {:induction false} EscapedJoin(s: string, t: string)
    ensures Escaped(s + t) == Escaped(s) + Escaped(t)
  {
    hide EscapedChar, Escaped;
    EscapedUnfolds(s);
    if s == [] {
      assert s + t == t;
    } else {
      EscapedJoin(s[1..], t);
      EscapedUnfolds(s + t);
      assert (s + t)[1..] == s[1..] + t;
    }
  }

  lemma EscapedAppend(s: string, c: char)
    ensures Escaped(s + [c]) == Escaped(s) + EscapedChar(c)
  {
    EscapedJoin(s, [c]);
    assert Escaped([c]) == EscapedChar(c) + Escaped([]);
  }

  /** A percent sign becomes %25, the separator %2F, and nothing else changes. */
  lemma EscapedOne(c: char)
    ensures Escaped([c]) == if c == '%' then "%25" else if c == '/' then "%2F" else [c]
  {
    assert [c][1..] == [];
  }

  lemma {:induction false} NothingToEscape(s: string)
    requires '%' !in s && SEPARATOR !in s
    ensures Escaped(s) == s
  {
    if s != [] {
      NothingToEscape(s[1..]);
      assert s == [s[0]] + s[1..];
    }
  }

  method Escape(s: string) returns (r: string)
    ensures r == Escaped(s)
  {
    if '%' !in s && SEPARATOR !in s {
      NothingToEscape(s);
      return s;
    }
    r := [];
    var i := 0;
    while i < |s|
      invariant 0 <= i <= |s|
      invariant r == Escaped(s[..i])
    {
      EscapedAppend(s[..i], s[i]);
      assert s[..i + 1] == s[..i] + [s[i]];
      match s[i] {
        case '%' => r := r + "%25";
        case '/' => r := r + "%2F";
        case c => r := r + [c];
      }
      i := i + 1;
    }
    assert s[..|s|] == s;
  }

  lemma {:induction false} EscapedHasNoSeparator(s: string)
    ensures SEPARATOR !in Escaped(s)
  {
    if s != [] {
      EscapedHasNoSeparator(s[1..]);
    }
  }

  /** The decoder the repository never needed: it reads an escaped component back. */
  ghost function Unescaped(t: string): string {
    if t == [] then []
    else if t[0] == '%' && |t| >= 3 then [if t[1..3] == "25" then '%' else SEPARATOR] + Unescaped(t[3..])
    else [t[0]] + Unescaped(t[1..])
  }

  lemma {:induction false} UnescapeInverts(s: string)
    ensures Unescaped(Escaped(s)) == s
  {
    if s != [] {
      UnescapeInverts(s[1..]);
      var head, rest := EscapedChar(s[0]), Escaped(s[1..]);
      var t := head + rest;
      assert t[|head|..] == rest;
      if |head| == 3 {
        assert t[1..3] == head[1..3];
      }
      assert s == [s[0]] + s[1..];
    }
  }

  // ---- joining ----

  /** The identifier of a list of components; the step is the first one. */
  function Encoded(parts: seq<string>): string
    requires parts != []
  {
    if |parts| == 1 then Escaped(parts[0]) else Escaped(parts[0]) + [SEPARATOR] + Encoded(parts[1..])
  }

  /** Escaped parts stand between slashes. */
  lemma {:induction false} EncodedReads(a: seq<string>, b: seq<string>)
    requires a != [] && b != []
    ensures Encoded(a + b) == Encoded(a) + "/" + Encoded(b)
    ensures |a| == 1 ==> Encoded(a) == Escaped(a[0])
  {
    hide Escaped;
    assert (a + b)[0] == a[0] && (a + b)[1..] == a[1..] + b;
    if |a| > 1 {
      EncodedReads(a[1..], b);
    } else {
      assert a[1..] + b == b;
    }
  }

  lemma EncodedOne(part: string)
    ensures Encoded([part]) == Escaped(part)
  {
  }

  lemma EncodedAppend(parts: seq<string>, part: string)
    requires parts != []
    ensures Encoded(parts + [part]) == Encoded(parts) + [SEPARATOR] + Escaped(part)
  {
    hide Escaped, Encoded;
    EncodedReads(parts, [part]);
    EncodedReads([part], parts);
  }

  ghost function Split(t: string): (r: seq<string>)
    ensures r != []
  {
    if t == [] then [[]]
    else
      var rest := Split(t[1..]);
      if t[0] == SEPARATOR then [[]] + rest else [[t[0]] + rest[0]] + rest[1..]
  }

  lemma {:induction false} SplitLast(p: string)
    requires SEPARATOR !in p
    ensures Split(p) == [p]
  {
    if p != [] {
      SplitLast(p[1..]);
      assert p == [p[0]] + p[1..];
    }
  }

  lemma {:induction false} SplitFirst(p: string, rest: string)
    requires SEPARATOR !in p
    ensures Split(p + [SEPARATOR] + rest) == [p] + Split(rest)
  {
    var t := p + [SEPARATOR] + rest;
    if p == [] {
      assert t[1..] == rest;
    } else {
      SplitFirst(p[1..], rest);
      assert t[1..] == p[1..] + [SEPARATOR] + rest;
      assert p == [p[0]] + p[1..];
    }
  }

  ghost function UnescapedEach(ts: seq<string>): (r: seq<string>)
    ensures |r| == |ts|
  {
    if ts == [] then [] else [Unescaped(ts[0])] + UnescapedEach(ts[1..])
  }

  ghost function Decoded(t: string): (r: seq<string>)
    ensures r != []
  {
    UnescapedEach(Split(t))
  }

  /** The round trip: whatever the components hold, the identifier gives them back. */
  lemma {:induction false} DecodeInverts(parts: seq<string>)
    requires parts != []
    ensures Decoded(Encoded(parts)) == parts
  {
    EscapedHasNoSeparator(parts[0]);
    UnescapeInverts(parts[0]);
    if |parts| == 1 {
      SplitLast(Escaped(parts[0]));
      assert UnescapedEach([]) == [];
    } else {
      DecodeInverts(parts[1..]);
      SplitFirst(Escaped(parts[0]), Encoded(parts[1..]));
      var ts := Split(Encoded(parts));
      assert ts[1..] == Split(Encoded(parts[1..]));
    }
    assert parts == [parts[0]] + parts[1..];
  }

  lemma EncodedInjective(a: seq<string>, b: seq<string>)
    requires a != [] && b != [] && Encoded(a) == Encoded(b)
    ensures a == b
  {
    DecodeInverts(a);
    DecodeInverts(b);
  }

  // ---- an identifier is a valid identifier ----

  predicate StartsSolid(s: string) {
    s != [] && !IsSpace(s[0])
  }

  predicate EndsSolid(s: string) {
    s != [] && !IsSpace(s[|s| - 1])
  }

  lemma {:induction false} EscapedText(s: string)
    requires NoControl(s)
    ensures NoControl(Escaped(s))
    ensures StartsSolid(s) ==> StartsSolid(Escaped(s))
    ensures EndsSolid(s) ==> EndsSolid(Escaped(s))
  {
    if s != [] {
      EscapedText(s[1..]);
      if |s| > 1 {
        assert s[1..][|s[1..]| - 1] == s[|s| - 1];
      }
    }
  }

  /** The separator is ordinary text, so an identifier is valid as soon as its first
  component starts, and its last one ends, with something visible. */
  lemma {:induction false} EncodedText(parts: seq<string>)
    requires parts != [] && forall p :: p in parts ==> NoControl(p)
    ensures NoControl(Encoded(parts))
    ensures StartsSolid(parts[0]) ==> StartsSolid(Encoded(parts))
    ensures EndsSolid(parts[|parts| - 1]) ==> EndsSolid(Encoded(parts))
    ensures StartsSolid(parts[0]) && EndsSolid(parts[|parts| - 1]) ==> ValidIdentifier(Encoded(parts))
  {
    hide Escaped;
    var first := parts[0];
    assert first in parts;
    EscapedText(first);
    if |parts| > 1 {
      EncodedText(parts[1..]);
      assert parts[1..][|parts[1..]| - 1] == parts[|parts| - 1];
      JoinedText(Escaped(first), Encoded(parts[1..]));
    }
  }

  lemma JoinedText(a: string, b: string)
    requires NoControl(a) && NoControl(b)
    ensures NoControl(a + [SEPARATOR] + b)
    ensures StartsSolid(a) ==> StartsSolid(a + [SEPARATOR] + b)
    ensures EndsSolid(b) ==> EndsSolid(a + [SEPARATOR] + b)
  {
  }

  // ---- sweep scopes ----

  datatype SweepScope = SweepScope(text: string) {
    predicate IsZero() {
      text == ""
    }

    /** What NewSweepScope produces, or the zero value. */
    predicate Built() {
      IsZero() || ValidIdentifier(text)
    }
  }

  const ZERO_SCOPE := SweepScope("")

  function NewSweepScope(text: string): (r: Result<SweepScope>)
    ensures r.Ok? <==> ValidIdentifier(text)
    ensures r.Ok? ==> r.value.text == text && !r.value.IsZero()
  {
    if text == "" then Err(ErrInvalidInput)
    else if !Trimmed(text) then Err(ErrInvalidInput)
    else if !NoControl(text) then Err(ErrInvalidInput)
    else Ok(SweepScope(text))
  }

  /** The scope is one more component, between the step and the others, or none. */
  function Parts(scope: SweepScope, step: Step, components: seq<string>): seq<string> {
    [step] + (if scope.IsZero() then [] else [scope.text]) + components
  }

  method ScopedEvidenceID(scope: SweepScope, step: Step, components: seq<string>) returns (id: EvidenceID)
    ensures id == Encoded(Parts(scope, step, components))
    ensures scope.text == "" ==> id == Encoded([step] + components)
    ensures scope.text != "" ==> id == Encoded([step, scope.text] + components)
  {
    hide Escaped, Encoded;
    id := Escape(step);
    ghost var parts := [step];
    EncodedOne(step);
    if !scope.IsZero() {
      var escaped := Escape(scope.text);
      EncodedAppend(parts, scope.text);
      id := id + [SEPARATOR] + escaped;
      parts := parts + [scope.text];
    }
    ghost var head := parts;
    var i := 0;
    while i < |components|
      invariant 0 <= i <= |components|
      invariant parts == head + components[..i] && parts != []
      invariant id == Encoded(parts)
    {
      var component := Escape(components[i]);
      EncodedAppend(parts, components[i]);
      id := id + [SEPARATOR] + component;
      parts := parts + [components[i]];
      i := i + 1;
    }
    assert parts == Parts(scope, step, components);
    assert [step] + [scope.text] == [step, scope.text];
  }

  method EvidenceIDOf(step: Step, components: seq<string>) returns (id: EvidenceID)
    ensures id == Encoded([step] + components)
  {
    id := ScopedEvidenceID(ZERO_SCOPE, step, components);
    assert Parts(ZERO_SCOPE, step, components) == [step] + components;
  }

  /** Two scoped identifiers collide only when step, scope and every component match. */
  lemma ScopedInjective(s: SweepScope, stepA: Step, a: seq<string>, t: SweepScope, stepB: Step, b: seq<string>)
    requires !s.IsZero() && !t.IsZero()
    ensures Encoded(Parts(s, stepA, a)) == Encoded(Parts(t, stepB, b)) <==> s == t && stepA == stepB && a == b
  {
    var p, q := Parts(s, stepA, a), Parts(t, stepB, b);
    if Encoded(p) == Encoded(q) {
      EncodedInjective(p, q);
      assert p[0] == stepA && p[1] == s.text && p[2..] == a;
      assert q[0] == stepB && q[1] == t.text && q[2..] == b;
    }
  }

  /** An unscoped identifier is a scoped one exactly when its first component is the
  scope's text and the rest are the same. */
  lemma UnscopedMeetsScoped(stepA: Step, a: seq<string>, s: SweepScope, stepB: Step, b: seq<string>)
    requires !s.IsZero()
    ensures Encoded(Parts(ZERO_SCOPE, stepA, a)) == Encoded(Parts(s, stepB, b)) <==> stepA == stepB && a == [s.text] + b
  {
    var p, q := Parts(ZERO_SCOPE, stepA, a), Parts(s, stepB, b);
    assert p == [stepA] + a && q == [stepB] + ([s.text] + b);
    if Encoded(p) == Encoded(q) {
      EncodedInjective(p, q);
      assert p[0] == stepA && p[1..] == a;
      assert q[0] == stepB && q[1..] == [s.text] + b;
    }
  }

  /** While a step mints a fixed number of components, scoped and unscoped identifiers
  never meet. */
  lemma FixedArityKeepsApart(step: Step, s: SweepScope, a: seq<string>, b: seq<string>)
    requires !s.IsZero() && |a| == |b|
    ensures Encoded(Parts(ZERO_SCOPE, step, a)) != Encoded(Parts(s, step, b))
  {
    UnscopedMeetsScoped(step, a, s, step, b);
  }

  /** Without a fixed number of components they can share one text. */
  lemma VaryingArityCollides()
    ensures Encoded(Parts(ZERO_SCOPE, "dns.lookup", ["a", "b"])) == Encoded(Parts(SweepScope("a"), "dns.lookup", ["b"]))
  {
    UnscopedMeetsScoped("dns.lookup", ["a", "b"], SweepScope("a"), "dns.lookup", ["b"]);
  }

  // ---- the scope of one advertisement's sweep ----

  newtype Byte = x: int | 0 <= x < 256

  const HEX_DIGITS := "0123456789abcdef"

  /** hex.EncodeToString. */
  function HexText(bytes: seq<Byte>): string {
    if bytes == [] then []
    else [HEX_DIGITS[bytes[0] as int / 16], HEX_DIGITS[bytes[0] as int % 16]] + HexText(bytes[1..])
  }

  /** The value of a small hexadecimal digit. */
  ghost function HexValue(c: char): int {
    if '0' <= c <= '9' then c as int - '0' as int else c as int - 'a' as int + 10
  }

  /** Two small hexadecimal digits a byte, the high half first, in the order of the bytes. */
  lemma {:induction false} HexTextReads(bytes: seq<Byte>, i: nat)
    requires i < |bytes|
    ensures |HexText(bytes)| == 2 * |bytes|
    ensures HexDigit(HexText(bytes)[2 * i]) && HexDigit(HexText(bytes)[2 * i + 1])
    ensures bytes[i] as int == 16 * HexValue(HexText(bytes)[2 * i]) + HexValue(HexText(bytes)[2 * i + 1])
  {
    HexTextDigits(bytes);
    if i == 0 {
      HexDigits(bytes[0] as int / 16);
      HexDigits(bytes[0] as int % 16);
    } else {
      HexTextReads(bytes[1..], i - 1);
      assert HexText(bytes)[2..] == HexText(bytes[1..]);
    }
  }

  lemma HexDigits(d: int)
    requires 0 <= d < 16
    ensures HexDigit(HEX_DIGITS[d]) && HexValue(HEX_DIGITS[d]) == d
  {
    assert HEX_DIGITS == [
      '0', '1', '2', '3', '4', '5', '6', '7', '8', '9', 'a', 'b', 'c', 'd', 'e', 'f'];
  }

  predicate HexDigit(c: char) {
    '0' <= c <= '9' || 'a' <= c <= 'f'
  }

  lemma {:induction false} HexTextDigits(bytes: seq<Byte>)
    ensures |HexText(bytes)| == 2 * |bytes|
    ensures forall c :: c in HexText(bytes) ==> HexDigit(c)
  {
    if bytes != [] {
      HexTextDigits(bytes[1..]);
      assert forall i :: 0 <= i < 16 ==> HexDigit(HEX_DIGITS[i]);
    }
  }

  lemma {:induction false} HexTextInjective(a: seq<Byte>, b: seq<Byte>)
    requires HexText(a) == HexText(b)
    ensures a == b
  {
    HexTextDigits(a);
    HexTextDigits(b);
    if a != [] && b != [] {
      var s, t := HexText(a), HexText(b);
      assert s[2..] == HexText(a[1..]) && t[2..] == HexText(b[1..]);
      HexTextInjective(a[1..], b[1..]);
      HexDigitInjective(a[0] as int / 16, b[0] as int / 16);
      HexDigitInjective(a[0] as int % 16, b[0] as int % 16);
      assert s[0] == t[0] && s[1] == t[1];
      assert a == [a[0]] + a[1..] && b == [b[0]] + b[1..];
    }
  }

  lemma HexDigitInjective(i: int, j: int)
    requires 0 <= i < 16 && 0 <= j < 16
    ensures HEX_DIGITS[i] == HEX_DIGITS[j] ==> i == j
  {
    HexDigits(i);
    HexDigits(j);
  }

  const ADVERTISED_SCOPE_PREFIX := "advertised."

  /** The scope's text is derived from the advertisement's identifier through a digest,
  which is a parameter. The text is always a valid scope, so the call never fails. */
  method AdvertisedScope(sha256: string -> seq<Byte>, advertisement: EvidenceID) returns (r: Result<SweepScope>)
    ensures r == Ok(ScopeOf(sha256, advertisement)) && !r.value.IsZero()
    ensures r.value.text == "advertised." + HexText(sha256(advertisement))
  {
    var digest := sha256(advertisement);
    ScopeTextIsValid(digest);
    r := NewSweepScope(ADVERTISED_SCOPE_PREFIX + HexText(digest));
  }

  function ScopeOf(sha256: string -> seq<Byte>, advertisement: EvidenceID): SweepScope {
    SweepScope(ADVERTISED_SCOPE_PREFIX + HexText(sha256(advertisement)))
  }

  lemma ScopeTextIsValid(digest: seq<Byte>)
    ensures ValidIdentifier(ADVERTISED_SCOPE_PREFIX + HexText(digest))
  {
    hide HexText;
    HexTextDigits(digest);
    var hex := HexText(digest);
    var text := ADVERTISED_SCOPE_PREFIX + hex;
    if hex == [] {
      assert text == ADVERTISED_SCOPE_PREFIX;
    } else {
      assert hex[|hex| - 1] in hex && text[|text| - 1] == hex[|hex| - 1];
    }
    assert text[0] == 'a';
    assert forall c :: c in text ==> c in ADVERTISED_SCOPE_PREFIX || c in hex;
  }

  /** Sweeps of two advertisements whose digests differ share no identifier, even for
  the same step measuring the same endpoint. */
  lemma SweepsStayApart(
    sha256: string -> seq<Byte>, adA: EvidenceID, stepA: Step, a: seq<string>, adB: EvidenceID, stepB: Step,
    b: seq<string>)
    requires sha256(adA) != sha256(adB)
    ensures Encoded(Parts(ScopeOf(sha256, adA), stepA, a)) != Encoded(Parts(ScopeOf(sha256, adB), stepB, b))
  {
    var p, q := ADVERTISED_SCOPE_PREFIX, ADVERTISED_SCOPE_PREFIX;
    var s, t := ScopeOf(sha256, adA), ScopeOf(sha256, adB);
    ScopedInjective(s, stepA, a, t, stepB, b);
    if s == t {
      assert s.text[|p|..] == HexText(sha256(adA)) && t.text[|q|..] == HexText(sha256(adB));
      HexTextInjective(sha256(adA), sha256(adB));
    }
  }
}
