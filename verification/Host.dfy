/** Hosts, addresses and endpoints as the probes read and print them. */
module Hosts {
  import opened Text
  import opened Results
  import opened Decimals
  import opened Identifiers

  /** An IP address: as netip prints it, its zone, and as it prints when unmapped. */
  datatype Addr = Addr(text: string, zone: string, unmapped: string)

  /** netip.ParseAddr. */
  type AddrParser = string -> Option<Addr>

  /** Visible text without any whitespace. */
  predicate Plain(s: string) {
    s != [] && forall c :: c in s ==> !IsControl(c) && !IsSpace(c)
  }

  /** What netip guarantees: an address is read back from its own text, and without a
  zone both spellings are digits, dots and colons. */
  ghost predicate SoundParser(parseAddr: AddrParser) {
    forall h :: parseAddr(h).Some? ==>
      && parseAddr(parseAddr(h).value.text) == parseAddr(h)
      && (parseAddr(h).value.zone == "" ==> Plain(h) && Plain(parseAddr(h).value.unmapped))
  }

  /** What a host is once classified: a name to resolve, or an address in hand. */
  datatype Host = Name(name: string) | Literal(addr: string)

  /** Anything the parser rejects is a name; an address with a zone is refused. */
  function ParseHost(parseAddr: AddrParser, host: string): (r: Result<Host>)
    ensures r.Ok? <==> host != "" && (parseAddr(host).Some? ==> parseAddr(host).value.zone == "")
    ensures r.Ok? ==> (r.value.Literal? <==> parseAddr(host).Some?)
    ensures r.Ok? && r.value.Literal? ==> r.value.addr == parseAddr(host).value.unmapped
  {
    if host == "" then Err(ErrInvalidInput)
    else
      match parseAddr(host)
      case None => Ok(Name(host))
      case Some(addr) => if addr.zone != "" then Err(ErrInvalidInput) else Ok(Literal(addr.unmapped))
  }

  /** The lookup's own rule for a name it will ask about. */
  predicate ValidLookupHost(host: string) {
    && host != ""
    && Trimmed(host)
    && forall c :: c in host ==> !IsControl(c) && !IsSpace(c)
  }

  lemma LookupHostIsPlain(host: string)
    ensures ValidLookupHost(host) <==> Plain(host)
  {
    if Plain(host) {
      assert host[0] in host && host[|host| - 1] in host;
    }
  }

  function Bracketed(host: string): string {
    if ':' in host then "[" + host + "]" else host
  }

  /** net.JoinHostPort: an address with colons is bracketed. */
  function JoinHostPort(host: string, port: int): string {
    Bracketed(host) + ":" + Decimal(port)
  }

  /** An endpoint starts as visibly as its host and ends with a digit. */
  lemma EndpointText(host: string, port: int)
    requires NoControl(host) && StartsSolid(host)
    ensures NoControl(JoinHostPort(host, port)) && ValidIdentifier(JoinHostPort(host, port))
  {
    hide Decimal;
    DecimalText(port);
    var text := JoinHostPort(host, port);
    assert text[0] == if ':' in host then '[' else host[0];
    assert text[|text| - 1] == Decimal(port)[|Decimal(port)| - 1];
    assert forall c :: c in text ==> c in host || c in Decimal(port) || c in "[]:";
  }

  lemma PlainText(s: string)
    requires Plain(s)
    ensures NoControl(s) && StartsSolid(s) && EndsSolid(s) && ValidIdentifier(s)
  {
    assert s[0] in s && s[|s| - 1] in s;
  }
}
