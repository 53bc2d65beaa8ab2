/** The brokers one Metadata response advertises: normalized, listed once each, and
recorded under identifiers that never collide. */
module Advertisements {
  import opened Text
  import opened Orders
  import opened Decimals
  import opened Evidences
  import opened Hosts

  const STEP_BROKER_ADVERTISED: Step := "kafka.broker_advertised"

  datatype MetadataBroker = MetadataBroker(nodeID: int32, host: string, port: int32)

  datatype Advertisement = Advertisement(
    nodeID: int32,
    host: string,
    rawPort: int32,
    port: nat,
    usable: bool,
    ref: string,
    subject: Subject)

  // ---- normalization ----

  function LowerChar(c: char): char {
    if 'A' <= c <= 'Z' then (c as int + 32) as char else c
  }

  ghost function Lowered(s: string): string {
    seq(|s|, i requires 0 <= i < |s| => LowerChar(s[i]))
  }

  /** The copy is made only when the first upper-case letter is met. The twenty-six capital
  letters come out 32 further on, and nothing else changes. */
  method AsciiLower(s: string) returns (r: string)
    ensures r == Lowered(s)
    ensures |r| == |s|
    ensures forall i :: 0 <= i < |s| && 'A' <= s[i] <= 'Z' ==> r[i] as int == s[i] as int + 32
    ensures forall i :: 0 <= i < |s| && !('A' <= s[i] <= 'Z') ==> r[i] == s[i]
  {
    var copied := false;
    var b: string := [];
    var i := 0;
    while i < |s|
      invariant 0 <= i <= |s|
      invariant !copied ==> forall k :: 0 <= k < i ==> LowerChar(s[k]) == s[k]
      invariant copied ==> |b| == |s|
      invariant copied ==> forall k :: 0 <= k < |s| ==> b[k] == if k < i then LowerChar(s[k]) else s[k]
    {
      if 'A' <= s[i] <= 'Z' {
        if !copied {
          b := s;
          copied := true;
        }
        b := b[i := (s[i] as int + 32) as char];
      }
      i := i + 1;
    }
    r := if copied then b else s;
  }

  ghost function NormalHost(parseAddr: AddrParser, host: string): string {
    if host == "" then ""
    else if parseAddr(host).Some? then parseAddr(host).value.text
    else if |host| > 1 && host[|host| - 1] == '.' then Lowered(host[..|host| - 1])
    else Lowered(host)
  }

  /** An address in its canonical text; a name without one trailing dot, in small ASCII
  letters. */
  method NormalizeAdvertisedHost(parseAddr: AddrParser, host: string) returns (r: string)
    ensures r == NormalHost(parseAddr, host)
    ensures host != "" && parseAddr(host).Some? ==> r == parseAddr(host).value.text
    ensures host == "" || parseAddr(host).None? ==>
      && |r| == (if |host| > 1 && host[|host| - 1] == '.' then |host| - 1 else |host|)
      && forall i :: 0 <= i < |r| ==>
        if 'A' <= host[i] <= 'Z' then r[i] as int == host[i] as int + 32 else r[i] == host[i]
  {
    if host == "" {
      return "";
    }
    var addr := parseAddr(host);
    if addr.Some? {
      return addr.value.text;
    }
    var name := host;
    if |name| > 1 && name[|name| - 1] == '.' {
      name := name[..|name| - 1];
    }
    r := AsciiLower(name);
  }

  ghost function Bare(name: string): string {
    if |name| > 1 && name[|name| - 1] == '.' then name[..|name| - 1] else name
  }

  lemma LoweredTwice(s: string)
    ensures Lowered(Lowered(s)) == Lowered(s)
  {
  }

  /** The same character, or one of the twenty-six capitals and its small letter. */
  ghost predicate SameLetter(a: char, b: char) {
    || a == b
    || ('A' <= a <= 'Z' && b as int == a as int + 32)
    || ('A' <= b <= 'Z' && a as int == b as int + 32)
  }

  ghost predicate SameLetters(a: string, b: string) {
    |a| == |b| && forall i :: 0 <= i < |a| ==> SameLetter(a[i], b[i])
  }

  lemma LoweredAgree(a: string, b: string)
    ensures Lowered(a) == Lowered(b) <==> SameLetters(a, b)
  {
    assert |Lowered(a)| == |a| && |Lowered(b)| == |b|;
    if |a| == |b| {
      forall i | 0 <= i < |a| ensures Lowered(a)[i] == Lowered(b)[i] <==> SameLetter(a[i], b[i]) {
      }
    }
  }

  /** Two names are one host exactly when, without the one trailing dot each may have, they
  differ at most in the case of ASCII letters. */
  lemma NamesAgree(parseAddr: AddrParser, a: string, b: string)
    requires a != "" && b != "" && parseAddr(a).None? && parseAddr(b).None?
    ensures NormalHost(parseAddr, a) == NormalHost(parseAddr, b) <==> SameLetters(Bare(a), Bare(b))
  {
    LoweredAgree(Bare(a), Bare(b));
  }

  /** Two addresses are one host exactly when they are the same address. */
  lemma AddressesAgree(parseAddr: AddrParser, a: string, b: string)
    requires SoundParser(parseAddr) && a != "" && b != "" && parseAddr(a).Some? && parseAddr(b).Some?
    ensures NormalHost(parseAddr, a) == NormalHost(parseAddr, b) <==> parseAddr(a) == parseAddr(b)
  {
    hide Plain;
    assert parseAddr(parseAddr(a).value.text) == parseAddr(a);
    assert parseAddr(parseAddr(b).value.text) == parseAddr(b);
  }

  predicate EndsInTwoDots(host: string) {
    |host| > 2 && host[|host| - 1] == '.' && host[|host| - 2] == '.'
  }

  /** Normalizing again changes nothing, unless a name ends in two dots, or without its dot
  and in lower case reads as an address that is spelled otherwise. */
  lemma NormalizingAgain(parseAddr: AddrParser, host: string)
    requires SoundParser(parseAddr)
    ensures NormalHost(parseAddr, NormalHost(parseAddr, host)) == NormalHost(parseAddr, host) <==>
      || host == ""
      || parseAddr(host).Some?
      || match parseAddr(Lowered(Bare(host)))
        case Some(addr) => addr.text == Lowered(Bare(host))
        case None => !EndsInTwoDots(host)
  {
    hide Plain;
    var name := Bare(host);
    if host != "" && parseAddr(host).Some? {
      assert parseAddr(parseAddr(host).value.text) == parseAddr(host);
    } else if host != "" {
      LoweredTwice(name);
      assert Lowered(name)[|name| - 1] == LowerChar(name[|name| - 1]);
    }
  }

  /** Two trailing dots are such a case. */
  lemma TwoDotsShrinkTwice(parseAddr: AddrParser)
    requires parseAddr("a..").None? && parseAddr("a.").None?
    ensures EndsInTwoDots("a..") && NormalHost(parseAddr, "a..") == "a." && NormalHost(parseAddr, "a.") == "a"
  {
    assert "a.."[..2] == "a." && "a."[..1] == "a";
    assert Lowered("a.") == "a." && Lowered("a") == "a";
  }

  function AdvertisedRef(host: string, port: int32): string {
    JoinHostPort(host, port)
  }

  /** The text of an advertised endpoint determines its host and its port. */
  lemma AdvertisedRefInjective(hostA: string, portA: int32, hostB: string, portB: int32)
    requires AdvertisedRef(hostA, portA) == AdvertisedRef(hostB, portB)
    ensures hostA == hostB && portA == portB
  {
    hide Decimal;
    DecimalText(portA);
    DecimalText(portB);
    LastPartAgrees(Bracketed(hostA), Decimal(portA), Bracketed(hostB), Decimal(portB), ':');
    DecimalInjective(portA, portB);
    assert ':' in hostA ==> Bracketed(hostA)[1..|hostA| + 1] == hostA;
    assert ':' in hostB ==> Bracketed(hostB)[1..|hostB| + 1] == hostB;
  }

  /** A tail without the separator is determined by the text after the last one. */
  lemma LastPartAgrees(x: string, xs: string, y: string, ys: string, c: char)
    requires c !in xs && c !in ys
    requires x + [c] + xs == y + [c] + ys
    ensures x == y && xs == ys
  {
    var s, t := x + [c] + xs, y + [c] + ys;
    assert s[|x|] == c && t[|y|] == c;
    assert forall i :: |x| < i < |s| ==> s[i] == xs[i - |x| - 1];
    assert forall i :: |y| < i < |t| ==> t[i] == ys[i - |y| - 1];
    assert |x| == |y|;
    assert x == s[..|x|] && y == t[..|y|];
    assert xs == s[|x| + 1..] && ys == t[|y| + 1..];
  }

  predicate UsableEndpoint(host: string, port: int32) {
    host != "" && 0 < port <= 65535
  }

  /** The entry a broker's node identifier, normalized host and port make. */
  function EntryOf(nodeID: int32, host: string, port: int32): Advertisement {
    var usable := UsableEndpoint(host, port);
    Advertisement(nodeID, host, port, if usable then port else 0, usable, AdvertisedRef(host, port), ZERO_SUBJECT)
  }

  ghost function Normalized(parseAddr: AddrParser, broker: MetadataBroker): Advertisement {
    EntryOf(broker.nodeID, NormalHost(parseAddr, broker.host), broker.port)
  }

  method NormalizeAdvertisement(parseAddr: AddrParser, broker: MetadataBroker) returns (entry: Advertisement)
    ensures entry == Normalized(parseAddr, broker)
    ensures entry.nodeID == broker.nodeID && entry.rawPort == broker.port && entry.subject == ZERO_SUBJECT
    ensures entry.host == NormalHost(parseAddr, broker.host)
    ensures entry.usable <==> entry.host != "" && 1 <= broker.port < 65536
    ensures entry.port == if entry.usable then broker.port else 0
    ensures entry.ref == (if ':' in entry.host then "[" + entry.host + "]" else entry.host) + ":" + Decimal(broker.port)
  {
    hide Decimal;
    var host := NormalizeAdvertisedHost(parseAddr, broker.host);
    entry := EntryOf(broker.nodeID, host, broker.port);
  }

  ghost predicate IsEntry(e: Advertisement) {
    e == EntryOf(e.nodeID, e.host, e.rawPort)
  }

  // ---- listing each advertisement once ----

  function Key(e: Advertisement): string {
    Decimal(e.nodeID) + [NUL] + e.ref
  }

  /** The key tells two entries apart whenever anything about them differs. */
  lemma KeyNamesEntry(a: Advertisement, b: Advertisement)
    requires IsEntry(a) && IsEntry(b) && ValidIdentifier(a.ref) && ValidIdentifier(b.ref)
    ensures Key(a) == Key(b) <==> a == b
  {
    hide Decimal, AdvertisedRef;
    if Key(a) == Key(b) {
      DecimalText(a.nodeID);
      DecimalText(b.nodeID);
      FirstPartAgrees(Decimal(a.nodeID), a.ref, Decimal(b.nodeID), b.ref);
      DecimalInjective(a.nodeID, b.nodeID);
      AdvertisedRefInjective(a.host, a.rawPort, b.host, b.rawPort);
    }
  }

  ghost predicate Representable(parseAddr: AddrParser, broker: MetadataBroker) {
    ValidIdentifier(Normalized(parseAddr, broker).ref)
  }

  /** Broker k says again, byte for byte, what an earlier one said. */
  ghost predicate Repeats(parseAddr: AddrParser, brokers: seq<MetadataBroker>, k: nat)
    requires k < |brokers|
  {
    exists j :: 0 <= j < k && Normalized(parseAddr, brokers[j]) == Normalized(parseAddr, brokers[k])
  }

  ghost predicate FirstSaid(parseAddr: AddrParser, brokers: seq<MetadataBroker>, k: nat)
    requires k < |brokers|
  {
    Representable(parseAddr, brokers[k]) && !Repeats(parseAddr, brokers, k)
  }

  ghost function Named(e: Advertisement): Advertisement {
    e.(subject := Subject(SubjectKindEndpoint, e.ref))
  }

  /** The list holds one entry per broker that first said it, in the broker's order,
  and what could not be said at all is counted. */
  ghost predicate IsListing(
    parseAddr: AddrParser, brokers: seq<MetadataBroker>, n: nat, out: seq<Advertisement>, at: seq<nat>,
    unrepresentable: nat)
    requires n <= |brokers|
  {
    && |out| == |at|
    && (forall i, j :: 0 <= i < j < |at| ==> at[i] < at[j])
    && (forall k :: k in at <==> 0 <= k < n && FirstSaid(parseAddr, brokers, k))
    && (forall i :: 0 <= i < |out| ==> at[i] < n && out[i] == Named(Normalized(parseAddr, brokers[at[i]])))
    && unrepresentable == |Unsayable(parseAddr, brokers, n)|
  }

  ghost function Unsayable(parseAddr: AddrParser, brokers: seq<MetadataBroker>, n: nat): set<nat>
    requires n <= |brokers|
  {
    set k | 0 <= k < n && !Representable(parseAddr, brokers[k])
  }

  ghost function Repeated(parseAddr: AddrParser, brokers: seq<MetadataBroker>, n: nat): set<nat>
    requires n <= |brokers|
  {
    set k | 0 <= k < n && Representable(parseAddr, brokers[k]) && Repeats(parseAddr, brokers, k)
  }

  /** The keys of the entries listed so far. */
  ghost predicate KeysSeen(parseAddr: AddrParser, brokers: seq<MetadataBroker>, n: nat, seen: set<string>)
    requires n <= |brokers|
  {
    forall key :: key in seen <==>
      exists k :: 0 <= k < n && Representable(parseAddr, brokers[k]) && Key(Normalized(parseAddr, brokers[k])) == key
  }

  method AdvertisementsOf(failed: bool, parseAddr: AddrParser, brokers: seq<MetadataBroker>)
    returns (out: seq<Advertisement>, unrepresentable: nat)
    ensures failed ==> out == [] && unrepresentable == 0
    ensures !failed ==> exists at :: IsListing(parseAddr, brokers, |brokers|, out, at, unrepresentable)
    ensures !failed ==> ListsEachOnce(parseAddr, brokers, out)
  {
    hide IsListing, ListsEachOnce, KeysSeen, Normalized, Representable, Key, ValidIdentifier;
    out, unrepresentable := [], 0;
    ghost var at: seq<nat> := [];
    ListingStarts(parseAddr, brokers);
    if failed {
      return;
    }
    var seen: set<string> := {};
    var i := 0;
    while i < |brokers|
      invariant 0 <= i <= |brokers|
      invariant IsListing(parseAddr, brokers, i, out, at, unrepresentable)
      invariant KeysSeen(parseAddr, brokers, i, seen)
    {
      var entry := NormalizeAdvertisement(parseAddr, brokers[i]);
      var subject := NewEndpointSubject(entry.ref);
      RepresentableRef(parseAddr, brokers[i]);
      if subject.Err? {
        CannotSay(parseAddr, brokers, i, out, at, unrepresentable, seen);
        unrepresentable := unrepresentable + 1;
      } else {
        var named := entry.(subject := subject.value);
        SaysAgain(parseAddr, brokers, i, seen);
        var key := Key(entry);
        if key in seen {
          SaidBefore(parseAddr, brokers, i, out, at, unrepresentable, seen);
        } else {
          SaidFirst(parseAddr, brokers, i, out, at, unrepresentable, seen);
          seen := seen + {key};
          out := out + [named];
          at := at + [i];
        }
      }
      i := i + 1;
    }
    ListingIsOnce(parseAddr, brokers, out, at, unrepresentable);
  }

  lemma ListingStarts(parseAddr: AddrParser, brokers: seq<MetadataBroker>)
    ensures IsListing(parseAddr, brokers, 0, [], [], 0)
    ensures KeysSeen(parseAddr, brokers, 0, {})
  {
    assert Unsayable(parseAddr, brokers, 0) == {};
  }

  lemma RepresentableRef(parseAddr: AddrParser, broker: MetadataBroker)
    ensures Representable(parseAddr, broker) <==> ValidIdentifier(Normalized(parseAddr, broker).ref)
  {
  }

  lemma NormalizedIsEntry(parseAddr: AddrParser, broker: MetadataBroker)
    ensures IsEntry(Normalized(parseAddr, broker))
  {
  }

  /** A representable broker's key was seen exactly when it says something again. */
  lemma SaysAgain(parseAddr: AddrParser, brokers: seq<MetadataBroker>, i: nat, seen: set<string>)
    requires i < |brokers| && KeysSeen(parseAddr, brokers, i, seen) && Representable(parseAddr, brokers[i])
    ensures Key(Normalized(parseAddr, brokers[i])) in seen <==> Repeats(parseAddr, brokers, i)
  {
    hide Normalized, Key, IsEntry, ValidIdentifier;
    var entry := Normalized(parseAddr, brokers[i]);
    forall k | 0 <= k < i && Representable(parseAddr, brokers[k])
      ensures Key(Normalized(parseAddr, brokers[k])) == Key(entry) <==> Normalized(parseAddr, brokers[k]) == entry
    {
      NormalizedIsEntry(parseAddr, brokers[k]);
      NormalizedIsEntry(parseAddr, brokers[i]);
      KeyNamesEntry(Normalized(parseAddr, brokers[k]), entry);
    }
  }

  lemma UnsayableNext(parseAddr: AddrParser, brokers: seq<MetadataBroker>, i: nat)
    requires i < |brokers|
    ensures |Unsayable(parseAddr, brokers, i + 1)| ==
      |Unsayable(parseAddr, brokers, i)| + if Representable(parseAddr, brokers[i]) then 0 else 1
  {
    hide Representable;
    var before, after := Unsayable(parseAddr, brokers, i), Unsayable(parseAddr, brokers, i + 1);
    if Representable(parseAddr, brokers[i]) {
      assert after == before;
    } else {
      assert after == before + {i} && i !in before;
    }
  }

  lemma CannotSay(
    parseAddr: AddrParser, brokers: seq<MetadataBroker>, i: nat, out: seq<Advertisement>, at: seq<nat>,
    unrepresentable: nat,
    seen: set<string>)
    requires i < |brokers| && IsListing(parseAddr, brokers, i, out, at, unrepresentable)
    requires KeysSeen(parseAddr, brokers, i, seen) && !Representable(parseAddr, brokers[i])
    ensures IsListing(parseAddr, brokers, i + 1, out, at, unrepresentable + 1)
    ensures KeysSeen(parseAddr, brokers, i + 1, seen)
  {
    hide Representable, Normalized, Key;
    UnsayableNext(parseAddr, brokers, i);
  }

  lemma SaidBefore(
    parseAddr: AddrParser, brokers: seq<MetadataBroker>, i: nat, out: seq<Advertisement>, at: seq<nat>,
    unrepresentable: nat,
    seen: set<string>)
    requires i < |brokers| && IsListing(parseAddr, brokers, i, out, at, unrepresentable)
    requires KeysSeen(parseAddr, brokers, i, seen) && Representable(parseAddr, brokers[i])
    requires Repeats(parseAddr, brokers, i)
    requires Key(Normalized(parseAddr, brokers[i])) in seen
    ensures IsListing(parseAddr, brokers, i + 1, out, at, unrepresentable)
    ensures KeysSeen(parseAddr, brokers, i + 1, seen)
  {
    hide Representable, Normalized, Key, Repeats;
    UnsayableNext(parseAddr, brokers, i);
  }

  lemma SaidFirst(
    parseAddr: AddrParser, brokers: seq<MetadataBroker>, i: nat, out: seq<Advertisement>, at: seq<nat>,
    unrepresentable: nat,
    seen: set<string>)
    requires i < |brokers| && IsListing(parseAddr, brokers, i, out, at, unrepresentable)
    requires KeysSeen(parseAddr, brokers, i, seen) && Representable(parseAddr, brokers[i])
    requires !Repeats(parseAddr, brokers, i)
    ensures var entry := Normalized(parseAddr, brokers[i]);
      && IsListing(parseAddr, brokers, i + 1, out + [Named(entry)], at + [i], unrepresentable)
      && KeysSeen(parseAddr, brokers, i + 1, seen + {Key(entry)})
  {
    hide Representable, Normalized, Key, Repeats;
    UnsayableNext(parseAddr, brokers, i);
    var more := at + [i];
    assert forall k :: 0 <= k < |at| ==> at[k] in at && at[k] < i;
    forall k ensures k in more <==> 0 <= k < i + 1 && FirstSaid(parseAddr, brokers, k) {
    }
  }

  ghost function Listed(parseAddr: AddrParser, brokers: seq<MetadataBroker>, n: nat): set<nat>
    requires n <= |brokers|
  {
    set k | 0 <= k < n && FirstSaid(parseAddr, brokers, k)
  }

  lemma ListedAre(
    parseAddr: AddrParser, brokers: seq<MetadataBroker>, out: seq<Advertisement>, at: seq<nat>, unrepresentable: nat)
    requires IsListing(parseAddr, brokers, |brokers|, out, at, unrepresentable)
    ensures |Listed(parseAddr, brokers, |brokers|)| == |out|
    ensures |Unsayable(parseAddr, brokers, |brokers|)| == unrepresentable
  {
    hide FirstSaid, Unsayable, Normalized;
    var listed := Listed(parseAddr, brokers, |brokers|);
    assert listed == set k | k in at;
    ListedCount(at, listed);
  }

  /** Every index is first said, repeated or unsayable, and only one of them. */
  lemma IndicesSplit(parseAddr: AddrParser, brokers: seq<MetadataBroker>)
    ensures var n := |brokers|;
      n == |Listed(parseAddr, brokers, n)| + |Repeated(parseAddr, brokers, n)| + |Unsayable(parseAddr, brokers, n)|
  {
    hide Representable, Repeats;
    var n := |brokers|;
    var listed, repeated, unsayable :=
      Listed(parseAddr, brokers, n), Repeated(parseAddr, brokers, n), Unsayable(parseAddr, brokers, n);
    forall k: nat ensures k in Indices(n) <==> k in listed || k in repeated || k in unsayable {
    }
    CountThree(Indices(n), listed, repeated, unsayable);
  }

  lemma CountThree<T>(all: set<T>, a: set<T>, b: set<T>, c: set<T>)
    requires forall x :: x in all <==> x in a || x in b || x in c
    requires a !! b && a !! c && b !! c
    ensures |all| == |a| + |b| + |c|
  {
    assert all == a + b + c;
    assert |a + b| == |a| + |b|;
    assert |a + b + c| == |a + b| + |c|;
  }

  /** Nothing is lost: every entry the response carried is listed, repeats one that
  is, or is counted as unrepresentable. */
  lemma EveryEntryAccounted(
    parseAddr: AddrParser, brokers: seq<MetadataBroker>, out: seq<Advertisement>, at: seq<nat>, unrepresentable: nat)
    requires IsListing(parseAddr, brokers, |brokers|, out, at, unrepresentable)
    ensures |brokers| == |out| + |Repeated(parseAddr, brokers, |brokers|)| + unrepresentable
    ensures forall k :: 0 <= k < |brokers| && Representable(parseAddr, brokers[k]) ==>
      Named(Normalized(parseAddr, brokers[k])) in out
  {
    hide Representable, Normalized, Repeats, IsListing, Unsayable, Repeated;
    var n := |brokers|;
    ListedAre(parseAddr, brokers, out, at, unrepresentable);
    IndicesSplit(parseAddr, brokers);
    forall k | 0 <= k < n && Representable(parseAddr, brokers[k])
      ensures Named(Normalized(parseAddr, brokers[k])) in out
    {
      FirstToSay(parseAddr, brokers, out, at, unrepresentable, k);
    }
  }

  /** No two entries of a listing are of one node, host and port, and every broker whose
  endpoint can be written down has its entry. */
  ghost predicate ListsEachOnce(parseAddr: AddrParser, brokers: seq<MetadataBroker>, out: seq<Advertisement>) {
    && (forall i, j :: 0 <= i < j < |out| ==>
      out[i].nodeID != out[j].nodeID || out[i].host != out[j].host || out[i].rawPort != out[j].rawPort)
    && (forall k :: 0 <= k < |brokers| && ValidIdentifier(JoinHostPort(
      NormalHost(parseAddr, brokers[k].host), brokers[k].port)) ==>
      exists e :: e in out && Lists(parseAddr, brokers[k], e))
    && (forall e :: e in out ==> exists k :: 0 <= k < |brokers| && Lists(parseAddr, brokers[k], e))
  }

  ghost predicate Lists(parseAddr: AddrParser, broker: MetadataBroker, e: Advertisement) {
    e.nodeID == broker.nodeID && e.rawPort == broker.port && e.host == NormalHost(parseAddr, broker.host)
  }

  lemma EntriesDiffer(out: seq<Advertisement>, i: nat, j: nat)
    requires Listing(out) && i < j < |out|
    ensures out[i].nodeID != out[j].nodeID || out[i].host != out[j].host || out[i].rawPort != out[j].rawPort
  {
    hide JoinHostPort, ValidIdentifier;
    assert out[i] in out && out[j] in out;
  }

  lemma BrokerIsListed(
    parseAddr: AddrParser, brokers: seq<MetadataBroker>, out: seq<Advertisement>, at: seq<nat>,
    unrepresentable: nat, k: nat)
    requires IsListing(parseAddr, brokers, |brokers|, out, at, unrepresentable) && k < |brokers|
    requires ValidIdentifier(JoinHostPort(NormalHost(parseAddr, brokers[k].host), brokers[k].port))
    ensures exists e :: e in out && Lists(parseAddr, brokers[k], e)
  {
    hide NormalHost, ValidIdentifier, JoinHostPort, IsListing;
    FirstToSay(parseAddr, brokers, out, at, unrepresentable, k);
    assert Lists(parseAddr, brokers[k], Named(Normalized(parseAddr, brokers[k])));
  }

  lemma EntryHasBroker(
    parseAddr: AddrParser, brokers: seq<MetadataBroker>, out: seq<Advertisement>, at: seq<nat>,
    unrepresentable: nat, e: Advertisement)
    requires IsListing(parseAddr, brokers, |brokers|, out, at, unrepresentable) && e in out
    ensures exists k :: 0 <= k < |brokers| && Lists(parseAddr, brokers[k], e)
  {
    hide NormalHost, ValidIdentifier, JoinHostPort, Unsayable, FirstSaid;
    var i :| 0 <= i < |out| && out[i] == e;
    assert Lists(parseAddr, brokers[at[i]], e);
  }

  lemma ListingIsOnce(
    parseAddr: AddrParser, brokers: seq<MetadataBroker>, out: seq<Advertisement>, at: seq<nat>, unrepresentable: nat)
    requires IsListing(parseAddr, brokers, |brokers|, out, at, unrepresentable)
    ensures ListsEachOnce(parseAddr, brokers, out)
  {
    hide NormalHost, ValidIdentifier, JoinHostPort, IsListing, Listing, Lists;
    ListingIsDistinct(parseAddr, brokers, |brokers|, out, at, unrepresentable);
    forall k
      | 0 <= k < |brokers| && ValidIdentifier(JoinHostPort(NormalHost(parseAddr, brokers[k].host), brokers[k].port))
      ensures exists e :: e in out && Lists(parseAddr, brokers[k], e)
    {
      BrokerIsListed(parseAddr, brokers, out, at, unrepresentable, k);
    }
    forall e | e in out ensures exists k :: 0 <= k < |brokers| && Lists(parseAddr, brokers[k], e) {
      EntryHasBroker(parseAddr, brokers, out, at, unrepresentable, e);
    }
    forall i, j | 0 <= i < j < |out|
      ensures out[i].nodeID != out[j].nodeID || out[i].host != out[j].host || out[i].rawPort != out[j].rawPort
    {
      EntriesDiffer(out, i, j);
    }
  }

  /** Two brokers of one node and port whose names differ in the case of ASCII letters and in
  one trailing dot at most make one entry between them. */
  lemma OneNameOneEntry(
    parseAddr: AddrParser, brokers: seq<MetadataBroker>, out: seq<Advertisement>, j: nat, k: nat)
    returns (i: nat)
    requires ListsEachOnce(parseAddr, brokers, out) && j < |brokers| && k < |brokers|
    requires brokers[j].nodeID == brokers[k].nodeID && brokers[j].port == brokers[k].port
    requires brokers[j].host != "" && brokers[k].host != ""
    requires parseAddr(brokers[j].host).None? && parseAddr(brokers[k].host).None?
    requires SameLetters(Bare(brokers[j].host), Bare(brokers[k].host))
    requires ValidIdentifier(JoinHostPort(NormalHost(parseAddr, brokers[j].host), brokers[j].port))
    ensures i < |out|
    ensures forall p :: 0 <= p < |out| ==>
      (Lists(parseAddr, brokers[j], out[p]) || Lists(parseAddr, brokers[k], out[p]) <==> p == i)
  {
    hide NormalHost, ValidIdentifier, JoinHostPort, SameLetters, Bare, ListsEachOnce;
    NamesAgree(parseAddr, brokers[j].host, brokers[k].host);
    i := PlaceListing(parseAddr, brokers, out, j);
    forall p | 0 <= p < |out| && p != i ensures !Lists(parseAddr, brokers[j], out[p]) {
      ListedElsewhere(parseAddr, brokers, out, if p < i then p else i, if p < i then i else p);
    }
  }

  lemma PlaceListing(parseAddr: AddrParser, brokers: seq<MetadataBroker>, out: seq<Advertisement>, j: nat)
    returns (i: nat)
    requires ListsEachOnce(parseAddr, brokers, out) && j < |brokers|
    requires ValidIdentifier(JoinHostPort(NormalHost(parseAddr, brokers[j].host), brokers[j].port))
    ensures i < |out| && Lists(parseAddr, brokers[j], out[i])
  {
    hide NormalHost, ValidIdentifier, JoinHostPort, Lists;
    var e :| e in out && Lists(parseAddr, brokers[j], e);
    i :| i < |out| && out[i] == e;
  }

  lemma ListedElsewhere(
    parseAddr: AddrParser, brokers: seq<MetadataBroker>, out: seq<Advertisement>, i: nat, j: nat)
    requires ListsEachOnce(parseAddr, brokers, out) && i < j < |out|
    ensures out[i].nodeID != out[j].nodeID || out[i].host != out[j].host || out[i].rawPort != out[j].rawPort
  {
    hide NormalHost, ValidIdentifier, JoinHostPort, Lists;
  }

  lemma {:induction false} FirstToSay(
    parseAddr: AddrParser, brokers: seq<MetadataBroker>, out: seq<Advertisement>, at: seq<nat>,
    unrepresentable: nat, k: nat)
    requires IsListing(parseAddr, brokers, |brokers|, out, at, unrepresentable)
    requires k < |brokers| && Representable(parseAddr, brokers[k])
    ensures Named(Normalized(parseAddr, brokers[k])) in out
  {
    hide Normalized, Unsayable;
    if Repeats(parseAddr, brokers, k) {
      var j :| 0 <= j < k && Normalized(parseAddr, brokers[j]) == Normalized(parseAddr, brokers[k]);
      FirstToSay(parseAddr, brokers, out, at, unrepresentable, j);
    } else {
      assert k in at;
      var i :| 0 <= i < |at| && at[i] == k;
      assert out[i] in out;
    }
  }

  lemma {:induction false} ListedCount(at: seq<nat>, listed: set<nat>)
    requires forall i, j :: 0 <= i < j < |at| ==> at[i] < at[j]
    requires listed == set k | k in at
    ensures |listed| == |at|
  {
    if at != [] {
      var front := at[..|at| - 1];
      var rest := set k | k in front;
      ListedCount(front, rest);
      assert listed == rest + {at[|at| - 1]} && at[|at| - 1] !in rest;
    }
  }

  ghost function Indices(n: nat): (r: set<nat>)
    ensures |r| == n
    ensures forall k :: k in r <==> 0 <= k < n
  {
    if n == 0 then {} else Indices(n - 1) + {n - 1}
  }

  /** What a listing hands to the recorder: representable entries, no two alike. */
  ghost predicate Listing(es: seq<Advertisement>) {
    && (forall e :: e in es ==> IsEntry(e.(subject := ZERO_SUBJECT)) && e == Named(e) && ValidIdentifier(e.ref))
    && Distinct(es)
  }

  lemma ListingIsDistinct(
    parseAddr: AddrParser, brokers: seq<MetadataBroker>, n: nat, out: seq<Advertisement>, at: seq<nat>,
    unrepresentable: nat)
    requires n <= |brokers| && IsListing(parseAddr, brokers, n, out, at, unrepresentable)
    ensures Listing(out)
  {
    hide Normalized, Unsayable, IsEntry, ValidIdentifier;
    forall e | e in out ensures IsEntry(e.(subject := ZERO_SUBJECT)) && e == Named(e) && ValidIdentifier(e.ref) {
      var i :| 0 <= i < |out| && out[i] == e;
      assert at[i] in at;
      NormalizedIsEntry(parseAddr, brokers[at[i]]);
      NormalizedHasNoSubject(parseAddr, brokers[at[i]]);
    }
    forall i, j | 0 <= i < j < |out| ensures out[i] != out[j] {
      assert at[i] in at && at[j] in at;
      NormalizedHasNoSubject(parseAddr, brokers[at[i]]);
      NormalizedHasNoSubject(parseAddr, brokers[at[j]]);
      assert !Repeats(parseAddr, brokers, at[j]);
      assert Normalized(parseAddr, brokers[at[i]]) == out[i].(subject := ZERO_SUBJECT);
      assert Normalized(parseAddr, brokers[at[j]]) == out[j].(subject := ZERO_SUBJECT);
    }
  }

  lemma NormalizedHasNoSubject(parseAddr: AddrParser, broker: MetadataBroker)
    ensures Normalized(parseAddr, broker).subject == ZERO_SUBJECT
  {
  }
}
