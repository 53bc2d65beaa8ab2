/** Advertisements that are usable, are recorded as PASS, and end the run in an error all
the same: exactly those whose host no sweep can be run for. */
module Refusals {
  import opened Text
  import opened Results
  import opened Decimals
  import opened Evidences
  import opened Hosts
  import opened Identifiers
  import opened Advertisements
  import opened Recording
  import opened Transports
  import opened Reachability
  import opened Topologies

  /** Which listed advertisements those are: an address with a zone, or a name with a
  space in it. They are recorded as PASS and refused by their sweep. */
  lemma UnmeasurableExactly(parseAddr: AddrParser, x: Exchange, es: seq<Advertisement>, e: Advertisement)
    requires Listing(es) && e in es && e.usable
    ensures NodeOf(x, e).state == Pass
    ensures Measurable(parseAddr, e.host, e.port) <==>
      match parseAddr(e.host)
      case Some(addr) => addr.zone == ""
      case None => forall c :: c in e.host ==> !IsSpace(c)
  {
    hide IdOf, Decimal;
    HostIsControlFree(e.host, e.rawPort);
  }

  lemma HostIsControlFree(host: string, port: int32)
    requires NoControl(AdvertisedRef(host, port))
    ensures NoControl(host)
  {
    hide Decimal;
    var ref, shown := AdvertisedRef(host, port), Bracketed(host);
    assert ref[..|shown|] == shown;
    forall c | c in host ensures c in ref {
      assert c in shown;
    }
  }

  /** A response with one entry that can be a node lists exactly that entry. */
  lemma OneListed(
    parseAddr: AddrParser, broker: MetadataBroker, es: seq<Advertisement>, at: seq<nat>, unrepresentable: nat)
    requires IsListing(parseAddr, [broker], 1, es, at, unrepresentable) && Representable(parseAddr, broker)
    ensures es == [Named(Normalized(parseAddr, broker))]
  {
    hide Normalized, Representable, Unsayable, Named;
    assert FirstSaid(parseAddr, [broker], 0);
    assert 0 in at;
    assert (set k | k in at) == {0};
    ListedCount(at, {0});
  }

  /** One such broker, reached while the context is alive, ends the run in an error. */
  lemma UnmeasurableEndsRun(
    plan: Plan, x: Exchange, broker: MetadataBroker, es: seq<Advertisement>, at: seq<nat>, unrepresentable: nat,
    brokers: seq<DiscoveredBroker>, left: nat)
    requires IsListing(plan.parseAddr, [broker], 1, es, at, unrepresentable) && Discovers(x, es, brokers) && left > 0
    requires var e := Normalized(plan.parseAddr, broker);
      e.usable && Representable(plan.parseAddr, broker) && !Measurable(plan.parseAddr, e.host, e.port)
    ensures |es| == 1 && es[0].usable && NodeOf(x, es[0]).state == Pass
    ensures !AllMeasurable(plan, brokers, left)
  {
    hide Normalized, Representable, IsListing, IdOf, Measurable;
    OneListed(plan.parseAddr, broker, es, at, unrepresentable);
    assert !CanMeasure(plan, brokers[0]);
    assert LeftAt(plan, brokers, left, 0) == left;
  }

  lemma AdvertisedText(parseAddr: AddrParser, nodeID: int32, host: string, raw: string, port: int32)
    requires NormalHost(parseAddr, raw) == host && NoControl(host) && StartsSolid(host) && 0 < port <= 65535
    ensures var broker := MetadataBroker(nodeID, raw, port);
      && Normalized(parseAddr, broker) == EntryOf(nodeID, host, port) && EntryOf(nodeID, host, port).usable
      && Representable(parseAddr, broker)
  {
    hide NormalHost, ValidIdentifier, NoControl, JoinHostPort;
    EndpointText(host, port);
  }

  /** A name with a space in it. */
  lemma SpacedBroker(
    plan: Plan, x: Exchange, nodeID: int32, es: seq<Advertisement>, at: seq<nat>, unrepresentable: nat,
    brokers: seq<DiscoveredBroker>, left: nat)
    requires plan.parseAddr("broker 1") == None && left > 0
    requires IsListing(plan.parseAddr, [MetadataBroker(nodeID, "broker 1", 9092)], 1, es, at, unrepresentable)
    requires Discovers(x, es, brokers)
    ensures |es| == 1 && es[0].usable && NodeOf(x, es[0]).state == Pass && !AllMeasurable(plan, brokers, left)
  {
    hide IsListing, Discovers, AllMeasurable, IdOf, NodeOf, Normalized, Representable;
    var host := "broker 1";
    SpacedHost(host);
    NameIsKept(plan.parseAddr, host);
    AdvertisedText(plan.parseAddr, nodeID, host, host, 9092);
    UnmeasurableEndsRun(plan, x, MetadataBroker(nodeID, host, 9092), es, at, unrepresentable, brokers, left);
  }

  lemma SpacedHost(host: string)
    requires host == "broker 1"
    ensures NoControl(host) && StartsSolid(host) && !Plain(host) && host != "" && host[|host| - 1] != '.'
    ensures forall c :: c in host ==> LowerChar(c) == c
  {
    assert host == ['b', 'r', 'o', 'k', 'e', 'r', ' ', '1'];
    assert host[6] in host;
  }

  lemma NameIsKept(parseAddr: AddrParser, host: string)
    requires host != "" && parseAddr(host).None? && host[|host| - 1] != '.' && forall c :: c in host ==>
      LowerChar(c) == c
    ensures NormalHost(parseAddr, host) == host
  {
    assert Lowered(host) == host;
  }

  /** An address with a zone. */
  lemma ZonedBroker(
    plan: Plan, x: Exchange, nodeID: int32, unmapped: string, es: seq<Advertisement>, at: seq<nat>,
    unrepresentable: nat, brokers: seq<DiscoveredBroker>, left: nat)
    requires plan.parseAddr("fe80::1%eth0") == Some(Addr("fe80::1%eth0", "eth0", unmapped)) && left > 0
    requires IsListing(plan.parseAddr, [MetadataBroker(nodeID, "fe80::1%eth0", 9092)], 1, es, at, unrepresentable)
    requires Discovers(x, es, brokers)
    ensures |es| == 1 && es[0].usable && NodeOf(x, es[0]).state == Pass && !AllMeasurable(plan, brokers, left)
  {
    hide IsListing, Discovers, AllMeasurable, IdOf, NodeOf, Normalized, Representable;
    var host := "fe80::1%eth0";
    ZonedHost(host);
    AdvertisedText(plan.parseAddr, nodeID, host, host, 9092);
    UnmeasurableEndsRun(plan, x, MetadataBroker(nodeID, host, 9092), es, at, unrepresentable, brokers, left);
  }

  lemma ZonedHost(host: string)
    requires host == "fe80::1%eth0"
    ensures NoControl(host) && StartsSolid(host)
  {
    assert host == ['f', 'e', '8', '0', ':', ':', '1', '%', 'e', 't', 'h', '0'];
  }
}
