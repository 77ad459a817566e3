/**
 What an accepted image means for the domain that routes by it, and where the
 contract and the reader part.
 */
module HandoverMeaning {
  import opened Wrappers
  import opened Alphabet
  import opened Chains
  import opened Prefix
  import opened Handover
  import opened HandoverContract
  import Addresses

  // ------------------------------------------------------ acceptance, declaratively

  predicate IdSound(id: Identifier) {
    0 < id.len <= |id.bytes| && forall k :: 0 <= k < id.len ==> InAlphabet(id.bytes[k])
  }

  predicate InterfaceSound(e: Interface, ports: nat) {
    && e.enabled <= 1 && e.port < ports && e.length <= MAX_PREFIX_LENGTH
    && IsUnicast(e.mac) && IsUnicastAddress(e.address) && IsHostAddress(e.address, e.length) && IdSound(e.id)
  }

  predicate PairSound(a: Interface, b: Interface) {
    && Text(a.id) != Text(b.id) && a.port != b.port && a.mac != b.mac
    && !PrefixesOverlap(a.address, a.length, b.address, b.length)
  }

  predicate NeighbourSound(e: Neighbour, ports: nat, named: seq<Interface>) {
    && e.port < ports && IsUnicast(e.mac) && IsUnicastAddress(e.address)
    && (var on := OnPort(named, e.port);
        && on.Some? && e.address != on.value.address
        && InsidePrefix(e.address, on.value.address, on.value.length) && IsHostAddress(e.address, on.value.length))
  }

  predicate PortSound(p: Port, ports: nat, named: seq<Interface>) {
    p.stated <= 1 && (p.stated == 1 ==> p.port < ports && OnPort(named, p.port).Some?)
  }

  predicate BlockSound(b: Block) {
    b.stated <= 1 && (b.stated == 1 ==> b.length <= MAX_PREFIX_LENGTH && Canonical(b))
  }

  predicate PortsSound(p: Ports) {
    p.stated <= 1 && (p.stated == 1 ==> p.low <= p.high)
  }

  predicate TrackingSound(t: Byte) {
    t.stated <= 1 && (t.stated == 1 ==> t.value <= 1)
  }

  predicate RuleSound(r: Rule, ports: nat, named: seq<Interface>, tracked: bool) {
    && r.action <= 1 && PortSound(r.ingress, ports, named) && PortSound(r.egress, ports, named)
    && BlockSound(r.source) && BlockSound(r.destination) && r.protocol.stated <= 1
    && PortsSound(r.sourcePort) && PortsSound(r.destinationPort) && r.icmpType.stated <= 1
    && (tracked ==> TrackingSound(r.tracking))
    && (r.protocol == Byte(1, ICMP_PROTOCOL) ==> r.sourcePort.stated == 0 && r.destinationPort.stated == 0)
    && (r.icmpType.stated == 1 && r.protocol.stated == 1 ==> r.protocol.value == ICMP_PROTOCOL)
    && IdSound(r.id)
  }

  predicate Apart(m: Management, e: Interface) {
    !PrefixesOverlap(e.address, e.length, m.address, m.length) && e.mac != m.mac
  }

  predicate ManagementSound(m: Management, named: seq<Interface>) {
    && m.enabled <= 1
    && (m.enabled == 1 ==>
          && m.length <= MAX_PREFIX_LENGTH && IsUnicast(m.mac)
          && IsUnicastAddress(m.address) && IsHostAddress(m.address, m.length)
          && (forall i :: 0 <= i < |named| ==> Apart(m, named[i]))
          && m.gatewayStated <= 1
          && (m.gatewayStated == 1 ==>
                && IsUnicastAddress(m.gateway) && m.gateway != m.address
                && InsidePrefix(m.gateway, m.address, m.length)))
  }

  predicate InterfacesSound(g: Given) {
    forall i :: 0 <= i < |g.named| ==> InterfaceSound(g.named[i], g.ports)
  }

  predicate ApartFromEarlier(g: Given, i: nat)
    requires i < |g.named|
  {
    forall j :: 0 <= j < i ==> PairSound(g.named[j], g.named[i])
  }

  predicate InterfacesApart(g: Given) {
    forall i :: 0 <= i < |g.named| ==> ApartFromEarlier(g, i)
  }

  predicate HopsSound(g: Given) {
    forall i :: 0 <= i < |g.hops| ==> NeighbourSound(g.hops[i], g.ports, g.named)
  }

  predicate DistinctHop(g: Given, i: nat)
    requires i < |g.hops|
  {
    forall j :: 0 <= j < i ==> g.hops[j].port != g.hops[i].port || g.hops[j].address != g.hops[i].address
  }

  predicate HopsDistinct(g: Given) {
    forall i :: 0 <= i < |g.hops| ==> DistinctHop(g, i)
  }

  predicate PolicySound(g: Given, i: nat)
    requires i < |g.policy|
  {
    && RuleSound(g.policy[i], g.ports, g.named, g.tracked)
    && forall j :: 0 <= j < i ==> Text(g.policy[j].id) != Text(g.policy[i].id)
  }

  predicate PoliciesSound(g: Given) {
    forall i :: 0 <= i < |g.policy| ==> PolicySound(g, i)
  }

  predicate Sound(g: Given) {
    && InterfacesSound(g) && InterfacesApart(g) && HopsSound(g) && HopsDistinct(g)
    && PoliciesSound(g) && ManagementSound(g.management, g.named)
  }

  predicate Accepts(image: Image, folded: nat, ports: nat, tracked: bool) {
    var b := image.body;
    && folded == image.digest
    && b.interfaceCount <= |b.interfaces| && b.neighbourCount <= |b.neighbours| && b.ruleCount <= |b.rules|
    && Sound(GivenBy(b, ports, tracked))
  }

  lemma InterfaceSoundIff(e: Interface, ports: nat)
    ensures InterfaceCheck(e, ports).None? <==> InterfaceSound(e, ports)
  {
    IdentifierFaultIsTheFault(e.id);
  }

  lemma PairSoundIff(a: Interface, b: Interface)
    ensures PairCheck(a, b).None? <==> PairSound(a, b)
  {
  }

  lemma NeighbourSoundIff(e: Neighbour, ports: nat, named: seq<Interface>)
    ensures NeighbourCheck(e, ports, named).None? <==> NeighbourSound(e, ports, named)
  {
  }

  lemma RuleSoundIff(r: Rule, ports: nat, named: seq<Interface>, tracked: bool)
    ensures RuleCheck(r, ports, named, tracked).None? <==> RuleSound(r, ports, named, tracked)
  {
    IdentifierFaultIsTheFault(r.id);
  }

  lemma ManagementSoundIff(m: Management, named: seq<Interface>)
    ensures ManagementCheck(m, named).None? <==> ManagementSound(m, named)
  {
    FirstNone(|named|, Collisions(m, named));
    assert First(|named|, Collisions(m, named), 0).None? <==> forall i :: 0 <= i < |named| ==> Apart(m, named[i]) by {
      forall i: nat | i < |named| ensures Collisions(m, named)(i).None? <==> Apart(m, named[i]) {}
    }
  }

  lemma InterfacesSoundIff(g: Given)
    ensures First(|g.named|, Interfaces(g), 0).None? <==> InterfacesSound(g)
  {
    FirstNone(|g.named|, Interfaces(g));
    forall i: nat | i < |g.named| ensures Interfaces(g)(i).None? <==> InterfaceSound(g.named[i], g.ports) {
      InterfaceSoundIff(g.named[i], g.ports);
    }
  }

  lemma InterfacesApartIff(g: Given)
    ensures First(|g.named|, Pairs(g), 0).None? <==> InterfacesApart(g)
  {
    FirstNone(|g.named|, Pairs(g));
    forall i: nat | i < |g.named| ensures Pairs(g)(i).None? <==> ApartFromEarlier(g, i) {
      FirstNone(i, PairsOf(g, i));
      forall j: nat | j < i ensures PairsOf(g, i)(j).None? <==> PairSound(g.named[j], g.named[i]) {
        PairSoundIff(g.named[j], g.named[i]);
      }
    }
  }

  lemma HopsSoundIff(g: Given)
    ensures First(|g.hops|, Neighbours(g), 0).None? <==> HopsSound(g)
  {
    FirstNone(|g.hops|, Neighbours(g));
    forall i: nat | i < |g.hops| ensures Neighbours(g)(i).None? <==> NeighbourSound(g.hops[i], g.ports, g.named) {
      NeighbourSoundIff(g.hops[i], g.ports, g.named);
    }
  }

  lemma HopsDistinctIff(g: Given)
    ensures First(|g.hops|, SameHops(g), 0).None? <==> HopsDistinct(g)
  {
    FirstNone(|g.hops|, SameHops(g));
    forall i: nat | i < |g.hops| ensures SameHops(g)(i).None? <==> DistinctHop(g, i) {
      FirstNone(i, SameHopsOf(g, i));
      forall j: nat | j < i
        ensures SameHopsOf(g, i)(j).None? <==>
                  g.hops[j].port != g.hops[i].port || g.hops[j].address != g.hops[i].address
      {}
    }
  }

  lemma PoliciesSoundIff(g: Given)
    ensures First(|g.policy|, Policy(g, false), 0).None? <==> PoliciesSound(g)
  {
    FirstNone(|g.policy|, Policy(g, false));
    forall i: nat | i < |g.policy| ensures Policy(g, false)(i).None? <==> PolicySound(g, i) {
      RuleSoundIff(g.policy[i], g.ports, g.named, g.tracked);
      FirstNone(i, SameRulesOf(g, false, i));
      forall j: nat | j < i
        ensures SameRulesOf(g, false, i)(j).None? <==> Text(g.policy[j].id) != Text(g.policy[i].id)
      {}
    }
  }

  lemma JudgedIffSound(g: Given, guarded: bool)
    ensures Judge(g, guarded).None? <==> Sound(g)
  {
    InterfacesSoundIff(g);
    InterfacesApartIff(g);
    HopsSoundIff(g);
    HopsDistinctIff(g);
    GuardIsRedundant(g);
    PoliciesSoundIff(g);
    ManagementSoundIff(g.management, g.named);
  }

  /** An image is not refused exactly when every rule about it holds. */
  lemma AcceptedIffSound(image: Image, folded: nat, ports: nat, tracked: bool)
    ensures Refusal(image, folded, ports, tracked).None? <==> Accepts(image, folded, ports, tracked)
  {
    JudgedIffSound(GivenBy(image.body, ports, tracked), !tracked);
  }

  // ------------------------------------------------------------------ addresses

  /** The address as a number is not multicast, loopback, unspecified or the
      limited broadcast. */
  predicate Routable(address: Word) { !Addresses.Reserved(Addresses.Number(address)) }

  predicate AllRoutable(g: Given) {
    && (forall i :: 0 <= i < |g.named| ==> Routable(g.named[i].address))
    && (forall i :: 0 <= i < |g.hops| ==> Routable(g.hops[i].address))
    && (g.management.enabled == 1 ==>
          && Routable(g.management.address)
          && (g.management.gatewayStated == 1 ==> Routable(g.management.gateway)))
  }

  lemma SoundIsRoutable(g: Given)
    requires InterfacesSound(g) && HopsSound(g) && ManagementSound(g.management, g.named)
    ensures AllRoutable(g)
  {
    forall i | 0 <= i < |g.named| ensures Routable(g.named[i].address) {
      Addresses.UnicastByNumber(g.named[i].address);
    }
    forall i | 0 <= i < |g.hops| ensures Routable(g.hops[i].address) {
      assert NeighbourSound(g.hops[i], g.ports, g.named);
      Addresses.UnicastByNumber(g.hops[i].address);
    }
    Addresses.UnicastByNumber(g.management.address);
    Addresses.UnicastByNumber(g.management.gateway);
  }

  /** No address an accepted image puts in force is a reserved one. */
  lemma AcceptedIsRoutable(image: Image, folded: nat, ports: nat, tracked: bool)
    requires Refusal(image, folded, ports, tracked).None?
    ensures AllRoutable(GivenBy(image.body, ports, tracked))
  {
    AcceptedIffSound(image, folded, ports, tracked);
    SoundIsRoutable(GivenBy(image.body, ports, tracked));
  }

  /** A rule's block is canonical exactly when its network is a multiple of the
      block's size. */
  lemma CanonicalByNumber(b: Block)
    requires b.length <= MAX_PREFIX_LENGTH
    ensures Canonical(b) <==>
              Addresses.Number(b.network) % Addresses.PowerOfTwo(MAX_PREFIX_LENGTH - b.length) == 0
  {
    Addresses.HostBitsByNumber(b.network, b.length);
  }

  // ------------------------------------------------------------------- routing

  predicate Covers(e: Interface, a: Word) { InsidePrefix(a, e.address, e.length) }

  /** In an accepted image an address is routed to at most one interface. */
  lemma RoutesAreUnambiguous(image: Image, folded: nat, ports: nat, tracked: bool, a: Word, i: nat, j: nat)
    requires Refusal(image, folded, ports, tracked).None?
    requires var named := GivenBy(image.body, ports, tracked).named;
             i < |named| && j < |named| && Covers(named[i], a) && Covers(named[j], a)
    ensures i == j
  {
    AcceptedIffSound(image, folded, ports, tracked);
    var g := GivenBy(image.body, ports, tracked);
    if i < j { ApartShareNothing(g, j, i, a); }
    if j < i { ApartShareNothing(g, i, j, a); }
  }

  lemma ApartShareNothing(g: Given, i: nat, j: nat, a: Word)
    requires InterfacesApart(g) && j < i < |g.named|
    ensures !(Covers(g.named[i], a) && Covers(g.named[j], a)) && g.named[i].port != g.named[j].port
  {
    assert ApartFromEarlier(g, i);
    var e, f := g.named[j], g.named[i];
    assert PairSound(e, f);
    OverlapIsACommonAddress(e.address, e.length, f.address, f.length);
    assert Covers(e, a) && Covers(f, a) ==>
        InsidePrefix(a, e.address, e.length) && InsidePrefix(a, f.address, f.length);
  }

  /** A neighbour's address is covered by the interface on its own port and by no
      other. */
  lemma NeighbourIsOnItsPort(image: Image, folded: nat, ports: nat, tracked: bool, k: nat, i: nat)
    requires Refusal(image, folded, ports, tracked).None?
    requires k < |GivenBy(image.body, ports, tracked).hops| && i < |GivenBy(image.body, ports, tracked).named|
    ensures var g := GivenBy(image.body, ports, tracked);
            Covers(g.named[i], g.hops[k].address) <==> g.named[i].port == g.hops[k].port
    ensures var g := GivenBy(image.body, ports, tracked);
            exists j :: 0 <= j < |g.named| && g.named[j].port == g.hops[k].port
  {
    AcceptedIffSound(image, folded, ports, tracked);
    HopIsOnItsPort(GivenBy(image.body, ports, tracked), k, i);
  }

  lemma HopInterface(g: Given, k: nat) returns (j: nat)
    requires HopsSound(g) && k < |g.hops|
    ensures j < |g.named| && g.named[j].port == g.hops[k].port && Covers(g.named[j], g.hops[k].address)
  {
    assert NeighbourSound(g.hops[k], g.ports, g.named);
    j :| j < |g.named| && g.named[j] == OnPort(g.named, g.hops[k].port).value;
  }

  lemma HopIsOnItsPort(g: Given, k: nat, i: nat)
    requires HopsSound(g) && InterfacesApart(g) && k < |g.hops| && i < |g.named|
    ensures Covers(g.named[i], g.hops[k].address) <==> g.named[i].port == g.hops[k].port
    ensures exists j :: 0 <= j < |g.named| && g.named[j].port == g.hops[k].port
  {
    var j := HopInterface(g, k);
    if i < j { ApartShareNothing(g, j, i, g.hops[k].address); }
    if j < i { ApartShareNothing(g, i, j, g.hops[k].address); }
  }

  /** An enabled management prefix, its gateway included, shares no address with
      any interface's. */
  lemma ManagementIsApart(image: Image, folded: nat, ports: nat, tracked: bool, i: nat, a: Word)
    requires Refusal(image, folded, ports, tracked).None? && image.body.management.enabled == 1
    requires i < |GivenBy(image.body, ports, tracked).named|
    ensures var m, e := image.body.management, GivenBy(image.body, ports, tracked).named[i];
            && !(InsidePrefix(a, m.address, m.length) && Covers(e, a))
            && (m.gatewayStated == 1 ==> !Covers(e, m.gateway))
  {
    AcceptedIffSound(image, folded, ports, tracked);
    var g := GivenBy(image.body, ports, tracked);
    var m, e := g.management, g.named[i];
    assert Apart(m, e);
    OverlapIsACommonAddress(e.address, e.length, m.address, m.length);
    assert Covers(e, a) ==> InsidePrefix(a, e.address, e.length);
    assert Covers(e, m.gateway) ==> InsidePrefix(m.gateway, e.address, e.length);
  }
}
