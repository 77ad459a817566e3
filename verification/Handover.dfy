/**
 What a configuration image is refused for. Two judges decide it: the contract,
 restated by hand, and the reader that decodes the image; they differ in one
 rule. Each refuses on the first rule broken, and which rule that is matters:
 it sends an operator to one attribute of one entry.

 `Refusal` is the code's own chain of early returns. `Clause` is the contract as
 a numbered list: for a place in it, whether the one rule listed there is broken,
 whatever the others say. `RefusalIsTheFirstFault` connects the two.
 */
module Handover {
  import opened Wrappers
  import opened Alphabet
  import opened Chains
  import opened Prefix

  const ICMP_PROTOCOL: nat := 1

  // ------------------------------------------------------------------ the image

  datatype Identifier = Identifier(bytes: seq<nat>, len: nat)

  datatype Interface = Interface(
    port: nat, enabled: nat, length: nat, mac: Mac, address: Word, id: Identifier)

  datatype Neighbour = Neighbour(port: nat, mac: Mac, address: Word)

  datatype Management = Management(
    enabled: nat, length: nat, gatewayStated: nat, mac: Mac, address: Word, gateway: Word)

  datatype Port = Port(stated: nat, port: nat)
  datatype Block = Block(stated: nat, network: Word, length: nat)
  datatype Ports = Ports(stated: nat, low: nat, high: nat)
  datatype Byte = Byte(stated: nat, value: nat)

  datatype Rule = Rule(
    action: nat, ingress: Port, egress: Port, source: Block, destination: Block, protocol: Byte,
    sourcePort: Ports, destinationPort: Ports, icmpType: Byte, tracking: Byte, id: Identifier)

  /** Everything the digest covers. The arrays are whole, in the source 8, 32 and
      256 slots long; the counts say how many of their slots are meant. */
  datatype Body = Body(
    generation: nat, interfaceCount: nat, neighbourCount: nat, ruleCount: nat,
    management: Management, interfaces: seq<Interface>, neighbours: seq<Neighbour>, rules: seq<Rule>)

  datatype Image = Image(body: Body, digest: nat)

  // ------------------------------------------------------------------- the faults

  datatype TextFault = TooLong(len: nat) | Empty | NotInAlphabet(offset: nat)

  datatype Criterion =
    | Ingress | Egress | Source | Destination | Protocol | SourcePort | DestinationPort | IcmpType | Tracking

  datatype InterfaceFault =
    | EnabledNotBoolean(enabled: nat) | PortUnknown(port: nat) | PrefixTooLong(length: nat)
    | MacNotUnicast(mac: Mac) | AddressNotUnicast(address: Word) | AddressNotAHost(address: Word)
    | IdNotAnIdentifier(text: TextFault)

  datatype PairFault = IdDuplicated | PortDuplicated(port: nat) | MacDuplicated(mac: Mac) | PrefixesMeet

  datatype NeighbourFault =
    | HopPortUnknown(port: nat) | HopMacNotUnicast(mac: Mac) | HopNotUnicast(address: Word)
    | HopPortUnconfigured(port: nat) | HopIsInterface(address: Word) | HopOutsidePrefix(address: Word)
    | HopNotAHost(address: Word)

  datatype RuleFault =
    | ActionUnknown(action: nat)
    | NotBoolean(criterion: Criterion, stated: nat)
    | RulePortUnknown(criterion: Criterion, port: nat)
    | RulePortUnconfigured(criterion: Criterion, port: nat)
    | RulePrefixTooLong(criterion: Criterion, length: nat)
    | NotCanonical(criterion: Criterion, network: Word)
    | RangeReversed(criterion: Criterion, low: nat, high: nat)
    | TrackingUnknown(tracking: nat)
    | PortOnIcmp(criterion: Criterion)
    | IcmpTypeOnNonIcmp(protocol: nat)
    | RuleIdNotAnIdentifier(text: TextFault)

  datatype ManagementFault =
    | MgmtEnabledNotBoolean(enabled: nat) | MgmtPrefixTooLong(length: nat) | MgmtMacNotUnicast(mac: Mac)
    | MgmtNotUnicast(address: Word) | MgmtNotAHost(address: Word)
    | MgmtPrefixCollides(index: nat) | MgmtMacCollides(index: nat)
    | GatewayStatedNotBoolean(stated: nat) | GatewayNotUnicast(gateway: Word)
    | GatewayIsTheAddress(gateway: Word) | GatewayOffLink(gateway: Word)

  datatype Error =
    | DigestMismatch(declared: nat, folded: nat)
    | InterfaceCountExceedsCapacity(count: nat)
    | NeighbourCountExceedsCapacity(count: nat)
    | RuleCountExceedsCapacity(count: nat)
    | InterfaceError(index: nat, interfaceFault: InterfaceFault)
    | InterfacePairError(index: nat, other: nat, pairFault: PairFault)
    | NeighbourError(index: nat, neighbourFault: NeighbourFault)
    | NeighbourDuplicated(index: nat, other: nat)
    | RuleError(index: nat, ruleFault: RuleFault)
    | RuleIdDuplicated(index: nat, other: nat)
    | ManagementError(managementFault: ManagementFault)

  // -------------------------------------------------------------------- the rules

  function Text(id: Identifier): seq<nat> {
    if id.len <= |id.bytes| then id.bytes[..id.len] else []
  }

  function BadByteFrom(text: seq<nat>, from: nat): (offset: nat)
    requires from <= |text|
    ensures from <= offset <= |text|
    ensures forall k :: from <= k < offset ==> InAlphabet(text[k])
    ensures offset < |text| ==> !InAlphabet(text[offset])
    decreases |text| - from
  {
    if from == |text| || !InAlphabet(text[from]) then from else BadByteFrom(text, from + 1)
  }

  function IdentifierFault(id: Identifier): Option<TextFault> {
    if id.len > |id.bytes| then Some(TooLong(id.len))
    else if id.len == 0 then Some(Empty)
    else
      var offset := BadByteFrom(Text(id), 0);
      if offset < |Text(id)| then Some(NotInAlphabet(offset)) else None
  }

  /** What each text fault says, on its own. */
  predicate TextBroken(id: Identifier, fault: TextFault) {
    match fault
    case TooLong(len) => len == id.len && id.len > |id.bytes|
    case Empty => id.len == 0
    case NotInAlphabet(offset) =>
      && offset < |Text(id)| && !InAlphabet(Text(id)[offset])
      && forall k :: 0 <= k < offset ==> InAlphabet(Text(id)[k])
  }

  /** An id's faults exclude each other, and there is none exactly when the text
      is one or more letters, digits or hyphens. */
  lemma IdentifierFaultIsTheFault(id: Identifier)
    ensures forall f :: TextBroken(id, f) <==> IdentifierFault(id) == Some(f)
    ensures IdentifierFault(id).None? <==>
              0 < id.len <= |id.bytes| && forall k :: 0 <= k < id.len ==> InAlphabet(id.bytes[k])
  {
    if id.len <= |id.bytes| {
      var text, offset := Text(id), BadByteFrom(Text(id), 0);
      forall k | 0 <= k < id.len ensures id.bytes[k] == text[k] {}
      forall f | TextBroken(id, f) ensures IdentifierFault(id) == Some(f) {}
    }
  }

  // interfaces

  function InterfaceCheck(e: Interface, ports: nat): Option<InterfaceFault> {
    if e.enabled > 1 then Some(EnabledNotBoolean(e.enabled))
    else if e.port >= ports then Some(PortUnknown(e.port))
    else if e.length > MAX_PREFIX_LENGTH then Some(PrefixTooLong(e.length))
    else if !IsUnicast(e.mac) then Some(MacNotUnicast(e.mac))
    else if !IsUnicastAddress(e.address) then Some(AddressNotUnicast(e.address))
    else if !IsHostAddress(e.address, e.length) then Some(AddressNotAHost(e.address))
    else
      var fault := IdentifierFault(e.id);
      if fault.Some? then Some(IdNotAnIdentifier(fault.value)) else None
  }

  const INTERFACE_RULES: nat := 7

  function InterfaceRule(e: Interface, ports: nat, row: nat): Option<InterfaceFault> {
    match row
    case 0 => When(e.enabled > 1, EnabledNotBoolean(e.enabled))
    case 1 => When(e.port >= ports, PortUnknown(e.port))
    case 2 => When(e.length > MAX_PREFIX_LENGTH, PrefixTooLong(e.length))
    case 3 => When(!IsUnicast(e.mac), MacNotUnicast(e.mac))
    case 4 => When(!IsUnicastAddress(e.address), AddressNotUnicast(e.address))
    case 5 => When(!IsHostAddress(e.address, e.length), AddressNotAHost(e.address))
    case 6 => var fault := IdentifierFault(e.id); if fault.Some? then Some(IdNotAnIdentifier(fault.value)) else None
    case _ => None
  }

  lemma InterfaceInOrder(e: Interface, ports: nat)
    ensures InterfaceCheck(e, ports) == First(INTERFACE_RULES, row => InterfaceRule(e, ports, row), 0)
  {
  }

  function PairCheck(earlier: Interface, e: Interface): Option<PairFault> {
    if Text(earlier.id) == Text(e.id) then Some(IdDuplicated)
    else if earlier.port == e.port then Some(PortDuplicated(e.port))
    else if earlier.mac == e.mac then Some(MacDuplicated(e.mac))
    else if PrefixesOverlap(earlier.address, earlier.length, e.address, e.length) then Some(PrefixesMeet)
    else None
  }

  const PAIR_RULES: nat := 4

  function PairRule(earlier: Interface, e: Interface, row: nat): Option<PairFault> {
    match row
    case 0 => When(Text(earlier.id) == Text(e.id), IdDuplicated)
    case 1 => When(earlier.port == e.port, PortDuplicated(e.port))
    case 2 => When(earlier.mac == e.mac, MacDuplicated(e.mac))
    case 3 => When(PrefixesOverlap(earlier.address, earlier.length, e.address, e.length), PrefixesMeet)
    case _ => None
  }

  lemma PairInOrder(earlier: Interface, e: Interface)
    ensures PairCheck(earlier, e) == First(PAIR_RULES, row => PairRule(earlier, e, row), 0)
  {
  }

  // neighbours

  /** The first interface on a port. */
  function OnPort(named: seq<Interface>, port: nat): (found: Option<Interface>)
    ensures found.Some? ==> found.value in named && found.value.port == port
    ensures found.None? ==> forall i :: 0 <= i < |named| ==> named[i].port != port
  {
    if named == [] then None
    else if named[0].port == port then Some(named[0])
    else OnPort(named[1..], port)
  }

  function NeighbourCheck(e: Neighbour, ports: nat, named: seq<Interface>): Option<NeighbourFault> {
    if e.port >= ports then Some(HopPortUnknown(e.port))
    else if !IsUnicast(e.mac) then Some(HopMacNotUnicast(e.mac))
    else if !IsUnicastAddress(e.address) then Some(HopNotUnicast(e.address))
    else
      var interface := OnPort(named, e.port);
      if interface.None? then Some(HopPortUnconfigured(e.port))
      else if e.address == interface.value.address then Some(HopIsInterface(e.address))
      else if !InsidePrefix(e.address, interface.value.address, interface.value.length) then
        Some(HopOutsidePrefix(e.address))
      else if !IsHostAddress(e.address, interface.value.length) then Some(HopNotAHost(e.address))
      else None
  }

  const NEIGHBOUR_RULES: nat := 7

  function NeighbourRule(e: Neighbour, ports: nat, named: seq<Interface>, row: nat): Option<NeighbourFault> {
    var interface := OnPort(named, e.port);
    match row
    case 0 => When(e.port >= ports, HopPortUnknown(e.port))
    case 1 => When(!IsUnicast(e.mac), HopMacNotUnicast(e.mac))
    case 2 => When(!IsUnicastAddress(e.address), HopNotUnicast(e.address))
    case 3 => When(interface.None?, HopPortUnconfigured(e.port))
    case 4 => When(interface.Some? && e.address == interface.value.address, HopIsInterface(e.address))
    case 5 =>
      When(interface.Some? && !InsidePrefix(e.address, interface.value.address, interface.value.length),
           HopOutsidePrefix(e.address))
    case 6 => When(interface.Some? && !IsHostAddress(e.address, interface.value.length), HopNotAHost(e.address))
    case _ => None
  }

  lemma NeighbourInOrder(e: Neighbour, ports: nat, named: seq<Interface>)
    ensures NeighbourCheck(e, ports, named)
         == First(NEIGHBOUR_RULES, row => NeighbourRule(e, ports, named, row), 0)
  {
  }

  // rules

  function FlagCheck(c: Criterion, stated: nat): Option<RuleFault> { When(stated > 1, NotBoolean(c, stated)) }

  function PortCheck(c: Criterion, p: Port, ports: nat, named: seq<Interface>): Option<RuleFault> {
    if p.stated > 1 then Some(NotBoolean(c, p.stated))
    else if p.stated == 0 then None
    else if p.port >= ports then Some(RulePortUnknown(c, p.port))
    else if OnPort(named, p.port).None? then Some(RulePortUnconfigured(c, p.port))
    else None
  }

  /** No host bit of the network is set. */
  predicate Canonical(b: Block) { And(b.network, Not(PrefixMask(b.length))) == Zeros(MAX_PREFIX_LENGTH) }

  function BlockCheck(c: Criterion, b: Block): Option<RuleFault> {
    if b.stated > 1 then Some(NotBoolean(c, b.stated))
    else if b.stated == 0 then None
    else if b.length > MAX_PREFIX_LENGTH then Some(RulePrefixTooLong(c, b.length))
    else if !Canonical(b) then Some(NotCanonical(c, b.network))
    else None
  }

  function PortsCheck(c: Criterion, p: Ports): Option<RuleFault> {
    if p.stated > 1 then Some(NotBoolean(c, p.stated))
    else When(p.stated == 1 && p.low > p.high, RangeReversed(c, p.low, p.high))
  }

  /** The one rule the reader holds an entry to and the contract does not. */
  function TrackingCheck(t: Byte): Option<RuleFault> {
    if t.stated > 1 then Some(NotBoolean(Tracking, t.stated))
    else When(t.stated == 1 && t.value > 1, TrackingUnknown(t.value))
  }

  /** The action, then each criterion on its own. */
  function CriteriaCheck(r: Rule, ports: nat, named: seq<Interface>): Option<RuleFault> {
    Else(When(r.action > 1, ActionUnknown(r.action)),
    Else(PortCheck(Ingress, r.ingress, ports, named),
    Else(PortCheck(Egress, r.egress, ports, named),
    Else(BlockCheck(Source, r.source),
    Else(BlockCheck(Destination, r.destination),
    Else(FlagCheck(Protocol, r.protocol.stated),
    Else(PortsCheck(SourcePort, r.sourcePort),
    Else(PortsCheck(DestinationPort, r.destinationPort),
       FlagCheck(IcmpType, r.icmpType.stated)))))))))
  }

  /** What ICMP excludes, then the id. */
  function CrossCheck(r: Rule): Option<RuleFault> {
    var icmp := r.protocol.stated == 1 && r.protocol.value == ICMP_PROTOCOL;
    if icmp && r.sourcePort.stated == 1 then Some(PortOnIcmp(SourcePort))
    else if icmp && r.destinationPort.stated == 1 then Some(PortOnIcmp(DestinationPort))
    else if r.icmpType.stated == 1 && r.protocol.stated == 1 && r.protocol.value != ICMP_PROTOCOL then
      Some(IcmpTypeOnNonIcmp(r.protocol.value))
    else
      var fault := IdentifierFault(r.id);
      if fault.Some? then Some(RuleIdNotAnIdentifier(fault.value)) else None
  }

  /** `tracked` is the reader; without it, the contract. */
  function RuleCheck(r: Rule, ports: nat, named: seq<Interface>, tracked: bool): Option<RuleFault> {
    Else(CriteriaCheck(r, ports, named), Else(if tracked then TrackingCheck(r.tracking) else None, CrossCheck(r)))
  }

  const RULE_RULES: nat := 25
  const TRACKING_ROW: nat := 19

  function RuleRule(r: Rule, ports: nat, named: seq<Interface>, tracked: bool, row: nat): Option<RuleFault> {
    match row
    case 0 => When(r.action > 1, ActionUnknown(r.action))
    case 1 => FlagCheck(Ingress, r.ingress.stated)
    case 2 => When(r.ingress.stated == 1 && r.ingress.port >= ports, RulePortUnknown(Ingress, r.ingress.port))
    case 3 =>
      When(r.ingress.stated == 1 && OnPort(named, r.ingress.port).None?,
           RulePortUnconfigured(Ingress, r.ingress.port))
    case 4 => FlagCheck(Egress, r.egress.stated)
    case 5 => When(r.egress.stated == 1 && r.egress.port >= ports, RulePortUnknown(Egress, r.egress.port))
    case 6 =>
      When(r.egress.stated == 1 && OnPort(named, r.egress.port).None?,
           RulePortUnconfigured(Egress, r.egress.port))
    case 7 => FlagCheck(Source, r.source.stated)
    case 8 =>
      When(r.source.stated == 1 && r.source.length > MAX_PREFIX_LENGTH,
           RulePrefixTooLong(Source, r.source.length))
    case 9 => When(r.source.stated == 1 && !Canonical(r.source), NotCanonical(Source, r.source.network))
    case 10 => FlagCheck(Destination, r.destination.stated)
    case 11 =>
      When(r.destination.stated == 1 && r.destination.length > MAX_PREFIX_LENGTH,
           RulePrefixTooLong(Destination, r.destination.length))
    case 12 =>
      When(r.destination.stated == 1 && !Canonical(r.destination),
           NotCanonical(Destination, r.destination.network))
    case 13 => FlagCheck(Protocol, r.protocol.stated)
    case 14 => FlagCheck(SourcePort, r.sourcePort.stated)
    case 15 =>
      When(r.sourcePort.stated == 1 && r.sourcePort.low > r.sourcePort.high,
           RangeReversed(SourcePort, r.sourcePort.low, r.sourcePort.high))
    case 16 => FlagCheck(DestinationPort, r.destinationPort.stated)
    case 17 =>
      When(r.destinationPort.stated == 1 && r.destinationPort.low > r.destinationPort.high,
           RangeReversed(DestinationPort, r.destinationPort.low, r.destinationPort.high))
    case 18 => FlagCheck(IcmpType, r.icmpType.stated)
    case 19 => if tracked then FlagCheck(Tracking, r.tracking.stated) else None
    case 20 => When(tracked && r.tracking.stated == 1 && r.tracking.value > 1, TrackingUnknown(r.tracking.value))
    case 21 => When(r.protocol == Byte(1, ICMP_PROTOCOL) && r.sourcePort.stated == 1, PortOnIcmp(SourcePort))
    case 22 => When(r.protocol == Byte(1, ICMP_PROTOCOL) && r.destinationPort.stated == 1, PortOnIcmp(DestinationPort))
    case 23 =>
      When(r.icmpType.stated == 1 && r.protocol.stated == 1 && r.protocol.value != ICMP_PROTOCOL,
           IcmpTypeOnNonIcmp(r.protocol.value))
    case 24 =>
      var fault := IdentifierFault(r.id);
      if fault.Some? then Some(RuleIdNotAnIdentifier(fault.value)) else None
    case _ => None
  }

  function RuleRowsOf(r: Rule, ports: nat, named: seq<Interface>, tracked: bool): nat -> Option<RuleFault> {
    (row: nat) => RuleRule(r, ports, named, tracked, row)
  }

  function RuleFrom(r: Rule, ports: nat, named: seq<Interface>, tracked: bool, from: nat): Option<RuleFault> {
    First(RULE_RULES, RuleRowsOf(r, ports, named, tracked), from)
  }

  lemma CrossInOrder(r: Rule, ports: nat, named: seq<Interface>, tracked: bool)
    ensures RuleFrom(r, ports, named, tracked, TRACKING_ROW)
         == Else(if tracked then TrackingCheck(r.tracking) else None, CrossCheck(r))
  {
  }

  lemma RangesInOrder(r: Rule, ports: nat, named: seq<Interface>, tracked: bool)
    ensures RuleFrom(r, ports, named, tracked, 13)
         == Else(FlagCheck(Protocol, r.protocol.stated),
            Else(PortsCheck(SourcePort, r.sourcePort),
            Else(PortsCheck(DestinationPort, r.destinationPort),
            Else(FlagCheck(IcmpType, r.icmpType.stated), RuleFrom(r, ports, named, tracked, TRACKING_ROW)))))
  {
  }

  lemma BlocksInOrder(r: Rule, ports: nat, named: seq<Interface>, tracked: bool)
    ensures RuleFrom(r, ports, named, tracked, 7)
         == Else(BlockCheck(Source, r.source),
            Else(BlockCheck(Destination, r.destination), RuleFrom(r, ports, named, tracked, 13)))
  {
  }

  lemma PortsInOrder(r: Rule, ports: nat, named: seq<Interface>, tracked: bool)
    ensures RuleFrom(r, ports, named, tracked, 0)
         == Else(When(r.action > 1, ActionUnknown(r.action)),
            Else(PortCheck(Ingress, r.ingress, ports, named),
            Else(PortCheck(Egress, r.egress, ports, named), RuleFrom(r, ports, named, tracked, 7))))
  {
  }

  lemma RuleInOrder(r: Rule, ports: nat, named: seq<Interface>, tracked: bool)
    ensures RuleCheck(r, ports, named, tracked) == RuleFrom(r, ports, named, tracked, 0)
  {
    CrossInOrder(r, ports, named, tracked);
    RangesInOrder(r, ports, named, tracked);
    BlocksInOrder(r, ports, named, tracked);
    PortsInOrder(r, ports, named, tracked);
  }

  // management

  function CollisionCheck(m: Management, named: seq<Interface>, i: nat): Option<ManagementFault> {
    if i >= |named| then None
    else if PrefixesOverlap(named[i].address, named[i].length, m.address, m.length) then Some(MgmtPrefixCollides(i))
    else if named[i].mac == m.mac then Some(MgmtMacCollides(i))
    else None
  }

  function AddressCheck(m: Management): Option<ManagementFault> {
    if m.length > MAX_PREFIX_LENGTH then Some(MgmtPrefixTooLong(m.length))
    else if !IsUnicast(m.mac) then Some(MgmtMacNotUnicast(m.mac))
    else if !IsUnicastAddress(m.address) then Some(MgmtNotUnicast(m.address))
    else if !IsHostAddress(m.address, m.length) then Some(MgmtNotAHost(m.address))
    else None
  }

  function GatewayCheck(m: Management): Option<ManagementFault> {
    if m.gatewayStated > 1 then Some(GatewayStatedNotBoolean(m.gatewayStated))
    else if m.gatewayStated == 0 then None
    else if !IsUnicastAddress(m.gateway) then Some(GatewayNotUnicast(m.gateway))
    else if m.gateway == m.address then Some(GatewayIsTheAddress(m.gateway))
    else if !InsidePrefix(m.gateway, m.address, m.length) then Some(GatewayOffLink(m.gateway))
    else None
  }

  function Collisions(m: Management, named: seq<Interface>): nat -> Option<ManagementFault> {
    (i: nat) => CollisionCheck(m, named, i)
  }

  /** With the flag at zero the other fields are not looked at. */
  function ManagementCheck(m: Management, named: seq<Interface>): Option<ManagementFault> {
    if m.enabled > 1 then Some(MgmtEnabledNotBoolean(m.enabled))
    else if m.enabled == 0 then None
    else Else(AddressCheck(m), Else(First(|named|, Collisions(m, named), 0), GatewayCheck(m)))
  }

  /** By phase: the entry alone, against each interface, its gateway. */
  function ManagementRule(m: Management, named: seq<Interface>, phase: nat, i: nat, row: nat): Option<ManagementFault> {
    var enabled, stated := m.enabled == 1, m.enabled == 1 && m.gatewayStated == 1;
    match (phase, row)
    case (0, 0) => When(i == 0 && m.enabled > 1, MgmtEnabledNotBoolean(m.enabled))
    case (0, 1) => When(i == 0 && enabled && m.length > MAX_PREFIX_LENGTH, MgmtPrefixTooLong(m.length))
    case (0, 2) => When(i == 0 && enabled && !IsUnicast(m.mac), MgmtMacNotUnicast(m.mac))
    case (0, 3) => When(i == 0 && enabled && !IsUnicastAddress(m.address), MgmtNotUnicast(m.address))
    case (0, 4) => When(i == 0 && enabled && !IsHostAddress(m.address, m.length), MgmtNotAHost(m.address))
    case (1, 0) =>
      When(i < |named| && enabled && PrefixesOverlap(named[i].address, named[i].length, m.address, m.length),
           MgmtPrefixCollides(i))
    case (1, 1) => When(i < |named| && enabled && named[i].mac == m.mac, MgmtMacCollides(i))
    case (2, 0) => When(i == 0 && enabled && m.gatewayStated > 1, GatewayStatedNotBoolean(m.gatewayStated))
    case (2, 1) => When(i == 0 && stated && !IsUnicastAddress(m.gateway), GatewayNotUnicast(m.gateway))
    case (2, 2) => When(i == 0 && stated && m.gateway == m.address, GatewayIsTheAddress(m.gateway))
    case (2, 3) => When(i == 0 && stated && !InsidePrefix(m.gateway, m.address, m.length), GatewayOffLink(m.gateway))
    case _ => None
  }

  // ----------------------------------------------------------------- the verdict

  function Covered<T>(slots: seq<T>, count: nat): seq<T> { if count <= |slots| then slots[..count] else [] }

  /** What the counts cover, and who is judging: `tracked` for the reader, without
      it the contract. */
  datatype Given = Given(
    named: seq<Interface>, hops: seq<Neighbour>, policy: seq<Rule>, management: Management,
    ports: nat, tracked: bool)

  function InterfaceAt(g: Given, i: nat): Option<Error> {
    if i >= |g.named| then None
    else
      var fault := InterfaceCheck(g.named[i], g.ports);
      if fault.Some? then Some(InterfaceError(i, fault.value)) else None
  }

  function PairAt(g: Given, i: nat, j: nat): Option<Error> {
    if i >= |g.named| || j >= i then None
    else
      var fault := PairCheck(g.named[j], g.named[i]);
      if fault.Some? then Some(InterfacePairError(i, j, fault.value)) else None
  }

  function NeighbourAt(g: Given, i: nat): Option<Error> {
    if i >= |g.hops| then None
    else
      var fault := NeighbourCheck(g.hops[i], g.ports, g.named);
      if fault.Some? then Some(NeighbourError(i, fault.value)) else None
  }

  function SameHopAt(g: Given, i: nat, j: nat): Option<Error> {
    if i >= |g.hops| || j >= i then None
    else When(g.hops[j].port == g.hops[i].port && g.hops[j].address == g.hops[i].address, NeighbourDuplicated(i, j))
  }

  function RuleAt(g: Given, i: nat): Option<Error> {
    if i >= |g.policy| then None
    else
      var fault := RuleCheck(g.policy[i], g.ports, g.named, g.tracked);
      if fault.Some? then Some(RuleError(i, fault.value)) else None
  }

  predicate Passed(g: Given, j: nat) { RuleAt(g, j).None? }

  predicate SameRuleId(g: Given, i: nat, j: nat)
    requires j < i < |g.policy|
  {
    Text(g.policy[j].id) == Text(g.policy[i].id)
  }

  /** `guarded` asks again whether the earlier rule is itself well formed. */
  function SameRuleAt(g: Given, guarded: bool, i: nat, j: nat): Option<Error> {
    if i >= |g.policy| || j >= i then None
    else When((guarded ==> Passed(g, j)) && SameRuleId(g, i, j), RuleIdDuplicated(i, j))
  }

  function PolicyAt(g: Given, guarded: bool, i: nat): Option<Error> {
    Else(RuleAt(g, i), First(i, SameRulesOf(g, guarded, i), 0))
  }

  // The loops, as checks tried on each index in turn.

  function Interfaces(g: Given): nat -> Option<Error> { (i: nat) => InterfaceAt(g, i) }
  function PairsOf(g: Given, i: nat): nat -> Option<Error> { (j: nat) => PairAt(g, i, j) }
  function Pairs(g: Given): nat -> Option<Error> { (i: nat) => First(i, PairsOf(g, i), 0) }
  function Neighbours(g: Given): nat -> Option<Error> { (i: nat) => NeighbourAt(g, i) }
  function SameHopsOf(g: Given, i: nat): nat -> Option<Error> { (j: nat) => SameHopAt(g, i, j) }
  function SameHops(g: Given): nat -> Option<Error> { (i: nat) => First(i, SameHopsOf(g, i), 0) }
  function SameRulesOf(g: Given, guarded: bool, i: nat): nat -> Option<Error> {
    (j: nat) => SameRuleAt(g, guarded, i, j)
  }

  function Policy(g: Given, guarded: bool): nat -> Option<Error> { (i: nat) => PolicyAt(g, guarded, i) }

  function OfManagement(fault: Option<ManagementFault>): Option<Error> {
    if fault.Some? then Some(ManagementError(fault.value)) else None
  }

  function ManagementVerdict(g: Given): Option<Error> { OfManagement(ManagementCheck(g.management, g.named)) }

  function Judge(g: Given, guarded: bool): Option<Error> {
    Else(First(|g.named|, Interfaces(g), 0),
    Else(First(|g.named|, Pairs(g), 0),
    Else(First(|g.hops|, Neighbours(g), 0),
    Else(First(|g.hops|, SameHops(g), 0),
    Else(First(|g.policy|, Policy(g, guarded), 0),
         ManagementVerdict(g))))))
  }

  function GivenBy(b: Body, ports: nat, tracked: bool): Given {
    Given(Covered(b.interfaces, b.interfaceCount), Covered(b.neighbours, b.neighbourCount),
          Covered(b.rules, b.ruleCount), b.management, ports, tracked)
  }

  function HeadCheck(image: Image, folded: nat): Option<Error> {
    var b := image.body;
    if folded != image.digest then Some(DigestMismatch(image.digest, folded))
    else if b.interfaceCount > |b.interfaces| then Some(InterfaceCountExceedsCapacity(b.interfaceCount))
    else if b.neighbourCount > |b.neighbours| then Some(NeighbourCountExceedsCapacity(b.neighbourCount))
    else if b.ruleCount > |b.rules| then Some(RuleCountExceedsCapacity(b.ruleCount))
    else None
  }

  /** What an image is refused for; `folded` is the digest of its body. The
      contract guards the duplicate test; the reader does not. */
  function Refusal(image: Image, folded: nat, ports: nat, tracked: bool): Option<Error> {
    Else(HeadCheck(image, folded), Judge(GivenBy(image.body, ports, tracked), !tracked))
  }
}
