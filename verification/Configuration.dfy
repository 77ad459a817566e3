/**
 A configuration as the parsing domain holds it, what that domain refuses one for,
 and the handover image it becomes. Objects name interfaces by id;
 the image names them by port, so building one resolves every reference.

 `Validate` and the reader of the image (`Handover.Refusal`) decide the same rules
 on two sides of a trust boundary. `ConfigurationRules` relates the two.
 */
module Configuration {
  import opened Wrappers
  import opened Alphabet
  import opened Chains
  import opened Prefix
  import opened Handover

  const PORT_COUNT: nat := 2
  const MAX_IDENTIFIER_LEN: nat := 16
  const MAX_INTERFACES: nat := 8
  const MAX_NEIGHBOURS: nat := 32
  const MAX_RULES: nat := 256
  const MAX_DOCUMENT_BYTES: nat := 65536

  // ------------------------------------------------------------------ the model

  type Id = text: seq<nat> |
    0 < |text| <= MAX_IDENTIFIER_LEN && forall k :: 0 <= k < |text| ==> InAlphabet(text[k])
    witness ['a' as nat]

  datatype InterfaceEntry = InterfaceEntry(
    id: Id, port: nat, enabled: bool, length: nat, mac: Mac, address: Word)

  datatype NeighbourEntry = NeighbourEntry(id: Id, interface: Id, address: Word, mac: Mac)

  datatype ManagementEntry = ManagementEntry(
    enabled: bool, length: nat, mac: Mac, address: Word, gateway: Option<Word>)

  datatype AddressBlock = AddressBlock(network: Word, length: nat)
  datatype PortRange = PortRange(low: nat, high: nat)
  datatype TrackingMatch = AnyTraffic | Opening | Related
  datatype RuleAction = AcceptFrame | DropFrame

  /** A criterion that matches anything is `None`. */
  datatype RuleEntry = RuleEntry(
    id: Id, ingress: Option<Id>, egress: Option<Id>,
    source: Option<AddressBlock>, destination: Option<AddressBlock>, protocol: Option<nat>,
    sourcePort: Option<PortRange>, destinationPort: Option<PortRange>, icmpType: Option<nat>,
    tracking: TrackingMatch, action: RuleAction)

  datatype Entries = Entries(
    interfaces: seq<InterfaceEntry>, neighbours: seq<NeighbourEntry>,
    management: Option<ManagementEntry>, rules: seq<RuleEntry>)

  predicate Fits(m: Entries) {
    |m.interfaces| <= MAX_INTERFACES && |m.neighbours| <= MAX_NEIGHBOURS && |m.rules| <= MAX_RULES
  }

  /** Each list fits its array in the image. */
  type Model = m: Entries | Fits(m) witness Entries([], [], None, [])

  const EMPTY: Model := Entries([], [], None, [])

  /** The first interface of that id. */
  function Named(interfaces: seq<InterfaceEntry>, id: Id): (found: Option<InterfaceEntry>)
    ensures found.Some? ==> found.value in interfaces && found.value.id == id
    ensures found.None? ==> forall i :: 0 <= i < |interfaces| ==> interfaces[i].id != id
  {
    if interfaces == [] then None
    else if interfaces[0].id == id then Some(interfaces[0])
    else Named(interfaces[1..], id)
  }

  // ------------------------------------------------------------------- the rules

  datatype SemanticError =
    | DuplicateInterfaceId(id: Id)
    | DuplicateNeighbourId(id: Id)
    | DuplicatePort(id: Id, other: Id, port: nat)
    | PortOutOfRange(id: Id, port: nat)
    | PrefixLengthOutOfRange(id: Id, length: nat)
    | InterfaceAddressNotAHostAddress(id: Id)
    | InterfaceAddressNotUnicast(id: Id)
    | InterfaceMacNotUnicast(id: Id)
    | OverlappingPrefixes(id: Id, other: Id)
    | DuplicateInterfaceMac(id: Id, other: Id)
    | UnknownInterfaceReference(id: Id, interface: Id)
    | NeighbourAddressNotUnicast(id: Id)
    | NeighbourMacNotUnicast(id: Id)
    | NeighbourOutsidePrefix(id: Id)
    | NeighbourIsInterfaceAddress(id: Id)
    | NeighbourAddressNotAHostAddress(id: Id)
    | DuplicateNeighbourAddress(id: Id, other: Id)
    | ManagementPrefixLengthOutOfRange(length: nat)
    | ManagementAddressNotUnicast
    | ManagementAddressNotAHostAddress
    | ManagementMacNotUnicast
    | ManagementPrefixCollidesWithInterface(other: Id)
    | ManagementMacCollidesWithInterface(other: Id)
    | ManagementGatewayNotUnicast
    | ManagementGatewayIsTheAddress
    | ManagementGatewayNotOnLink
    | DuplicateRuleId(id: Id)
    | UnknownRuleInterfaceReference(id: Id, criterion: Criterion, interface: Id)
    | RulePrefixLengthOutOfRange(id: Id, criterion: Criterion, length: nat)
    | RulePrefixNotCanonical(id: Id, criterion: Criterion)
    | RulePortRangeReversed(id: Id, criterion: Criterion)
    | RulePortCriterionOnIcmp(id: Id, criterion: Criterion)
    | RuleIcmpTypeOnNonIcmp(id: Id)
    | RenderingTooLarge(len: nat)

  function InterfaceIdAt(m: Model, i: nat): Option<SemanticError> {
    if i < |m.interfaces| && exists j :: 0 <= j < i && m.interfaces[j].id == m.interfaces[i].id then
      Some(DuplicateInterfaceId(m.interfaces[i].id))
    else None
  }

  function InterfaceFields(e: InterfaceEntry): Option<SemanticError> {
    if e.port >= PORT_COUNT then Some(PortOutOfRange(e.id, e.port))
    else if e.length > MAX_PREFIX_LENGTH then Some(PrefixLengthOutOfRange(e.id, e.length))
    else if !IsUnicast(e.mac) then Some(InterfaceMacNotUnicast(e.id))
    else if !IsUnicastAddress(e.address) then Some(InterfaceAddressNotUnicast(e.id))
    else if !IsHostAddress(e.address, e.length) then Some(InterfaceAddressNotAHostAddress(e.id))
    else None
  }

  function InterfaceFieldsAt(m: Model, i: nat): Option<SemanticError> {
    if i < |m.interfaces| then InterfaceFields(m.interfaces[i]) else None
  }

  function Topology(earlier: InterfaceEntry, e: InterfaceEntry): Option<SemanticError> {
    if earlier.port == e.port then Some(DuplicatePort(e.id, earlier.id, e.port))
    else if earlier.mac == e.mac then Some(DuplicateInterfaceMac(e.id, earlier.id))
    else if PrefixesOverlap(earlier.address, earlier.length, e.address, e.length) then
      Some(OverlappingPrefixes(e.id, earlier.id))
    else None
  }

  function TopologyAt(m: Model, i: nat, j: nat): Option<SemanticError> {
    if j < i < |m.interfaces| then Topology(m.interfaces[j], m.interfaces[i]) else None
  }

  function NeighbourIdAt(m: Model, i: nat): Option<SemanticError> {
    if i < |m.neighbours| && exists j :: 0 <= j < i && m.neighbours[j].id == m.neighbours[i].id then
      Some(DuplicateNeighbourId(m.neighbours[i].id))
    else None
  }

  function NeighbourFields(e: NeighbourEntry, on: InterfaceEntry): Option<SemanticError> {
    if !IsUnicast(e.mac) then Some(NeighbourMacNotUnicast(e.id))
    else if !IsUnicastAddress(e.address) then Some(NeighbourAddressNotUnicast(e.id))
    else if e.address == on.address then Some(NeighbourIsInterfaceAddress(e.id))
    else if !InsidePrefix(e.address, on.address, on.length) then Some(NeighbourOutsidePrefix(e.id))
    else if !IsHostAddress(e.address, on.length) then Some(NeighbourAddressNotAHostAddress(e.id))
    else None
  }

  function NeighbourFieldsAt(m: Model, i: nat): Option<SemanticError> {
    if i >= |m.neighbours| then None
    else
      var e := m.neighbours[i];
      var on := Named(m.interfaces, e.interface);
      if on.None? then Some(UnknownInterfaceReference(e.id, e.interface)) else NeighbourFields(e, on.value)
  }

  function SameAddressAt(m: Model, i: nat, j: nat): Option<SemanticError> {
    if j < i < |m.neighbours|
       && m.neighbours[j].interface == m.neighbours[i].interface
       && m.neighbours[j].address == m.neighbours[i].address
    then Some(DuplicateNeighbourAddress(m.neighbours[i].id, m.neighbours[j].id))
    else None
  }

  function ManagementFields(e: ManagementEntry): Option<SemanticError> {
    if e.length > MAX_PREFIX_LENGTH then Some(ManagementPrefixLengthOutOfRange(e.length))
    else if !IsUnicast(e.mac) then Some(ManagementMacNotUnicast)
    else if !IsUnicastAddress(e.address) then Some(ManagementAddressNotUnicast)
    else if !IsHostAddress(e.address, e.length) then Some(ManagementAddressNotAHostAddress)
    else None
  }

  function Collides(e: ManagementEntry, interface: InterfaceEntry): Option<SemanticError> {
    if PrefixesOverlap(interface.address, interface.length, e.address, e.length) then
      Some(ManagementPrefixCollidesWithInterface(interface.id))
    else When(interface.mac == e.mac, ManagementMacCollidesWithInterface(interface.id))
  }

  function CollidesAt(m: Model, e: ManagementEntry, i: nat): Option<SemanticError> {
    if i < |m.interfaces| then Collides(e, m.interfaces[i]) else None
  }

  function GatewayFields(e: ManagementEntry): Option<SemanticError> {
    if e.gateway.None? then None
    else if !IsUnicastAddress(e.gateway.value) then Some(ManagementGatewayNotUnicast)
    else if e.gateway.value == e.address then Some(ManagementGatewayIsTheAddress)
    else if !InsidePrefix(e.gateway.value, e.address, e.length) then Some(ManagementGatewayNotOnLink)
    else None
  }

  /** Held of a disabled entry too. */
  function ManagementFaultOf(m: Model): Option<SemanticError> {
    if m.management.None? then None
    else
      var e := m.management.value;
      Else(ManagementFields(e), Else(First(|m.interfaces|, CollisionsOf(m, e), 0), GatewayFields(e)))
  }

  function RuleIdAt(m: Model, i: nat): Option<SemanticError> {
    if i < |m.rules| && exists j :: 0 <= j < i && m.rules[j].id == m.rules[i].id then
      Some(DuplicateRuleId(m.rules[i].id))
    else None
  }

  function ReferenceFault(m: Model, id: Id, c: Criterion, interface: Option<Id>): Option<SemanticError> {
    if interface.Some? && Named(m.interfaces, interface.value).None? then
      Some(UnknownRuleInterfaceReference(id, c, interface.value))
    else None
  }

  predicate HostBitsClear(b: AddressBlock) {
    And(b.network, Not(PrefixMask(b.length))) == Zeros(MAX_PREFIX_LENGTH)
  }

  function BlockFault(id: Id, c: Criterion, block: Option<AddressBlock>): Option<SemanticError> {
    if block.None? then None
    else if block.value.length > MAX_PREFIX_LENGTH then Some(RulePrefixLengthOutOfRange(id, c, block.value.length))
    else When(!HostBitsClear(block.value), RulePrefixNotCanonical(id, c))
  }

  function RangeFault(id: Id, c: Criterion, range: Option<PortRange>): Option<SemanticError> {
    if range.Some? && range.value.low > range.value.high then Some(RulePortRangeReversed(id, c)) else None
  }

  function OnIcmp(r: RuleEntry, c: Criterion, range: Option<PortRange>): Option<SemanticError> {
    When(r.protocol == Some(ICMP_PROTOCOL) && range.Some?, RulePortCriterionOnIcmp(r.id, c))
  }

  function TypeFault(r: RuleEntry): Option<SemanticError> {
    When(r.icmpType.Some? && r.protocol.Some? && r.protocol.value != ICMP_PROTOCOL, RuleIcmpTypeOnNonIcmp(r.id))
  }

  function ReferenceFaults(m: Model, r: RuleEntry): Option<SemanticError> {
    Else(ReferenceFault(m, r.id, Ingress, r.ingress), ReferenceFault(m, r.id, Egress, r.egress))
  }

  function BlockFaults(r: RuleEntry): Option<SemanticError> {
    Else(BlockFault(r.id, Source, r.source), BlockFault(r.id, Destination, r.destination))
  }

  function RangeFaults(r: RuleEntry): Option<SemanticError> {
    Else(RangeFault(r.id, SourcePort, r.sourcePort), RangeFault(r.id, DestinationPort, r.destinationPort))
  }

  function IcmpFaults(r: RuleEntry): Option<SemanticError> {
    Else(OnIcmp(r, SourcePort, r.sourcePort), Else(OnIcmp(r, DestinationPort, r.destinationPort), TypeFault(r)))
  }

  /** References, blocks, ranges, and last what ICMP excludes. */
  function RuleFields(m: Model, r: RuleEntry): Option<SemanticError> {
    Else(ReferenceFaults(m, r), Else(BlockFaults(r), Else(RangeFaults(r), IcmpFaults(r))))
  }

  function RuleFieldsAt(m: Model, i: nat): Option<SemanticError> {
    if i < |m.rules| then RuleFields(m, m.rules[i]) else None
  }

  // The loops, as checks tried on each index in turn.

  function InterfaceIds(m: Model): nat -> Option<SemanticError> { (i: nat) => InterfaceIdAt(m, i) }
  function InterfaceFieldsOf(m: Model): nat -> Option<SemanticError> { (i: nat) => InterfaceFieldsAt(m, i) }
  function TopologyOf(m: Model, i: nat): nat -> Option<SemanticError> { (j: nat) => TopologyAt(m, i, j) }
  function Topologies(m: Model): nat -> Option<SemanticError> { (i: nat) => First(i, TopologyOf(m, i), 0) }
  function NeighbourIds(m: Model): nat -> Option<SemanticError> { (i: nat) => NeighbourIdAt(m, i) }
  function NeighbourFieldsOf(m: Model): nat -> Option<SemanticError> { (i: nat) => NeighbourFieldsAt(m, i) }
  function SameAddressesOf(m: Model, i: nat): nat -> Option<SemanticError> { (j: nat) => SameAddressAt(m, i, j) }
  function SameAddresses(m: Model): nat -> Option<SemanticError> { (i: nat) => First(i, SameAddressesOf(m, i), 0) }
  function CollisionsOf(m: Model, e: ManagementEntry): nat -> Option<SemanticError> { (i: nat) => CollidesAt(m, e, i) }
  function RuleIds(m: Model): nat -> Option<SemanticError> { (i: nat) => RuleIdAt(m, i) }
  function RuleFieldsOf(m: Model): nat -> Option<SemanticError> { (i: nat) => RuleFieldsAt(m, i) }

  /** Everything the document side refuses, the first rule broken; `rendered` is
      the length of the configuration's canonical document. */
  function Validate(m: Model, rendered: nat): Option<SemanticError> {
    Else(First(|m.interfaces|, InterfaceIds(m), 0),
    Else(First(|m.interfaces|, InterfaceFieldsOf(m), 0),
    Else(First(|m.interfaces|, Topologies(m), 0),
    Else(First(|m.neighbours|, NeighbourIds(m), 0),
    Else(First(|m.neighbours|, NeighbourFieldsOf(m), 0),
    Else(First(|m.neighbours|, SameAddresses(m), 0),
    Else(ManagementFaultOf(m),
    Else(First(|m.rules|, RuleIds(m), 0),
    Else(First(|m.rules|, RuleFieldsOf(m), 0),
         When(rendered > MAX_DOCUMENT_BYTES, RenderingTooLarge(rendered)))))))))))
  }

  // ------------------------------------------------------------------- the image

  datatype BuildError =
    | UnresolvedInterface(neighbour: Id, interface: Id)
    | UnresolvedRuleInterface(rule: Id, interface: Id)

  function Bit(b: bool): nat { if b then 1 else 0 }

  function Blank(n: nat): (bytes: seq<nat>)
    ensures |bytes| == n
  {
    seq(n, _ => 0)
  }

  /** Zeros after the text, up to the storage every identifier has. */
  function IdImage(id: Id): Identifier { Identifier(id + Blank(MAX_IDENTIFIER_LEN - |id|), |id|) }

  const NO_MAC: Mac := [0, 0, 0, 0, 0, 0]
  const NO_ADDRESS: Word := Zeros(MAX_PREFIX_LENGTH)
  const NO_ID: Identifier := Identifier(Blank(MAX_IDENTIFIER_LEN), 0)
  const NO_INTERFACE: Interface := Interface(0, 0, 0, NO_MAC, NO_ADDRESS, NO_ID)
  const NO_NEIGHBOUR: Neighbour := Neighbour(0, NO_MAC, NO_ADDRESS)
  const NO_MANAGEMENT: Management := Management(0, 0, 0, NO_MAC, NO_ADDRESS, NO_ADDRESS)
  const NO_PORT: Port := Port(0, 0)
  const NO_BLOCK: Block := Block(0, NO_ADDRESS, 0)
  const NO_PORTS: Ports := Ports(0, 0, 0)
  const NO_BYTE: Byte := Byte(0, 0)
  const NO_RULE: Rule :=
    Rule(0, NO_PORT, NO_PORT, NO_BLOCK, NO_BLOCK, NO_BYTE, NO_PORTS, NO_PORTS, NO_BYTE, NO_BYTE, NO_ID)

  function InterfaceImage(e: InterfaceEntry): Interface {
    Interface(e.port, Bit(e.enabled), e.length, e.mac, e.address, IdImage(e.id))
  }

  /** The port a name stands for; zero for a name nothing carries. */
  function PortOf(m: Model, id: Id): nat {
    var found := Named(m.interfaces, id);
    if found.Some? then found.value.port else 0
  }

  function NeighbourImage(m: Model, e: NeighbourEntry): Neighbour {
    Neighbour(PortOf(m, e.interface), e.mac, e.address)
  }

  function ManagementImage(management: Option<ManagementEntry>): Management {
    match management
    case None => NO_MANAGEMENT
    case Some(e) =>
      Management(Bit(e.enabled), e.length, Bit(e.gateway.Some?), e.mac, e.address,
                 if e.gateway.Some? then e.gateway.value else NO_ADDRESS)
  }

  function PortImage(m: Model, interface: Option<Id>): Port {
    if interface.Some? then Port(1, PortOf(m, interface.value)) else NO_PORT
  }

  function BlockImage(block: Option<AddressBlock>): Block {
    if block.Some? then Block(1, block.value.network, block.value.length) else NO_BLOCK
  }

  function PortsImage(range: Option<PortRange>): Ports {
    if range.Some? then Ports(1, range.value.low, range.value.high) else NO_PORTS
  }

  function ByteImage(value: Option<nat>): Byte { if value.Some? then Byte(1, value.value) else NO_BYTE }

  function TrackingImage(t: TrackingMatch): Byte {
    match t case AnyTraffic => NO_BYTE case Opening => Byte(1, 0) case Related => Byte(1, 1)
  }

  function RuleImage(m: Model, r: RuleEntry): Rule {
    Rule(Bit(r.action.DropFrame?), PortImage(m, r.ingress), PortImage(m, r.egress),
         BlockImage(r.source), BlockImage(r.destination), ByteImage(r.protocol),
         PortsImage(r.sourcePort), PortsImage(r.destinationPort), ByteImage(r.icmpType),
         TrackingImage(r.tracking), IdImage(r.id))
  }

  function InterfaceImages(m: Model): (images: seq<Interface>)
    ensures |images| == |m.interfaces|
    ensures forall i :: 0 <= i < |images| ==> images[i] == InterfaceImage(m.interfaces[i])
  {
    seq(|m.interfaces|, i requires 0 <= i < |m.interfaces| => InterfaceImage(m.interfaces[i]))
  }

  function NeighbourImages(m: Model): (images: seq<Neighbour>)
    ensures |images| == |m.neighbours|
    ensures forall i :: 0 <= i < |images| ==> images[i] == NeighbourImage(m, m.neighbours[i])
  {
    seq(|m.neighbours|, i requires 0 <= i < |m.neighbours| => NeighbourImage(m, m.neighbours[i]))
  }

  function RuleImages(m: Model): (images: seq<Rule>)
    ensures |images| == |m.rules|
    ensures forall i :: 0 <= i < |images| ==> images[i] == RuleImage(m, m.rules[i])
  {
    seq(|m.rules|, i requires 0 <= i < |m.rules| => RuleImage(m, m.rules[i]))
  }

  /** The slots an array holds: what is there, then zeros. */
  function Slots<T>(held: seq<T>, zero: T, capacity: nat): seq<T>
    requires |held| <= capacity
  {
    held + seq(capacity - |held|, _ => zero)
  }

  function ImageOf(m: Model, generation: nat): Body {
    Body(generation, |m.interfaces|, |m.neighbours|, |m.rules|, ManagementImage(m.management),
         Slots(InterfaceImages(m), NO_INTERFACE, MAX_INTERFACES),
         Slots(NeighbourImages(m), NO_NEIGHBOUR, MAX_NEIGHBOURS),
         Slots(RuleImages(m), NO_RULE, MAX_RULES))
  }

  function HopFaultAt(m: Model, i: nat): Option<BuildError> {
    if i < |m.neighbours| && Named(m.interfaces, m.neighbours[i].interface).None? then
      Some(UnresolvedInterface(m.neighbours[i].id, m.neighbours[i].interface))
    else None
  }

  function NameFault(m: Model, rule: Id, interface: Option<Id>): Option<BuildError> {
    if interface.Some? && Named(m.interfaces, interface.value).None? then
      Some(UnresolvedRuleInterface(rule, interface.value))
    else None
  }

  function RuleFaultAt(m: Model, i: nat): Option<BuildError> {
    if i >= |m.rules| then None
    else Else(NameFault(m, m.rules[i].id, m.rules[i].ingress), NameFault(m, m.rules[i].id, m.rules[i].egress))
  }

  function HopFaults(m: Model): nat -> Option<BuildError> { (i: nat) => HopFaultAt(m, i) }
  function RuleFaults(m: Model): nat -> Option<BuildError> { (i: nat) => RuleFaultAt(m, i) }

  /** The image, or the first name that stands for no interface. */
  function ImageFrom(m: Model, generation: nat): Result<Body, BuildError> {
    var fault := Else(First(|m.neighbours|, HopFaults(m), 0), First(|m.rules|, RuleFaults(m), 0));
    if fault.Some? then Err(fault.value) else Ok(ImageOf(m, generation))
  }

  // ----------------------------------------------------------- building it in place

  lemma SlotFilled<T>(images: seq<T>, zero: T, capacity: nat, k: nat)
    requires k < |images| <= capacity
    ensures |Slots(images[..k], zero, capacity)| == capacity
    ensures Slots(images[..k], zero, capacity)[k := images[k]] == Slots(images[..k + 1], zero, capacity)
  {
  }

  /** Where every check below `k` is silent, the first answer is at `k` or later. */
  lemma {:induction false} FirstSkips<E>(n: nat, check: nat -> Option<E>, from: nat, k: nat)
    requires from <= k <= n && forall j: nat :: from <= j < k ==> check(j).None?
    ensures First(n, check, from) == First(n, check, k)
    decreases k - from
  {
    if from < k { FirstSkips(n, check, from + 1, k); }
  }

  method FillNeighbours(m: Model) returns (r: Result<seq<Neighbour>, BuildError>)
    ensures var fault := First(|m.neighbours|, HopFaults(m), 0);
            r == if fault.Some? then Err(fault.value) else Ok(Slots(NeighbourImages(m), NO_NEIGHBOUR, MAX_NEIGHBOURS))
  {
    var slots := seq(MAX_NEIGHBOURS, _ => NO_NEIGHBOUR);
    var k := 0;
    while k < |m.neighbours|
      invariant k <= |m.neighbours| && slots == Slots(NeighbourImages(m)[..k], NO_NEIGHBOUR, MAX_NEIGHBOURS)
      invariant forall j: nat :: 0 <= j < k ==> HopFaults(m)(j).None?
    {
      FirstSkips(|m.neighbours|, HopFaults(m), 0, k);
      var e := m.neighbours[k];
      var found := Named(m.interfaces, e.interface);
      if found.None? {
        return Err(UnresolvedInterface(e.id, e.interface));
      }
      SlotFilled(NeighbourImages(m), NO_NEIGHBOUR, MAX_NEIGHBOURS, k);
      slots := slots[k := Neighbour(found.value.port, e.mac, e.address)];
      k := k + 1;
    }
    FirstSkips(|m.neighbours|, HopFaults(m), 0, k);
    assert NeighbourImages(m)[..k] == NeighbourImages(m);
    r := Ok(slots);
  }

  method FillRules(m: Model) returns (r: Result<seq<Rule>, BuildError>)
    ensures var fault := First(|m.rules|, RuleFaults(m), 0);
            r == if fault.Some? then Err(fault.value) else Ok(Slots(RuleImages(m), NO_RULE, MAX_RULES))
  {
    var slots := seq(MAX_RULES, _ => NO_RULE);
    var k := 0;
    while k < |m.rules|
      invariant k <= |m.rules| && slots == Slots(RuleImages(m)[..k], NO_RULE, MAX_RULES)
      invariant forall j: nat :: 0 <= j < k ==> RuleFaults(m)(j).None?
    {
      FirstSkips(|m.rules|, RuleFaults(m), 0, k);
      var e := m.rules[k];
      if e.ingress.Some? && Named(m.interfaces, e.ingress.value).None? {
        return Err(UnresolvedRuleInterface(e.id, e.ingress.value));
      }
      if e.egress.Some? && Named(m.interfaces, e.egress.value).None? {
        return Err(UnresolvedRuleInterface(e.id, e.egress.value));
      }
      SlotFilled(RuleImages(m), NO_RULE, MAX_RULES, k);
      slots := slots[k := RuleImage(m, e)];
      k := k + 1;
    }
    FirstSkips(|m.rules|, RuleFaults(m), 0, k);
    assert RuleImages(m)[..k] == RuleImages(m);
    r := Ok(slots);
  }

  /** Slot by slot into a zeroed image, giving up at the first name that does not
      resolve. */
  method BuildImage(m: Model, generation: nat) returns (r: Result<Body, BuildError>)
    ensures r == ImageFrom(m, generation)
  {
    var interfaces := seq(MAX_INTERFACES, _ => NO_INTERFACE);
    var k := 0;
    while k < |m.interfaces|
      invariant k <= |m.interfaces| && interfaces == Slots(InterfaceImages(m)[..k], NO_INTERFACE, MAX_INTERFACES)
    {
      SlotFilled(InterfaceImages(m), NO_INTERFACE, MAX_INTERFACES, k);
      interfaces := interfaces[k := InterfaceImage(m.interfaces[k])];
      k := k + 1;
    }
    assert InterfaceImages(m)[..k] == InterfaceImages(m);
    var hops := FillNeighbours(m);
    if hops.Err? {
      return Err(hops.error);
    }
    var rules := FillRules(m);
    if rules.Err? {
      return Err(rules.error);
    }
    r := Ok(Body(generation, |m.interfaces|, |m.neighbours|, |m.rules|, ManagementImage(m.management),
                 interfaces, hops.value, rules.value));
  }
}
