/**
 One configuration is judged twice: as a model, before it is committed, and as an
 image, by the domain that routes by it. What passes the first always becomes an image and always passes the
 second; what passes the second would have passed the first, but for the three
 things an image does not say.
 */
module ConfigurationRules {
  import opened Wrappers
  import opened Chains
  import opened Prefix
  import opened Handover
  import opened HandoverMeaning
  import opened HandoverDecoded
  import opened Configuration

  /** What the reader is given: the image of each object the model holds. */
  function Seen(m: Model): Given {
    Given(InterfaceImages(m), NeighbourImages(m), RuleImages(m), ManagementImage(m.management), PORT_COUNT, true)
  }

  lemma CoveredSlots<T>(held: seq<T>, zero: T, capacity: nat)
    requires |held| <= capacity
    ensures Covered(Slots(held, zero, capacity), |held|) == held
  {
  }

  lemma ReaderIsGiven(m: Model, generation: nat)
    ensures GivenBy(ImageOf(m, generation), PORT_COUNT, true) == Seen(m)
  {
    CoveredSlots(InterfaceImages(m), NO_INTERFACE, MAX_INTERFACES);
    CoveredSlots(NeighbourImages(m), NO_NEIGHBOUR, MAX_NEIGHBOURS);
    CoveredSlots(RuleImages(m), NO_RULE, MAX_RULES);
  }

  lemma IdsCross(a: Id, b: Id)
    ensures Text(IdImage(a)) == a && IdSound(IdImage(a))
    ensures Text(IdImage(a)) == Text(IdImage(b)) <==> a == b
  {
    assert (a + Blank(MAX_IDENTIFIER_LEN - |a|))[..|a|] == a;
    assert (b + Blank(MAX_IDENTIFIER_LEN - |b|))[..|b|] == b;
  }

  // ------------------------------------------------------------------ interfaces

  predicate InterfacesHold(m: Model) {
    && First(|m.interfaces|, InterfaceIds(m), 0).None?
    && First(|m.interfaces|, InterfaceFieldsOf(m), 0).None?
    && First(|m.interfaces|, Topologies(m), 0).None?
  }

  lemma InterfaceFieldsIff(e: InterfaceEntry)
    ensures InterfaceFields(e).None? <==> InterfaceSound(InterfaceImage(e), PORT_COUNT)
  {
    IdsCross(e.id, e.id);
  }

  lemma TopologyIff(a: InterfaceEntry, b: InterfaceEntry)
    ensures Topology(a, b).None? && a.id != b.id <==> PairSound(InterfaceImage(a), InterfaceImage(b))
  {
    IdsCross(a.id, b.id);
  }

  lemma InterfaceAtIff(m: Model, i: nat)
    requires i < |m.interfaces|
    ensures InterfaceIdAt(m, i).None? && Topologies(m)(i).None? <==> ApartFromEarlier(Seen(m), i)
  {
    FirstNone(i, TopologyOf(m, i));
    var g := Seen(m);
    forall j: nat | j < i
      ensures TopologyOf(m, i)(j).None? && m.interfaces[j].id != m.interfaces[i].id <==>
                PairSound(g.named[j], g.named[i])
    {
      TopologyIff(m.interfaces[j], m.interfaces[i]);
    }
  }

  lemma AllInterfaceFieldsIff(m: Model)
    ensures First(|m.interfaces|, InterfaceFieldsOf(m), 0).None? <==> InterfacesSound(Seen(m))
  {
    FirstNone(|m.interfaces|, InterfaceFieldsOf(m));
    forall i: nat | i < |m.interfaces|
      ensures InterfaceFieldsOf(m)(i).None? <==> InterfaceSound(Seen(m).named[i], PORT_COUNT)
    {
      InterfaceFieldsIff(m.interfaces[i]);
    }
  }

  lemma InterfacesIff(m: Model)
    ensures InterfacesHold(m) <==> InterfacesSound(Seen(m)) && InterfacesApart(Seen(m))
  {
    AllInterfaceFieldsIff(m);
    FirstNone(|m.interfaces|, InterfaceIds(m));
    FirstNone(|m.interfaces|, Topologies(m));
    forall i: nat | i < |m.interfaces|
      ensures InterfaceIds(m)(i).None? && Topologies(m)(i).None? <==> ApartFromEarlier(Seen(m), i)
    {
      InterfaceAtIff(m, i);
    }
  }

  // ------------------------------------------------------------------- references

  lemma NamedAt(m: Model, id: Id) returns (i: nat)
    requires Named(m.interfaces, id).Some?
    ensures i < |m.interfaces| && Named(m.interfaces, id) == Some(m.interfaces[i]) && m.interfaces[i].id == id
  {
    i :| i < |m.interfaces| && m.interfaces[i] == Named(m.interfaces, id).value;
  }

  lemma ApartEitherWay(g: Given, i: nat, j: nat)
    requires InterfacesApart(g) && i < |g.named| && j < |g.named| && i != j
    ensures g.named[i].port != g.named[j].port && Text(g.named[i].id) != Text(g.named[j].id)
  {
    if i < j { assert ApartFromEarlier(g, j); } else { assert ApartFromEarlier(g, i); }
  }

  /** The interface a name stands for is the one the reader finds on its port. */
  lemma NameIsItsPort(m: Model, id: Id)
    requires InterfacesSound(Seen(m)) && InterfacesApart(Seen(m)) && Named(m.interfaces, id).Some?
    ensures PortOf(m, id) < PORT_COUNT
    ensures OnPort(Seen(m).named, PortOf(m, id)) == Some(InterfaceImage(Named(m.interfaces, id).value))
  {
    var g := Seen(m);
    var i := NamedAt(m, id);
    assert InterfaceSound(g.named[i], PORT_COUNT);
    var found := OnPort(g.named, PortOf(m, id));
    assert g.named[i].port == PortOf(m, id);
    var k :| 0 <= k < |g.named| && g.named[k] == found.value;
    if k != i { ApartEitherWay(g, i, k); }
  }

  /** So two names stand for one port exactly when they are one name. */
  lemma NamesAndPorts(m: Model, a: Id, b: Id)
    requires InterfacesApart(Seen(m)) && Named(m.interfaces, a).Some? && Named(m.interfaces, b).Some?
    ensures PortOf(m, a) == PortOf(m, b) <==> a == b
  {
    var g := Seen(m);
    var i := NamedAt(m, a);
    var j := NamedAt(m, b);
    if i != j { ApartEitherWay(g, i, j); }
  }

  // ------------------------------------------------------------------- neighbours

  predicate HopsResolve(m: Model) {
    forall i :: 0 <= i < |m.neighbours| ==> Named(m.interfaces, m.neighbours[i].interface).Some?
  }

  predicate NeighboursHold(m: Model) {
    && First(|m.neighbours|, NeighbourFieldsOf(m), 0).None?
    && First(|m.neighbours|, SameAddresses(m), 0).None?
  }

  lemma NeighbourFieldsIff(m: Model, i: nat)
    requires InterfacesSound(Seen(m)) && InterfacesApart(Seen(m)) && i < |m.neighbours|
    requires Named(m.interfaces, m.neighbours[i].interface).Some?
    ensures NeighbourFieldsAt(m, i).None? <==> NeighbourSound(Seen(m).hops[i], PORT_COUNT, Seen(m).named)
  {
    NameIsItsPort(m, m.neighbours[i].interface);
  }

  lemma SameAddressIff(m: Model, i: nat)
    requires InterfacesApart(Seen(m)) && HopsResolve(m) && i < |m.neighbours|
    ensures SameAddresses(m)(i).None? <==> DistinctHop(Seen(m), i)
  {
    FirstNone(i, SameAddressesOf(m, i));
    var g := Seen(m);
    forall j: nat | j < i
      ensures SameAddressesOf(m, i)(j).None? <==>
                g.hops[j].port != g.hops[i].port || g.hops[j].address != g.hops[i].address
    {
      NamesAndPorts(m, m.neighbours[j].interface, m.neighbours[i].interface);
    }
  }

  lemma AllNeighbourFieldsIff(m: Model)
    requires InterfacesSound(Seen(m)) && InterfacesApart(Seen(m)) && HopsResolve(m)
    ensures First(|m.neighbours|, NeighbourFieldsOf(m), 0).None? <==> HopsSound(Seen(m))
  {
    FirstNone(|m.neighbours|, NeighbourFieldsOf(m));
    forall i: nat | i < |m.neighbours|
      ensures NeighbourFieldsOf(m)(i).None? <==> NeighbourSound(Seen(m).hops[i], PORT_COUNT, Seen(m).named)
    {
      NeighbourFieldsIff(m, i);
    }
  }

  lemma AllAddressesIff(m: Model)
    requires InterfacesApart(Seen(m)) && HopsResolve(m)
    ensures First(|m.neighbours|, SameAddresses(m), 0).None? <==> HopsDistinct(Seen(m))
  {
    FirstNone(|m.neighbours|, SameAddresses(m));
    forall i: nat | i < |m.neighbours| ensures SameAddresses(m)(i).None? <==> DistinctHop(Seen(m), i) {
      SameAddressIff(m, i);
    }
  }

  lemma NeighboursIff(m: Model)
    requires InterfacesSound(Seen(m)) && InterfacesApart(Seen(m)) && HopsResolve(m)
    ensures NeighboursHold(m) <==> HopsSound(Seen(m)) && HopsDistinct(Seen(m))
  {
    AllNeighbourFieldsIff(m);
    AllAddressesIff(m);
  }

  lemma NeighboursHoldResolved(m: Model)
    requires NeighboursHold(m)
    ensures HopsResolve(m)
  {
    FirstNone(|m.neighbours|, NeighbourFieldsOf(m));
    forall i | 0 <= i < |m.neighbours| ensures Named(m.interfaces, m.neighbours[i].interface).Some? {
      assert NeighbourFieldsOf(m)(i).None?;
    }
  }

  // ------------------------------------------------------------------------ rules

  predicate Resolves(m: Model, interface: Option<Id>) {
    interface.Some? ==> Named(m.interfaces, interface.value).Some?
  }

  predicate RulesResolve(m: Model) {
    forall i :: 0 <= i < |m.rules| ==> Resolves(m, m.rules[i].ingress) && Resolves(m, m.rules[i].egress)
  }

  predicate RulesHold(m: Model) {
    First(|m.rules|, RuleIds(m), 0).None? && First(|m.rules|, RuleFieldsOf(m), 0).None?
  }

  lemma PortImageSound(m: Model, interface: Option<Id>)
    requires InterfacesSound(Seen(m)) && InterfacesApart(Seen(m)) && Resolves(m, interface)
    ensures PortSound(PortImage(m, interface), PORT_COUNT, Seen(m).named)
  {
    if interface.Some? { NameIsItsPort(m, interface.value); }
  }

  lemma CriteriaIff(r: RuleEntry)
    ensures BlockFault(r.id, Source, r.source).None? <==> BlockSound(BlockImage(r.source))
    ensures BlockFault(r.id, Destination, r.destination).None? <==> BlockSound(BlockImage(r.destination))
    ensures RangeFault(r.id, SourcePort, r.sourcePort).None? <==> PortsSound(PortsImage(r.sourcePort))
    ensures RangeFault(r.id, DestinationPort, r.destinationPort).None? <==> PortsSound(PortsImage(r.destinationPort))
    ensures TrackingSound(TrackingImage(r.tracking))
  {
  }

  lemma RuleFieldsIff(m: Model, r: RuleEntry)
    requires InterfacesSound(Seen(m)) && InterfacesApart(Seen(m))
    requires Resolves(m, r.ingress) && Resolves(m, r.egress)
    ensures RuleFields(m, r).None? <==> RuleSound(RuleImage(m, r), PORT_COUNT, Seen(m).named, true)
  {
    PortImageSound(m, r.ingress);
    PortImageSound(m, r.egress);
    CriteriaIff(r);
    IdsCross(r.id, r.id);
  }

  lemma RuleAtIff(m: Model, i: nat)
    requires InterfacesSound(Seen(m)) && InterfacesApart(Seen(m)) && RulesResolve(m) && i < |m.rules|
    ensures RuleIdAt(m, i).None? && RuleFieldsAt(m, i).None? <==> PolicySound(Seen(m), i)
  {
    RuleFieldsIff(m, m.rules[i]);
    var g := Seen(m);
    forall j: nat | j < i
      ensures Text(g.policy[j].id) == Text(g.policy[i].id) <==> m.rules[j].id == m.rules[i].id
    {
      IdsCross(m.rules[j].id, m.rules[i].id);
    }
  }

  lemma RulesIff(m: Model)
    requires InterfacesSound(Seen(m)) && InterfacesApart(Seen(m)) && RulesResolve(m)
    ensures RulesHold(m) <==> PoliciesSound(Seen(m))
  {
    FirstNone(|m.rules|, RuleIds(m));
    FirstNone(|m.rules|, RuleFieldsOf(m));
    forall i: nat | i < |m.rules|
      ensures RuleIds(m)(i).None? && RuleFieldsOf(m)(i).None? <==> PolicySound(Seen(m), i)
    {
      RuleAtIff(m, i);
    }
  }

  lemma RulesHoldResolved(m: Model)
    requires RulesHold(m)
    ensures RulesResolve(m)
  {
    FirstNone(|m.rules|, RuleFieldsOf(m));
    forall i | 0 <= i < |m.rules| ensures Resolves(m, m.rules[i].ingress) && Resolves(m, m.rules[i].egress) {
      assert RuleFieldsOf(m)(i).None?;
    }
  }

  // ------------------------------------------------------------------- management

  /** The management rules as the reader would hold an enabled entry to them. */
  predicate ManagementHolds(m: Model) {
    m.management.Some? ==>
      var e := m.management.value;
      ManagementSound(ManagementImage(Some(e.(enabled := true))), Seen(m).named)
  }

  lemma CollisionIff(e: ManagementEntry, interface: InterfaceEntry)
    ensures Collides(e, interface).None? <==>
              Apart(ManagementImage(Some(e.(enabled := true))), InterfaceImage(interface))
  {
  }

  predicate ApartFromAll(m: Model, e: ManagementEntry) {
    forall i :: 0 <= i < |Seen(m).named| ==> Apart(ManagementImage(Some(e.(enabled := true))), Seen(m).named[i])
  }

  lemma CollisionsIff(m: Model, e: ManagementEntry)
    ensures First(|m.interfaces|, CollisionsOf(m, e), 0).None? <==> ApartFromAll(m, e)
  {
    FirstNone(|m.interfaces|, CollisionsOf(m, e));
    var image, named := ManagementImage(Some(e.(enabled := true))), Seen(m).named;
    forall i: nat | i < |m.interfaces| ensures CollisionsOf(m, e)(i).None? <==> Apart(image, named[i]) {
      CollisionIff(e, m.interfaces[i]);
    }
  }

  lemma EntryIff(m: Model, e: ManagementEntry)
    ensures ManagementSound(ManagementImage(Some(e.(enabled := true))), Seen(m).named) <==>
              ManagementFields(e).None? && ApartFromAll(m, e) && GatewayFields(e).None?
  {
  }

  lemma ManagementIff(m: Model)
    ensures ManagementFaultOf(m).None? <==> ManagementHolds(m)
  {
    if m.management.Some? {
      CollisionsIff(m, m.management.value);
      EntryIff(m, m.management.value);
    }
  }

  predicate ManagementDisabled(m: Model) { m.management.None? || !m.management.value.enabled }

  /** The reader asks nothing of a disabled entry, and of an enabled one the same. */
  lemma ManagementCrosses(m: Model)
    ensures ManagementSound(ManagementImage(m.management), Seen(m).named) <==>
              ManagementDisabled(m) || ManagementHolds(m)
  {
    if !ManagementDisabled(m) {
      assert m.management.value.(enabled := true) == m.management.value;
    }
  }

  // ---------------------------------------------------------------- both together

  /** The three things no image says: neighbours' own ids, how long the document
      would be, and anything about a management port that is off. */
  predicate OffTheImage(m: Model, rendered: nat) {
    && First(|m.neighbours|, NeighbourIds(m), 0).None?
    && rendered <= MAX_DOCUMENT_BYTES
    && (ManagementDisabled(m) ==> ManagementHolds(m))
  }

  lemma BuildsIffResolved(m: Model, generation: nat)
    ensures ImageFrom(m, generation).Ok? <==> HopsResolve(m) && RulesResolve(m)
  {
    FirstNone(|m.neighbours|, HopFaults(m));
    FirstNone(|m.rules|, RuleFaults(m));
    if ImageFrom(m, generation).Ok? {
      forall i | 0 <= i < |m.neighbours| ensures Named(m.interfaces, m.neighbours[i].interface).Some? {
        assert HopFaults(m)(i).None?;
      }
      forall i | 0 <= i < |m.rules| ensures Resolves(m, m.rules[i].ingress) && Resolves(m, m.rules[i].egress) {
        assert RuleFaults(m)(i).None?;
      }
    }
  }

  /** Validation, by what it is about. */
  lemma ValidateIsItsParts(m: Model, rendered: nat)
    ensures Validate(m, rendered).None? <==>
              && InterfacesHold(m) && NeighboursHold(m) && RulesHold(m) && ManagementFaultOf(m).None?
              && First(|m.neighbours|, NeighbourIds(m), 0).None? && rendered <= MAX_DOCUMENT_BYTES
  {
  }

  /** A validated configuration always becomes an image: the builder's own
      refusals are never reached from one. */
  lemma ValidatedBuilds(m: Model, rendered: nat, generation: nat)
    requires Validate(m, rendered).None?
    ensures ImageFrom(m, generation) == Ok(ImageOf(m, generation))
  {
    ValidateIsItsParts(m, rendered);
    NeighboursHoldResolved(m);
    RulesHoldResolved(m);
    BuildsIffResolved(m, generation);
  }

  predicate ReaderTakes(m: Model, generation: nat, fold: Body -> nat) {
    var image := ImageFrom(m, generation);
    image.Ok? && Refusal(Seal(image.value, fold), fold(image.value), PORT_COUNT, true).None?
  }

  lemma SealedIsAccepted(m: Model, generation: nat, fold: Body -> nat)
    ensures var body := ImageOf(m, generation);
            Refusal(Seal(body, fold), fold(body), PORT_COUNT, true).None? <==> Sound(Seen(m))
  {
    var body := ImageOf(m, generation);
    AcceptedIffSound(Seal(body, fold), fold(body), PORT_COUNT, true);
    ReaderIsGiven(m, generation);
  }

  /** A configuration passes validation exactly when it becomes an image, the
      reader of that image takes it, and what no image says is in order. */
  lemma ValidatedIff(m: Model, rendered: nat, generation: nat, fold: Body -> nat)
    ensures Validate(m, rendered).None? <==> ReaderTakes(m, generation, fold) && OffTheImage(m, rendered)
  {
    ValidateIsItsParts(m, rendered);
    BuildsIffResolved(m, generation);
    SealedIsAccepted(m, generation, fold);
    InterfacesIff(m);
    ManagementIff(m);
    ManagementCrosses(m);
    if NeighboursHold(m) { NeighboursHoldResolved(m); }
    if RulesHold(m) { RulesHoldResolved(m); }
    if InterfacesHold(m) && HopsResolve(m) { NeighboursIff(m); }
    if InterfacesHold(m) && RulesResolve(m) { RulesIff(m); }
  }

  /** So no address a validated configuration puts in force is a reserved one. */
  lemma ValidatedIsRoutable(m: Model, rendered: nat)
    requires Validate(m, rendered).None?
    ensures forall i :: 0 <= i < |m.interfaces| ==> Routable(m.interfaces[i].address)
    ensures forall i :: 0 <= i < |m.neighbours| ==> Routable(m.neighbours[i].address)
    ensures !ManagementDisabled(m) ==>
              && Routable(m.management.value.address)
              && (m.management.value.gateway.Some? ==> Routable(m.management.value.gateway.value))
  {
    ValidatedIff(m, rendered, 0, Nothing);
    SealedIsAccepted(m, 0, Nothing);
    var g := Seen(m);
    SoundIsRoutable(g);
    forall i | 0 <= i < |m.interfaces| ensures Routable(m.interfaces[i].address) {
      assert g.named[i].address == m.interfaces[i].address;
    }
    forall i | 0 <= i < |m.neighbours| ensures Routable(m.neighbours[i].address) {
      assert g.hops[i].address == m.neighbours[i].address;
    }
  }

  function Nothing(body: Body): nat { 0 }

  /** The configuration a domain starts under is one every reader takes. */
  lemma EmptyIsTaken(generation: nat, fold: Body -> nat)
    ensures ReaderTakes(EMPTY, generation, fold)
  {
    SealedIsAccepted(EMPTY, generation, fold);
    BuildsIffResolved(EMPTY, generation);
  }

  /** A management port that is off, with a prefix length no address has. */
  function OffAndUnsound(): Model {
    EMPTY.(management := Some(ManagementEntry(false, 33, NO_MAC, NO_ADDRESS, None)))
  }

  /** One configuration the two sides judge differently, as they may. */
  lemma ReaderTakesWhatValidationRefuses(rendered: nat, generation: nat, fold: Body -> nat)
    ensures ReaderTakes(OffAndUnsound(), generation, fold)
    ensures Validate(OffAndUnsound(), rendered) == Some(ManagementPrefixLengthOutOfRange(33))
  {
    var m := OffAndUnsound();
    SealedIsAccepted(m, generation, fold);
    BuildsIffResolved(m, generation);
  }

  // ------------------------------------------------------ what comes out of the image

  function InterfaceMeans(e: InterfaceEntry): CheckedInterface {
    CheckedInterface(e.port, e.enabled, e.length, e.mac, e.address, e.id)
  }

  function NeighbourMeans(m: Model, e: NeighbourEntry): CheckedNeighbour {
    CheckedNeighbour(PortOf(m, e.interface), e.mac, e.address)
  }

  function ManagementMeans(m: Model): Option<CheckedManagement> {
    if ManagementDisabled(m) then None
    else var e := m.management.value; Some(CheckedManagement(e.length, e.mac, e.address, e.gateway))
  }

  function NameMeans(m: Model, interface: Option<Id>): Option<nat> {
    if interface.None? then None else Some(PortOf(m, interface.value))
  }

  function BlockMeans(block: Option<AddressBlock>): Option<CheckedPrefix> {
    if block.None? then None else Some(CheckedPrefix(block.value.network, block.value.length))
  }

  function RangeMeans(range: Option<PortRange>): Option<CheckedPorts> {
    if range.None? then None else Some(CheckedPorts(range.value.low, range.value.high))
  }

  function TrackingMeans(t: TrackingMatch): Option<CheckedTracking> {
    match t case AnyTraffic => None case Opening => Some(OpeningOnly) case Related => Some(RelatedOnly)
  }

  function RuleMeans(m: Model, r: RuleEntry): CheckedRule {
    CheckedRule(r.id, NameMeans(m, r.ingress), NameMeans(m, r.egress), BlockMeans(r.source), BlockMeans(r.destination),
                r.protocol, RangeMeans(r.sourcePort), RangeMeans(r.destinationPort), r.icmpType,
                TrackingMeans(r.tracking), r.action.DropFrame?)
  }

  /** The configuration as a reader should understand it: every name the port it
      stands for, every criterion as stated, no entry moved. */
  function Meaning(m: Model, generation: nat): Checked {
    Checked(generation, ManagementMeans(m),
            Each((e: InterfaceEntry) => InterfaceMeans(e), m.interfaces),
            Each((e: NeighbourEntry) => NeighbourMeans(m, e), m.neighbours),
            Each((r: RuleEntry) => RuleMeans(m, r), m.rules))
  }

  lemma InterfaceReads(e: InterfaceEntry)
    ensures DecodeInterface(InterfaceImage(e)) == InterfaceMeans(e)
  {
    IdsCross(e.id, e.id);
  }

  lemma RuleReads(m: Model, r: RuleEntry)
    ensures DecodeRule(RuleImage(m, r)) == RuleMeans(m, r)
  {
    IdsCross(r.id, r.id);
  }

  lemma ImageReads(m: Model, generation: nat)
    ensures Decode(ImageOf(m, generation)) == Meaning(m, generation)
  {
    CoveredSlots(InterfaceImages(m), NO_INTERFACE, MAX_INTERFACES);
    CoveredSlots(NeighbourImages(m), NO_NEIGHBOUR, MAX_NEIGHBOURS);
    CoveredSlots(RuleImages(m), NO_RULE, MAX_RULES);
    var got, meant := Decode(ImageOf(m, generation)), Meaning(m, generation);
    forall i | 0 <= i < |m.interfaces| ensures got.interfaces[i] == meant.interfaces[i] {
      InterfaceReads(m.interfaces[i]);
    }
    forall i | 0 <= i < |m.rules| ensures got.rules[i] == meant.rules[i] { RuleReads(m, m.rules[i]); }
    assert got.neighbours == meant.neighbours;
  }

  /** Built under this generation, the image reads as what the model means. */
  predicate ReadsBack(m: Model, generation: nat, fold: Body -> nat) {
    var image := ImageFrom(m, generation);
    image.Ok? && Check(Seal(image.value, fold), fold(image.value), PORT_COUNT) == Ok(Meaning(m, generation))
  }

  lemma TakenReadsBack(m: Model, generation: nat, fold: Body -> nat)
    requires ReaderTakes(m, generation, fold)
    ensures ReadsBack(m, generation, fold)
  {
    ImageReads(m, generation);
  }

  /** A validated configuration crosses whole: the routing domain decodes exactly
      what the document said, with each name as its port. */
  lemma ValidatedReadsBack(m: Model, rendered: nat, generation: nat, fold: Body -> nat)
    requires Validate(m, rendered).None?
    ensures ReadsBack(m, generation, fold)
  {
    ValidatedIff(m, rendered, generation, fold);
    TakenReadsBack(m, generation, fold);
  }
}
