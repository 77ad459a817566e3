/**
 What each refusal of a configuration says, rule by rule and on its own: the
 objects it names, and the rule they break whatever else is wrong. Validation
 refuses exactly the configurations some such statement is true of, and what it
 answers is one of the true ones.
 */
module ConfigurationFaults {
  import opened Wrappers
  import opened Chains
  import opened Prefix
  import opened Handover
  import opened HandoverMeaning
  import opened Configuration

  predicate InterfaceBreaks(x: InterfaceEntry, e: SemanticError) {
    match e
    case PortOutOfRange(id, port) => id == x.id && port == x.port && x.port >= PORT_COUNT
    case PrefixLengthOutOfRange(id, length) => id == x.id && length == x.length && x.length > MAX_PREFIX_LENGTH
    case InterfaceMacNotUnicast(id) => id == x.id && !IsUnicast(x.mac)
    case InterfaceAddressNotUnicast(id) => id == x.id && !IsUnicastAddress(x.address)
    case InterfaceAddressNotAHostAddress(id) => id == x.id && !IsHostAddress(x.address, x.length)
    case _ => false
  }

  predicate PairBreaks(earlier: InterfaceEntry, x: InterfaceEntry, e: SemanticError) {
    match e
    case DuplicatePort(id, other, port) =>
      id == x.id && other == earlier.id && port == x.port && port == earlier.port
    case DuplicateInterfaceMac(id, other) => id == x.id && other == earlier.id && x.mac == earlier.mac
    case OverlappingPrefixes(id, other) =>
      id == x.id && other == earlier.id && PrefixesOverlap(earlier.address, earlier.length, x.address, x.length)
    case _ => false
  }

  predicate NeighbourBreaks(m: Model, x: NeighbourEntry, e: SemanticError) {
    var on := Named(m.interfaces, x.interface);
    match e
    case UnknownInterfaceReference(id, interface) => id == x.id && interface == x.interface && on.None?
    case NeighbourMacNotUnicast(id) => id == x.id && on.Some? && !IsUnicast(x.mac)
    case NeighbourAddressNotUnicast(id) => id == x.id && on.Some? && !IsUnicastAddress(x.address)
    case NeighbourIsInterfaceAddress(id) => id == x.id && on.Some? && x.address == on.value.address
    case NeighbourOutsidePrefix(id) =>
      id == x.id && on.Some? && !InsidePrefix(x.address, on.value.address, on.value.length)
    case NeighbourAddressNotAHostAddress(id) =>
      id == x.id && on.Some? && !IsHostAddress(x.address, on.value.length)
    case _ => false
  }

  predicate HopPairBreaks(earlier: NeighbourEntry, x: NeighbourEntry, e: SemanticError) {
    && e == DuplicateNeighbourAddress(x.id, earlier.id)
    && x.interface == earlier.interface && x.address == earlier.address
  }

  predicate ManagementBreaks(x: ManagementEntry, e: SemanticError) {
    match e
    case ManagementPrefixLengthOutOfRange(length) => length == x.length && x.length > MAX_PREFIX_LENGTH
    case ManagementMacNotUnicast => !IsUnicast(x.mac)
    case ManagementAddressNotUnicast => !IsUnicastAddress(x.address)
    case ManagementAddressNotAHostAddress => !IsHostAddress(x.address, x.length)
    case _ => false
  }

  predicate GatewayBreaks(x: ManagementEntry, e: SemanticError) {
    match e
    case ManagementGatewayNotUnicast => x.gateway.Some? && !IsUnicastAddress(x.gateway.value)
    case ManagementGatewayIsTheAddress => x.gateway == Some(x.address)
    case ManagementGatewayNotOnLink => x.gateway.Some? && !InsidePrefix(x.gateway.value, x.address, x.length)
    case _ => false
  }

  predicate CollisionBreaks(x: ManagementEntry, other: InterfaceEntry, e: SemanticError) {
    match e
    case ManagementPrefixCollidesWithInterface(id) =>
      id == other.id && PrefixesOverlap(other.address, other.length, x.address, x.length)
    case ManagementMacCollidesWithInterface(id) => id == other.id && x.mac == other.mac
    case _ => false
  }

  function Reference(r: RuleEntry, c: Criterion): Option<Id> {
    match c case Ingress => r.ingress case Egress => r.egress case _ => None
  }

  function Addresses(r: RuleEntry, c: Criterion): Option<AddressBlock> {
    match c case Source => r.source case Destination => r.destination case _ => None
  }

  function Range(r: RuleEntry, c: Criterion): Option<PortRange> {
    match c case SourcePort => r.sourcePort case DestinationPort => r.destinationPort case _ => None
  }

  predicate RuleBreaks(m: Model, r: RuleEntry, e: SemanticError) {
    match e
    case UnknownRuleInterfaceReference(id, c, interface) =>
      id == r.id && Reference(r, c) == Some(interface) && Named(m.interfaces, interface).None?
    case RulePrefixLengthOutOfRange(id, c, length) =>
      id == r.id && Addresses(r, c).Some? && length == Addresses(r, c).value.length && length > MAX_PREFIX_LENGTH
    case RulePrefixNotCanonical(id, c) => id == r.id && Addresses(r, c).Some? && !HostBitsClear(Addresses(r, c).value)
    case RulePortRangeReversed(id, c) =>
      id == r.id && Range(r, c).Some? && Range(r, c).value.low > Range(r, c).value.high
    case RulePortCriterionOnIcmp(id, c) => id == r.id && Range(r, c).Some? && r.protocol == Some(ICMP_PROTOCOL)
    case RuleIcmpTypeOnNonIcmp(id) =>
      id == r.id && r.icmpType.Some? && r.protocol.Some? && r.protocol.value != ICMP_PROTOCOL
    case _ => false
  }

  // What each loop may answer at an index: the statements about that object, and
  // about it and an earlier one.

  type Says = (nat, SemanticError) -> bool

  function InterfaceIdSays(m: Model): Says {
    (i: nat, e: SemanticError) =>
      i < |m.interfaces| && e == DuplicateInterfaceId(m.interfaces[i].id)
      && exists j :: 0 <= j < i && m.interfaces[j].id == m.interfaces[i].id
  }

  function InterfaceSays(m: Model): Says {
    (i: nat, e: SemanticError) => i < |m.interfaces| && InterfaceBreaks(m.interfaces[i], e)
  }

  function TopologySays(m: Model): Says {
    (i: nat, e: SemanticError) =>
      i < |m.interfaces| && exists j :: 0 <= j < i && PairBreaks(m.interfaces[j], m.interfaces[i], e)
  }

  function NeighbourIdSays(m: Model): Says {
    (i: nat, e: SemanticError) =>
      i < |m.neighbours| && e == DuplicateNeighbourId(m.neighbours[i].id)
      && exists j :: 0 <= j < i && m.neighbours[j].id == m.neighbours[i].id
  }

  function NeighbourSays(m: Model): Says {
    (i: nat, e: SemanticError) => i < |m.neighbours| && NeighbourBreaks(m, m.neighbours[i], e)
  }

  function SameAddressSays(m: Model): Says {
    (i: nat, e: SemanticError) =>
      i < |m.neighbours| && exists j :: 0 <= j < i && HopPairBreaks(m.neighbours[j], m.neighbours[i], e)
  }

  function CollisionSays(m: Model, x: ManagementEntry): Says {
    (i: nat, e: SemanticError) => i < |m.interfaces| && CollisionBreaks(x, m.interfaces[i], e)
  }

  function RuleIdSays(m: Model): Says {
    (i: nat, e: SemanticError) =>
      i < |m.rules| && e == DuplicateRuleId(m.rules[i].id)
      && exists j :: 0 <= j < i && m.rules[j].id == m.rules[i].id
  }

  function RuleSays(m: Model): Says {
    (i: nat, e: SemanticError) => i < |m.rules| && RuleBreaks(m, m.rules[i], e)
  }

  type Claim = SemanticError -> bool

  /** Said at some index below `n`. */
  ghost function Somewhere(n: nat, says: Says): Claim { (e: SemanticError) => exists i: nat :: i < n && says(i, e) }

  ghost function Either(p: Claim, q: Claim): Claim { (e: SemanticError) => p(e) || q(e) }

  ghost function InterfacesBroken(m: Model): Claim {
    Either(Somewhere(|m.interfaces|, InterfaceIdSays(m)),
    Either(Somewhere(|m.interfaces|, InterfaceSays(m)), Somewhere(|m.interfaces|, TopologySays(m))))
  }

  ghost function NeighboursBroken(m: Model): Claim {
    Either(Somewhere(|m.neighbours|, NeighbourIdSays(m)),
    Either(Somewhere(|m.neighbours|, NeighbourSays(m)), Somewhere(|m.neighbours|, SameAddressSays(m))))
  }

  ghost function ManagementBroken(m: Model): Claim {
    if m.management.None? then (e: SemanticError) => false
    else
      var x := m.management.value;
      Either(OwnClaim(x), Either(Somewhere(|m.interfaces|, CollisionSays(m, x)), GatewayClaim(x)))
  }

  ghost function RulesBroken(m: Model): Claim {
    Either(Somewhere(|m.rules|, RuleIdSays(m)), Somewhere(|m.rules|, RuleSays(m)))
  }

  ghost function TooLarge(rendered: nat): Claim {
    (e: SemanticError) => e == RenderingTooLarge(rendered) && rendered > MAX_DOCUMENT_BYTES
  }

  /** What `e` says is true of the configuration. */
  ghost function Broken(m: Model, rendered: nat): Claim {
    Either(InterfacesBroken(m),
    Either(NeighboursBroken(m), Either(ManagementBroken(m), Either(RulesBroken(m), TooLarge(rendered)))))
  }

  // ------------------------------------------------------- one object, one loop

  /** An answer is one of the claims that hold, and there is none only where none
      holds. */
  ghost predicate Answers(answer: Option<SemanticError>, claim: Claim) {
    (answer.Some? ==> claim(answer.value)) && (forall e :: claim(e) ==> answer.Some?)
  }

  lemma ElseAnswers(a: Option<SemanticError>, p: Claim, b: Option<SemanticError>, q: Claim)
    requires Answers(a, p) && Answers(b, q)
    ensures Answers(Else(a, b), Either(p, q))
  {
  }

  ghost predicate AnswersAt(answer: Option<SemanticError>, says: Says, i: nat) {
    (answer.Some? ==> says(i, answer.value)) && (forall e :: says(i, e) ==> answer.Some?)
  }

  lemma LoopAnswers(n: nat, check: nat -> Option<SemanticError>, says: Says)
    requires forall i: nat :: i < n ==> AnswersAt(check(i), says, i)
    ensures Answers(First(n, check, 0), Somewhere(n, says))
  {
    var k := FirstAt(n, check, 0);
    var first := First(n, check, 0);
    if first.Some? { assert AnswersAt(check(k), says, k); }
    forall e | Somewhere(n, says)(e) ensures first.Some? {
      var i: nat :| i < n && says(i, e);
      assert AnswersAt(check(i), says, i);
    }
  }

  // ------------------------------------------------------------------- interfaces

  function OfInterfaces(m: Model): Option<SemanticError> {
    Else(First(|m.interfaces|, InterfaceIds(m), 0),
    Else(First(|m.interfaces|, InterfaceFieldsOf(m), 0), First(|m.interfaces|, Topologies(m), 0)))
  }

  lemma TopologyAnswers(m: Model, i: nat)
    requires i < |m.interfaces|
    ensures AnswersAt(Topologies(m)(i), TopologySays(m), i)
  {
    var j := FirstAt(i, TopologyOf(m, i), 0);
    if Topologies(m)(i).Some? {
      assert PairBreaks(m.interfaces[j], m.interfaces[i], TopologyOf(m, i)(j).value);
    }
    forall e | TopologySays(m)(i, e) ensures Topologies(m)(i).Some? {
      var k :| 0 <= k < i && PairBreaks(m.interfaces[k], m.interfaces[i], e);
      assert TopologyOf(m, i)(k).Some?;
    }
  }

  lemma TopologiesAnswer(m: Model)
    ensures Answers(First(|m.interfaces|, Topologies(m), 0), Somewhere(|m.interfaces|, TopologySays(m)))
  {
    forall i: nat | i < |m.interfaces| ensures AnswersAt(Topologies(m)(i), TopologySays(m), i) {
      TopologyAnswers(m, i);
    }
    LoopAnswers(|m.interfaces|, Topologies(m), TopologySays(m));
  }

  lemma InterfaceFieldsSay(x: InterfaceEntry)
    requires InterfaceFields(x).Some?
    ensures InterfaceBreaks(x, InterfaceFields(x).value)
  {
  }

  lemma BrokenInterfaceFields(x: InterfaceEntry, e: SemanticError)
    requires InterfaceBreaks(x, e)
    ensures InterfaceFields(x).Some?
  {
  }

  lemma InterfaceAnswers(m: Model, i: nat)
    requires i < |m.interfaces|
    ensures AnswersAt(InterfaceFieldsOf(m)(i), InterfaceSays(m), i)
  {
    var x := m.interfaces[i];
    if InterfaceFields(x).Some? { InterfaceFieldsSay(x); }
    forall e | InterfaceBreaks(x, e) ensures InterfaceFields(x).Some? { BrokenInterfaceFields(x, e); }
  }

  lemma InterfaceFieldsAnswer(m: Model)
    ensures Answers(First(|m.interfaces|, InterfaceFieldsOf(m), 0), Somewhere(|m.interfaces|, InterfaceSays(m)))
  {
    forall i: nat | i < |m.interfaces| ensures AnswersAt(InterfaceFieldsOf(m)(i), InterfaceSays(m), i) {
      InterfaceAnswers(m, i);
    }
    LoopAnswers(|m.interfaces|, InterfaceFieldsOf(m), InterfaceSays(m));
  }

  lemma InterfaceIdsAnswer(m: Model)
    ensures Answers(First(|m.interfaces|, InterfaceIds(m), 0), Somewhere(|m.interfaces|, InterfaceIdSays(m)))
  {
    LoopAnswers(|m.interfaces|, InterfaceIds(m), InterfaceIdSays(m));
  }

  lemma InterfacesAnswer(m: Model)
    ensures Answers(OfInterfaces(m), InterfacesBroken(m))
  {
    var n := |m.interfaces|;
    InterfaceIdsAnswer(m);
    InterfaceFieldsAnswer(m);
    TopologiesAnswer(m);
    ThreeAnswer(First(n, InterfaceIds(m), 0), Somewhere(n, InterfaceIdSays(m)),
                First(n, InterfaceFieldsOf(m), 0), Somewhere(n, InterfaceSays(m)),
                First(n, Topologies(m), 0), Somewhere(n, TopologySays(m)));
  }

  // ------------------------------------------------------------------- neighbours

  function OfNeighbours(m: Model): Option<SemanticError> {
    Else(First(|m.neighbours|, NeighbourIds(m), 0),
    Else(First(|m.neighbours|, NeighbourFieldsOf(m), 0), First(|m.neighbours|, SameAddresses(m), 0)))
  }

  lemma NeighbourFieldsSay(m: Model, x: NeighbourEntry, on: InterfaceEntry)
    requires Named(m.interfaces, x.interface) == Some(on) && NeighbourFields(x, on).Some?
    ensures NeighbourBreaks(m, x, NeighbourFields(x, on).value)
  {
  }

  lemma BrokenNeighbourFields(m: Model, x: NeighbourEntry, on: InterfaceEntry, e: SemanticError)
    requires Named(m.interfaces, x.interface) == Some(on) && NeighbourBreaks(m, x, e)
    ensures NeighbourFields(x, on).Some?
  {
  }

  lemma NeighbourAnswers(m: Model, i: nat)
    requires i < |m.neighbours|
    ensures AnswersAt(NeighbourFieldsOf(m)(i), NeighbourSays(m), i)
  {
    var x := m.neighbours[i];
    var on := Named(m.interfaces, x.interface);
    if on.Some? {
      if NeighbourFields(x, on.value).Some? { NeighbourFieldsSay(m, x, on.value); }
      forall e | NeighbourBreaks(m, x, e) ensures NeighbourFields(x, on.value).Some? {
        BrokenNeighbourFields(m, x, on.value, e);
      }
    }
  }

  lemma NeighbourFieldsAnswer(m: Model)
    ensures Answers(First(|m.neighbours|, NeighbourFieldsOf(m), 0), Somewhere(|m.neighbours|, NeighbourSays(m)))
  {
    forall i: nat | i < |m.neighbours| ensures AnswersAt(NeighbourFieldsOf(m)(i), NeighbourSays(m), i) {
      NeighbourAnswers(m, i);
    }
    LoopAnswers(|m.neighbours|, NeighbourFieldsOf(m), NeighbourSays(m));
  }

  lemma NeighbourIdsAnswer(m: Model)
    ensures Answers(First(|m.neighbours|, NeighbourIds(m), 0), Somewhere(|m.neighbours|, NeighbourIdSays(m)))
  {
    LoopAnswers(|m.neighbours|, NeighbourIds(m), NeighbourIdSays(m));
  }

  lemma SameAddressAnswers(m: Model, i: nat)
    requires i < |m.neighbours|
    ensures AnswersAt(SameAddresses(m)(i), SameAddressSays(m), i)
  {
    var j := FirstAt(i, SameAddressesOf(m, i), 0);
    if SameAddresses(m)(i).Some? {
      assert HopPairBreaks(m.neighbours[j], m.neighbours[i], SameAddressesOf(m, i)(j).value);
    }
    forall e | SameAddressSays(m)(i, e) ensures SameAddresses(m)(i).Some? {
      var k :| 0 <= k < i && HopPairBreaks(m.neighbours[k], m.neighbours[i], e);
      assert SameAddressesOf(m, i)(k).Some?;
    }
  }

  lemma SameAddressesAnswer(m: Model)
    ensures Answers(First(|m.neighbours|, SameAddresses(m), 0), Somewhere(|m.neighbours|, SameAddressSays(m)))
  {
    forall i: nat | i < |m.neighbours| ensures AnswersAt(SameAddresses(m)(i), SameAddressSays(m), i) {
      SameAddressAnswers(m, i);
    }
    LoopAnswers(|m.neighbours|, SameAddresses(m), SameAddressSays(m));
  }

  lemma NeighboursAnswer(m: Model)
    ensures Answers(OfNeighbours(m), NeighboursBroken(m))
  {
    var n := |m.neighbours|;
    NeighbourIdsAnswer(m);
    NeighbourFieldsAnswer(m);
    SameAddressesAnswer(m);
    ThreeAnswer(First(n, NeighbourIds(m), 0), Somewhere(n, NeighbourIdSays(m)),
                First(n, NeighbourFieldsOf(m), 0), Somewhere(n, NeighbourSays(m)),
                First(n, SameAddresses(m), 0), Somewhere(n, SameAddressSays(m)));
  }

  // ------------------------------------------------------------------- management

  ghost function OwnClaim(x: ManagementEntry): Claim { (e: SemanticError) => ManagementBreaks(x, e) }

  ghost function GatewayClaim(x: ManagementEntry): Claim { (e: SemanticError) => GatewayBreaks(x, e) }

  lemma OwnAnswers(x: ManagementEntry)
    ensures Answers(ManagementFields(x), OwnClaim(x))
  {
  }

  lemma GatewayAnswers(x: ManagementEntry)
    ensures Answers(GatewayFields(x), GatewayClaim(x))
  {
  }

  lemma CollisionsAnswer(m: Model, x: ManagementEntry)
    ensures Answers(First(|m.interfaces|, CollisionsOf(m, x), 0), Somewhere(|m.interfaces|, CollisionSays(m, x)))
  {
    LoopAnswers(|m.interfaces|, CollisionsOf(m, x), CollisionSays(m, x));
  }

  lemma ThreeAnswer(
    a: Option<SemanticError>, p: Claim, b: Option<SemanticError>, q: Claim, c: Option<SemanticError>, r: Claim)
    requires Answers(a, p) && Answers(b, q) && Answers(c, r)
    ensures Answers(Else(a, Else(b, c)), Either(p, Either(q, r)))
  {
    ElseAnswers(b, q, c, r);
    ElseAnswers(a, p, Else(b, c), Either(q, r));
  }

  lemma ManagementAnswers(m: Model)
    ensures Answers(ManagementFaultOf(m), ManagementBroken(m))
  {
    if m.management.Some? {
      var x, n := m.management.value, |m.interfaces|;
      OwnAnswers(x);
      GatewayAnswers(x);
      CollisionsAnswer(m, x);
      ThreeAnswer(ManagementFields(x), OwnClaim(x),
                  First(n, CollisionsOf(m, x), 0), Somewhere(n, CollisionSays(m, x)),
                  GatewayFields(x), GatewayClaim(x));
    }
  }

  // ------------------------------------------------------------------------ rules

  function OfRules(m: Model): Option<SemanticError> {
    Else(First(|m.rules|, RuleIds(m), 0), First(|m.rules|, RuleFieldsOf(m), 0))
  }

  lemma ReferencesSay(m: Model, r: RuleEntry)
    requires ReferenceFaults(m, r).Some?
    ensures RuleBreaks(m, r, ReferenceFaults(m, r).value)
  {
  }

  lemma BlocksSay(m: Model, r: RuleEntry)
    requires BlockFaults(r).Some?
    ensures RuleBreaks(m, r, BlockFaults(r).value)
  {
  }

  lemma RangesSay(m: Model, r: RuleEntry)
    requires RangeFaults(r).Some?
    ensures RuleBreaks(m, r, RangeFaults(r).value)
  {
  }

  lemma IcmpSays(m: Model, r: RuleEntry)
    requires IcmpFaults(r).Some?
    ensures RuleBreaks(m, r, IcmpFaults(r).value)
  {
  }

  lemma RuleFieldsSay(m: Model, r: RuleEntry)
    requires RuleFields(m, r).Some?
    ensures RuleBreaks(m, r, RuleFields(m, r).value)
  {
    if ReferenceFaults(m, r).Some? {
      ReferencesSay(m, r);
    } else if BlockFaults(r).Some? {
      BlocksSay(m, r);
    } else if RangeFaults(r).Some? {
      RangesSay(m, r);
    } else {
      IcmpSays(m, r);
    }
  }

  lemma BrokenRuleFields(m: Model, r: RuleEntry, e: SemanticError)
    requires RuleBreaks(m, r, e)
    ensures RuleFields(m, r).Some?
  {
  }

  lemma RuleAnswers(m: Model, i: nat)
    requires i < |m.rules|
    ensures AnswersAt(RuleFieldsOf(m)(i), RuleSays(m), i)
  {
    if RuleFields(m, m.rules[i]).Some? { RuleFieldsSay(m, m.rules[i]); }
    forall e | RuleBreaks(m, m.rules[i], e) ensures RuleFields(m, m.rules[i]).Some? {
      BrokenRuleFields(m, m.rules[i], e);
    }
  }

  lemma RulesAnswer(m: Model)
    ensures Answers(OfRules(m), RulesBroken(m))
  {
    var n := |m.rules|;
    LoopAnswers(n, RuleIds(m), RuleIdSays(m));
    forall i: nat | i < n ensures AnswersAt(RuleFieldsOf(m)(i), RuleSays(m), i) {
      RuleAnswers(m, i);
    }
    LoopAnswers(n, RuleFieldsOf(m), RuleSays(m));
    ElseAnswers(First(n, RuleIds(m), 0), Somewhere(n, RuleIdSays(m)),
                First(n, RuleFieldsOf(m), 0), Somewhere(n, RuleSays(m)));
  }

  // ------------------------------------------------------------------- everything

  lemma ValidateInTurn(m: Model, rendered: nat)
    ensures Validate(m, rendered)
         == Else(OfInterfaces(m), Else(OfNeighbours(m), Else(ManagementFaultOf(m),
            Else(OfRules(m), When(rendered > MAX_DOCUMENT_BYTES, RenderingTooLarge(rendered))))))
  {
  }

  /** A refusal says something true of the configuration, and of a configuration
      that is not refused nothing of the kind is true. */
  lemma RefusalSaysWhatIsBroken(m: Model, rendered: nat)
    ensures Answers(Validate(m, rendered), Broken(m, rendered))
  {
    InterfacesAnswer(m);
    NeighboursAnswer(m);
    ManagementAnswers(m);
    RulesAnswer(m);
    ValidateInTurn(m, rendered);
    var last := When(rendered > MAX_DOCUMENT_BYTES, RenderingTooLarge(rendered));
    ElseAnswers(OfRules(m), RulesBroken(m), last, TooLarge(rendered));
    var policy, p := Else(OfRules(m), last), Either(RulesBroken(m), TooLarge(rendered));
    ElseAnswers(ManagementFaultOf(m), ManagementBroken(m), policy, p);
    var rest, q := Else(ManagementFaultOf(m), policy), Either(ManagementBroken(m), p);
    ElseAnswers(OfNeighbours(m), NeighboursBroken(m), rest, q);
    ElseAnswers(OfInterfaces(m), InterfacesBroken(m), Else(OfNeighbours(m), rest), Either(NeighboursBroken(m), q));
  }
}
