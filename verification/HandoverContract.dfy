/**
 The contract as a numbered list of rules, and what the verdict on an image says
 of it: the first rule broken, in the list's order, and none exactly when every
 rule holds.
 */
module HandoverContract {
  import opened Wrappers
  import opened Chains
  import opened Prefix
  import opened Handover

  /** Where the contract lists a rule: the stage, the entry it is about, the entry
      it holds it against, and the row. */
  datatype Place = Place(stage: nat, index: nat, other: nat, row: nat)

  predicate Before(p: Place, q: Place) {
    || p.stage < q.stage
    || (p.stage == q.stage &&
        (|| p.index < q.index
         || (p.index == q.index && (p.other < q.other || (p.other == q.other && p.row < q.row)))))
  }

  function InterfaceClause(g: Given, i: nat, row: nat): Option<Error> {
    if i >= |g.named| then None
    else
      var fault := InterfaceRule(g.named[i], g.ports, row);
      if fault.Some? then Some(InterfaceError(i, fault.value)) else None
  }

  function PairClause(g: Given, i: nat, j: nat, row: nat): Option<Error> {
    if i >= |g.named| || j >= i then None
    else
      var fault := PairRule(g.named[j], g.named[i], row);
      if fault.Some? then Some(InterfacePairError(i, j, fault.value)) else None
  }

  function NeighbourClause(g: Given, i: nat, row: nat): Option<Error> {
    if i >= |g.hops| then None
    else
      var fault := NeighbourRule(g.hops[i], g.ports, g.named, row);
      if fault.Some? then Some(NeighbourError(i, fault.value)) else None
  }

  function RuleClause(g: Given, i: nat, row: nat): Option<Error> {
    if i >= |g.policy| then None
    else
      var fault := RuleRule(g.policy[i], g.ports, g.named, g.tracked, row);
      if fault.Some? then Some(RuleError(i, fault.value)) else None
  }

  function ManagementClause(g: Given, phase: nat, i: nat, row: nat): Option<Error> {
    OfManagement(ManagementRule(g.management, g.named, phase, i, row))
  }

  /** Whether the one rule listed at a place is broken, whatever the others say.
      A rule's duplicates follow its own rows, so `other` there is one past the
      earlier rule. */
  function Clause(g: Given, p: Place): Option<Error> {
    match p.stage
    case 2 => if p.other == 0 then InterfaceClause(g, p.index, p.row) else None
    case 3 => PairClause(g, p.index, p.other, p.row)
    case 4 => if p.other == 0 then NeighbourClause(g, p.index, p.row) else None
    case 5 => if p.row == 0 then SameHopAt(g, p.index, p.other) else None
    case 6 =>
      if p.other == 0 then RuleClause(g, p.index, p.row)
      else if p.row == 0 then SameRuleAt(g, false, p.index, p.other - 1)
      else None
    case 7 => ManagementClause(g, p.index, p.other, p.row)
    case _ => None
  }

  /** `r` is what the first broken rule of the stages says, and `p` its place. */
  ghost predicate Leads(g: Given, r: Option<Error>, p: Place, from: nat, to: nat) {
    && (r.None? ==> forall q: Place :: from <= q.stage < to ==> Clause(g, q).None?)
    && (r.Some? ==>
          && from <= p.stage < to && Clause(g, p) == r
          && forall q: Place :: from <= q.stage < to && Before(q, p) ==> Clause(g, q).None?)
  }

  lemma LeadsOn(g: Given, a: Option<Error>, p: Place, b: Option<Error>, q: Place, from: nat, mid: nat, to: nat)
    returns (l: Place)
    requires from <= mid <= to && Leads(g, a, p, from, mid) && Leads(g, b, q, mid, to)
    ensures Leads(g, Else(a, b), l, from, to)
  {
    l := if a.Some? then p else q;
  }

  // ------------------------------------------------------------- entries, row by row

  lemma InterfaceRows(e: Interface, ports: nat) returns (row: nat)
    ensures InterfaceCheck(e, ports).None? ==> forall k: nat :: InterfaceRule(e, ports, k).None?
    ensures InterfaceCheck(e, ports).Some? ==>
              && InterfaceRule(e, ports, row) == InterfaceCheck(e, ports)
              && forall k: nat :: k < row ==> InterfaceRule(e, ports, k).None?
  {
    InterfaceInOrder(e, ports);
    row := FirstAt(INTERFACE_RULES, k => InterfaceRule(e, ports, k), 0);
  }

  lemma InterfaceQuiet(g: Given, i: nat, row: nat)
    requires InterfaceAt(g, i).None?
    ensures InterfaceClause(g, i, row).None?
  {
    if i < |g.named| { var _ := InterfaceRows(g.named[i], g.ports); }
  }

  lemma InterfaceRow(g: Given, i: nat) returns (row: nat)
    requires InterfaceAt(g, i).Some?
    ensures InterfaceClause(g, i, row) == InterfaceAt(g, i)
    ensures forall k: nat :: k < row ==> InterfaceClause(g, i, k).None?
  {
    row := InterfaceRows(g.named[i], g.ports);
  }

  lemma InterfaceStage(g: Given) returns (p: Place)
    ensures Leads(g, First(|g.named|, Interfaces(g), 0), p, 2, 3)
  {
    var r := First(|g.named|, Interfaces(g), 0);
    var i := FirstAt(|g.named|, Interfaces(g), 0);
    var row := 0;
    if r.Some? { row := InterfaceRow(g, i); }
    p := Place(2, i, 0, row);
    forall q: Place | q.stage == 2 && (r.None? || Before(q, p)) ensures Clause(g, q).None? {
      if r.None? || q.index < i {
        assert q.index < |g.named| ==> Interfaces(g)(q.index).None?;
        InterfaceQuiet(g, q.index, q.row);
      }
    }
  }

  lemma PairRows(e: Interface, f: Interface) returns (row: nat)
    ensures PairCheck(e, f).None? ==> forall k: nat :: PairRule(e, f, k).None?
    ensures PairCheck(e, f).Some? ==>
              PairRule(e, f, row) == PairCheck(e, f) && forall k: nat :: k < row ==> PairRule(e, f, k).None?
  {
    PairInOrder(e, f);
    row := FirstAt(PAIR_RULES, k => PairRule(e, f, k), 0);
  }

  lemma PairQuiet(g: Given, i: nat, j: nat, row: nat)
    requires PairAt(g, i, j).None?
    ensures PairClause(g, i, j, row).None?
  {
    if j < i < |g.named| { var _ := PairRows(g.named[j], g.named[i]); }
  }

  lemma PairRow(g: Given, i: nat, j: nat) returns (row: nat)
    requires PairAt(g, i, j).Some?
    ensures PairClause(g, i, j, row) == PairAt(g, i, j)
    ensures forall k: nat :: k < row ==> PairClause(g, i, j, k).None?
  {
    row := PairRows(g.named[j], g.named[i]);
  }

  /** No pair up to `j` of the `i`-th, and none of any before it. */
  lemma PairsQuiet(g: Given, i: nat, j: nat)
    requires i < |g.named| ==> First(i, PairsOf(g, i), 0).None?
    ensures PairAt(g, i, j).None?
  {
    if i < |g.named| {
      var _ := FirstAt(i, PairsOf(g, i), 0);
      assert j < i ==> PairsOf(g, i)(j).None?;
    }
  }

  lemma PairStage(g: Given) returns (p: Place)
    ensures Leads(g, First(|g.named|, Pairs(g), 0), p, 3, 4)
  {
    var r := First(|g.named|, Pairs(g), 0);
    var i := FirstAt(|g.named|, Pairs(g), 0);
    var j, row := 0, 0;
    if r.Some? {
      j := FirstAt(i, PairsOf(g, i), 0);
      row := PairRow(g, i, j);
    }
    p := Place(3, i, j, row);
    forall q: Place | q.stage == 3 && (r.None? || Before(q, p)) ensures Clause(g, q).None? {
      if r.None? || q.index < i {
        assert q.index < |g.named| ==> Pairs(g)(q.index).None?;
        PairsQuiet(g, q.index, q.other);
        PairQuiet(g, q.index, q.other, q.row);
      } else if q.other < j {
        assert PairsOf(g, i)(q.other).None?;
        PairQuiet(g, i, q.other, q.row);
      }
    }
  }

  lemma NeighbourRows(e: Neighbour, ports: nat, named: seq<Interface>) returns (row: nat)
    ensures NeighbourCheck(e, ports, named).None? ==> forall k: nat :: NeighbourRule(e, ports, named, k).None?
    ensures NeighbourCheck(e, ports, named).Some? ==>
              && NeighbourRule(e, ports, named, row) == NeighbourCheck(e, ports, named)
              && forall k: nat :: k < row ==> NeighbourRule(e, ports, named, k).None?
  {
    NeighbourInOrder(e, ports, named);
    row := FirstAt(NEIGHBOUR_RULES, k => NeighbourRule(e, ports, named, k), 0);
  }

  lemma NeighbourQuiet(g: Given, i: nat, row: nat)
    requires NeighbourAt(g, i).None?
    ensures NeighbourClause(g, i, row).None?
  {
    if i < |g.hops| { var _ := NeighbourRows(g.hops[i], g.ports, g.named); }
  }

  lemma NeighbourRow(g: Given, i: nat) returns (row: nat)
    requires NeighbourAt(g, i).Some?
    ensures NeighbourClause(g, i, row) == NeighbourAt(g, i)
    ensures forall k: nat :: k < row ==> NeighbourClause(g, i, k).None?
  {
    row := NeighbourRows(g.hops[i], g.ports, g.named);
  }

  lemma NeighbourStage(g: Given) returns (p: Place)
    ensures Leads(g, First(|g.hops|, Neighbours(g), 0), p, 4, 5)
  {
    var r := First(|g.hops|, Neighbours(g), 0);
    var i := FirstAt(|g.hops|, Neighbours(g), 0);
    var row := 0;
    if r.Some? { row := NeighbourRow(g, i); }
    p := Place(4, i, 0, row);
    forall q: Place | q.stage == 4 && (r.None? || Before(q, p)) ensures Clause(g, q).None? {
      if r.None? || q.index < i {
        assert q.index < |g.hops| ==> Neighbours(g)(q.index).None?;
        NeighbourQuiet(g, q.index, q.row);
      }
    }
  }

  lemma SameHopsQuiet(g: Given, i: nat, j: nat)
    requires i < |g.hops| ==> First(i, SameHopsOf(g, i), 0).None?
    ensures SameHopAt(g, i, j).None?
  {
    if i < |g.hops| {
      var _ := FirstAt(i, SameHopsOf(g, i), 0);
      assert j < i ==> SameHopsOf(g, i)(j).None?;
    }
  }

  lemma SameHopStage(g: Given) returns (p: Place)
    ensures Leads(g, First(|g.hops|, SameHops(g), 0), p, 5, 6)
  {
    var r := First(|g.hops|, SameHops(g), 0);
    var i := FirstAt(|g.hops|, SameHops(g), 0);
    var j := 0;
    if r.Some? { j := FirstAt(i, SameHopsOf(g, i), 0); }
    p := Place(5, i, j, 0);
    forall q: Place | q.stage == 5 && (r.None? || Before(q, p)) ensures Clause(g, q).None? {
      if r.None? || q.index < i {
        assert q.index < |g.hops| ==> SameHops(g)(q.index).None?;
        SameHopsQuiet(g, q.index, q.other);
      } else {
        assert q.other < j ==> SameHopsOf(g, i)(q.other).None?;
      }
    }
  }

  lemma RuleRows(g: Given, r: Rule, fault: Option<RuleFault>) returns (row: nat)
    requires fault == RuleFrom(r, g.ports, g.named, g.tracked, 0)
    ensures fault.None? ==> forall k: nat :: k < RULE_RULES ==> RuleRowsOf(r, g.ports, g.named, g.tracked)(k).None?
    ensures fault.Some? ==>
              && RuleRowsOf(r, g.ports, g.named, g.tracked)(row) == fault && row < RULE_RULES
              && forall k: nat :: k < row ==> RuleRowsOf(r, g.ports, g.named, g.tracked)(k).None?
  {
    row := FirstAt(RULE_RULES, RuleRowsOf(r, g.ports, g.named, g.tracked), 0);
  }

  lemma RuleQuiet(g: Given, i: nat, row: nat)
    requires RuleAt(g, i).None?
    ensures RuleClause(g, i, row).None?
  {
    if i < |g.policy| {
      RuleInOrder(g.policy[i], g.ports, g.named, g.tracked);
      var _ := RuleRows(g, g.policy[i], RuleCheck(g.policy[i], g.ports, g.named, g.tracked));
      if row < RULE_RULES {
        assert RuleRowsOf(g.policy[i], g.ports, g.named, g.tracked)(row).None?;
      } else {
        RowPastTheEnd(g, g.policy[i], row);
      }
    }
  }

  lemma RowPastTheEnd(g: Given, r: Rule, row: nat)
    requires row >= RULE_RULES
    ensures RuleRule(r, g.ports, g.named, g.tracked, row).None?
  {
  }

  lemma RuleRow(g: Given, i: nat) returns (row: nat)
    requires RuleAt(g, i).Some?
    ensures RuleClause(g, i, row) == RuleAt(g, i)
    ensures i < |g.policy| && forall k: nat :: k < row ==> RuleRowsOf(g.policy[i], g.ports, g.named, g.tracked)(k).None?
  {
    RuleInOrder(g.policy[i], g.ports, g.named, g.tracked);
    row := RuleRows(g, g.policy[i], RuleCheck(g.policy[i], g.ports, g.named, g.tracked));
  }

  // ------------------------------------------------------------------ the policy

  lemma {:induction false} FirstAgrees<E>(n: nat, a: nat -> Option<E>, b: nat -> Option<E>, from: nat)
    requires forall k: nat :: from <= k < n ==> a(k) == b(k)
    ensures First(n, a, from) == First(n, b, from)
    decreases n - from
  {
    if from < n { FirstAgrees(n, a, b, from + 1); }
  }

  /** By the time the duplicate test asks whether an earlier rule is well formed,
      every earlier rule is: the question is always answered yes. */
  lemma GuardIsAnswered(g: Given, i: nat)
    requires i < |g.policy| && forall j: nat :: j < i ==> Passed(g, j)
    ensures First(i, SameRulesOf(g, true, i), 0) == First(i, SameRulesOf(g, false, i), 0)
  {
    forall j: nat | j < i ensures SameRulesOf(g, true, i)(j) == SameRulesOf(g, false, i)(j) {
      assert Passed(g, j);
    }
    FirstAgrees(i, SameRulesOf(g, true, i), SameRulesOf(g, false, i), 0);
  }

  /** One check per rule, then its repeats: `Policy` in the shape of its parts. */
  lemma {:induction false} FirstTwoStep<E>(
    n: nat, a: nat -> Option<E>, b: nat -> Option<E>, own: nat -> Option<E>, from: nat)
    requires forall i: nat :: i < n && (forall j: nat :: j < i ==> own(j).None?) ==> a(i) == b(i)
    requires forall i: nat :: i < n && own(i).Some? ==> a(i) == b(i) == own(i)
    requires forall j: nat :: j < from ==> own(j).None?
    ensures First(n, a, from) == First(n, b, from)
    decreases n - from
  {
    if from < n && own(from).None? { FirstTwoStep(n, a, b, own, from + 1); }
  }

  lemma GuardIsRedundant(g: Given)
    ensures First(|g.policy|, Policy(g, true), 0) == First(|g.policy|, Policy(g, false), 0)
  {
    var own := (i: nat) => RuleAt(g, i);
    forall i: nat | i < |g.policy| && forall j: nat :: j < i ==> own(j).None?
      ensures Policy(g, true)(i) == Policy(g, false)(i)
    {
      forall j: nat | j < i ensures Passed(g, j) { assert own(j).None?; }
      GuardIsAnswered(g, i);
    }
    FirstTwoStep(|g.policy|, Policy(g, true), Policy(g, false), own, 0);
  }

  lemma SameRulesQuiet(g: Given, i: nat, j: nat)
    requires i < |g.policy| ==> First(i, SameRulesOf(g, false, i), 0).None?
    ensures SameRuleAt(g, false, i, j).None?
  {
    if i < |g.policy| {
      var _ := FirstAt(i, SameRulesOf(g, false, i), 0);
      assert j < i ==> SameRulesOf(g, false, i)(j).None?;
    }
  }

  /** Where the policy's first fault stands: among a rule's own rows, or among the
      rules it repeats. */
  lemma RulePlace(g: Given, i: nat) returns (p: Place)
    requires i < |g.policy| && RuleAt(g, i).Some?
    ensures p.stage == 6 && p.index == i && Clause(g, p) == RuleAt(g, i)
    ensures forall q: Place :: q.stage == 6 && q.index == i && Before(q, p) ==> Clause(g, q).None?
  {
    var row := RuleRow(g, i);
    p := Place(6, i, 0, row);
    forall q: Place | q.stage == 6 && q.index == i && Before(q, p) ensures Clause(g, q).None? {
      assert RuleRowsOf(g.policy[i], g.ports, g.named, g.tracked)(q.row).None?;
    }
  }

  lemma RepeatPlace(g: Given, i: nat) returns (p: Place)
    requires First(i, SameRulesOf(g, false, i), 0).Some?
    ensures p.stage == 6 && p.index == i && p.other > 0 && p.row == 0
    ensures SameRuleAt(g, false, i, p.other - 1) == First(i, SameRulesOf(g, false, i), 0)
    ensures forall j: nat :: j < p.other - 1 ==> SameRuleAt(g, false, i, j).None?
  {
    var j := FirstAt(i, SameRulesOf(g, false, i), 0);
    p := Place(6, i, j + 1, 0);
    forall k: nat | k < j ensures SameRuleAt(g, false, i, k).None? {
      assert SameRulesOf(g, false, i)(k).None?;
    }
  }

  lemma RepeatIsFirst(g: Given, p: Place, q: Place)
    requires p.stage == 6 && p.row == 0 && (forall j: nat :: j < p.other - 1 ==> SameRuleAt(g, false, p.index, j).None?)
    requires Passed(g, p.index) && q.stage == 6 && q.index == p.index && Before(q, p)
    ensures Clause(g, q).None?
  {
    if q.other == 0 {
      RuleQuiet(g, q.index, q.row);
    }
  }

  lemma PolicyQuiet(g: Given, q: Place)
    requires q.stage == 6 && (q.index < |g.policy| ==> PolicyAt(g, false, q.index).None?)
    ensures Clause(g, q).None?
  {
    if q.other == 0 {
      RuleQuiet(g, q.index, q.row);
    } else {
      SameRulesQuiet(g, q.index, q.other - 1);
    }
  }

  lemma RepeatedPlace(g: Given, i: nat) returns (p: Place)
    requires i < |g.policy| && Passed(g, i) && PolicyAt(g, false, i).Some?
    ensures p.stage == 6 && p.index == i && Clause(g, p) == PolicyAt(g, false, i)
    ensures forall q: Place :: q.stage == 6 && q.index == i && Before(q, p) ==> Clause(g, q).None?
  {
    p := RepeatPlace(g, i);
    forall q: Place | q.stage == 6 && q.index == i && Before(q, p) ensures Clause(g, q).None? {
      RepeatIsFirst(g, p, q);
    }
  }

  lemma PolicyPlace(g: Given, i: nat) returns (p: Place)
    requires i < |g.policy| && PolicyAt(g, false, i).Some?
    ensures p.stage == 6 && p.index == i && Clause(g, p) == PolicyAt(g, false, i)
    ensures forall q: Place :: q.stage == 6 && q.index == i && Before(q, p) ==> Clause(g, q).None?
  {
    if Passed(g, i) {
      p := RepeatedPlace(g, i);
    } else {
      p := RulePlace(g, i);
    }
  }

  lemma PolicyStage(g: Given) returns (p: Place)
    ensures Leads(g, First(|g.policy|, Policy(g, false), 0), p, 6, 7)
  {
    var r := First(|g.policy|, Policy(g, false), 0);
    var i := FirstAt(|g.policy|, Policy(g, false), 0);
    p := Place(6, i, 0, 0);
    if r.Some? { p := PolicyPlace(g, i); }
    forall q: Place | q.stage == 6 && (r.None? || Before(q, p)) ensures Clause(g, q).None? {
      if r.None? || q.index < i {
        assert q.index < |g.policy| ==> Policy(g, false)(q.index).None?;
        PolicyQuiet(g, q);
      }
    }
  }

  // ------------------------------------------------------------------ management

  function PhaseRows(m: Management, named: seq<Interface>, phase: nat): nat -> Option<ManagementFault> {
    (row: nat) => ManagementRule(m, named, phase, 0, row)
  }

  lemma EntryInOrder(m: Management, named: seq<Interface>)
    requires m.enabled == 1
    ensures AddressCheck(m) == First(5, PhaseRows(m, named, 0), 0)
  {
    var rows := PhaseRows(m, named, 0);
    FirstOfFive(rows);
    var mac, address, host := IsUnicast(m.mac), IsUnicastAddress(m.address), IsHostAddress(m.address, m.length);
    EntryRows(m, named, mac, address, host);
    FourChecks(m.length > MAX_PREFIX_LENGTH, !mac, !address, !host, MgmtPrefixTooLong(m.length),
               MgmtMacNotUnicast(m.mac), MgmtNotUnicast(m.address), MgmtNotAHost(m.address));
  }

  lemma EntryRows(m: Management, named: seq<Interface>, mac: bool, address: bool, host: bool)
    requires m.enabled == 1 && mac == IsUnicast(m.mac)
    requires address == IsUnicastAddress(m.address) && host == IsHostAddress(m.address, m.length)
    ensures var rows := PhaseRows(m, named, 0);
            && rows(0) == None && rows(1) == When(m.length > MAX_PREFIX_LENGTH, MgmtPrefixTooLong(m.length))
            && rows(2) == When(!mac, MgmtMacNotUnicast(m.mac)) && rows(3) == When(!address, MgmtNotUnicast(m.address))
            && rows(4) == When(!host, MgmtNotAHost(m.address))
  {
  }

  lemma GatewayInOrder(m: Management, named: seq<Interface>)
    requires m.enabled == 1
    ensures GatewayCheck(m) == First(4, PhaseRows(m, named, 2), 0)
  {
  }

  lemma CollisionQuiet(m: Management, named: seq<Interface>, i: nat, row: nat)
    requires m.enabled == 1 && CollisionCheck(m, named, i).None?
    ensures ManagementRule(m, named, 1, i, row).None?
  {
  }

  lemma CollisionPlace(m: Management, named: seq<Interface>) returns (i: nat, row: nat)
    requires m.enabled == 1
    ensures var r := First(|named|, Collisions(m, named), 0);
            && (r.None? ==> forall j: nat, k: nat :: ManagementRule(m, named, 1, j, k).None?)
            && (r.Some? ==>
                  && ManagementRule(m, named, 1, i, row) == r
                  && (forall j: nat, k: nat :: j < i || (j == i && k < row) ==>
                        ManagementRule(m, named, 1, j, k).None?))
  {
    var r := First(|named|, Collisions(m, named), 0);
    i := FirstAt(|named|, Collisions(m, named), 0);
    row := if r.Some? && r.value.MgmtPrefixCollides? then 0 else 1;
    forall j: nat, k: nat | r.None? || j < i ensures ManagementRule(m, named, 1, j, k).None? {
      assert j < |named| ==> Collisions(m, named)(j).None?;
      CollisionQuiet(m, named, j, k);
    }
  }

  /** Whether the one rule of the management stage listed at a place holds. */
  predicate Quiet(m: Management, named: seq<Interface>, p: Place) {
    ManagementRule(m, named, p.index, p.other, p.row).None?
  }

  /** A phase about the entry alone has one entry and no row past its last. */
  lemma PhaseQuiet(m: Management, named: seq<Interface>, q: Place, phase: nat, rows: nat)
    requires (phase, rows) == (0, 5) || (phase, rows) == (2, 4)
    requires q.index == phase && (q.row < rows ==> PhaseRows(m, named, phase)(q.row).None?)
    ensures Quiet(m, named, q)
  {
  }

  lemma NoSuchPhase(m: Management, named: seq<Interface>, q: Place)
    requires q.index > 2
    ensures Quiet(m, named, q)
  {
  }

  lemma NotEnabledPlace(m: Management, named: seq<Interface>, q: Place)
    requires m.enabled != 1 && q != Place(7, 0, 0, 0) && q.stage == 7
    ensures Quiet(m, named, q)
  {
  }

  /** The management stage's first fault, phase by phase. */
  lemma EnabledPlace(m: Management, named: seq<Interface>) returns (p: Place)
    requires m.enabled == 1
    ensures p.stage == 7
    ensures ManagementCheck(m, named).Some? ==>
              ManagementRule(m, named, p.index, p.other, p.row) == ManagementCheck(m, named)
    ensures forall q: Place :: q.stage == 7 && (ManagementCheck(m, named).None? || Before(q, p)) ==> Quiet(m, named, q)
  {
    EntryInOrder(m, named);
    GatewayInOrder(m, named);
    var entry := FirstAt(5, PhaseRows(m, named, 0), 0);
    var i, row := CollisionPlace(m, named);
    var gateway := FirstAt(4, PhaseRows(m, named, 2), 0);
    var met := First(|named|, Collisions(m, named), 0).Some?;
    p := if AddressCheck(m).Some? then Place(7, 0, 0, entry)
         else if met then Place(7, 1, i, row)
         else Place(7, 2, 0, gateway);
    forall q: Place | q.stage == 7 && (ManagementCheck(m, named).None? || Before(q, p)) ensures Quiet(m, named, q) {
      if q.index == 0 {
        assert q.row < 5 ==> PhaseRows(m, named, 0)(q.row).None?;
        PhaseQuiet(m, named, q, 0, 5);
      } else if q.index == 2 {
        assert q.row < 4 ==> PhaseRows(m, named, 2)(q.row).None?;
        PhaseQuiet(m, named, q, 2, 4);
      } else if q.index > 2 {
        NoSuchPhase(m, named, q);
      }
    }
  }

  lemma ManagementPlace(m: Management, named: seq<Interface>) returns (p: Place)
    ensures p.stage == 7
    ensures ManagementCheck(m, named).Some? ==>
              ManagementRule(m, named, p.index, p.other, p.row) == ManagementCheck(m, named)
    ensures forall q: Place :: q.stage == 7 && (ManagementCheck(m, named).None? || Before(q, p)) ==> Quiet(m, named, q)
  {
    if m.enabled == 1 {
      p := EnabledPlace(m, named);
    } else {
      p := Place(7, 0, 0, 0);
      forall q: Place | q.stage == 7 && q != p ensures Quiet(m, named, q) { NotEnabledPlace(m, named, q); }
    }
  }

  lemma ManagementClauseQuiet(g: Given, q: Place)
    requires q.stage == 7 && Quiet(g.management, g.named, q)
    ensures Clause(g, q).None?
  {
  }

  lemma ManagementClauseAt(g: Given, p: Place, fault: Option<ManagementFault>)
    requires p.stage == 7 && fault == ManagementRule(g.management, g.named, p.index, p.other, p.row)
    ensures Clause(g, p) == OfManagement(fault)
  {
    assert Clause(g, p) == ManagementClause(g, p.index, p.other, p.row);
  }

  lemma ManagementStage(g: Given) returns (p: Place)
    ensures Leads(g, ManagementVerdict(g), p, 7, 8)
  {
    p := ManagementPlace(g.management, g.named);
    var r := ManagementVerdict(g);
    if r.Some? { ManagementClauseAt(g, p, ManagementCheck(g.management, g.named)); }
    forall q: Place | q.stage == 7 && (r.None? || Before(q, p)) ensures Clause(g, q).None? {
      assert Quiet(g.management, g.named, q);
      ManagementClauseQuiet(g, q);
    }
  }

  // ------------------------------------------------------------- the first fault

  lemma JudgeLeads(g: Given, guarded: bool) returns (p: Place)
    ensures Leads(g, Judge(g, guarded), p, 2, 8)
  {
    GuardIsRedundant(g);
    p := ManagementStage(g);
    var q := PolicyStage(g);
    p := LeadsOn(g, First(|g.policy|, Policy(g, false), 0), q, ManagementVerdict(g), p, 6, 7, 8);
    var r := Else(First(|g.policy|, Policy(g, false), 0), ManagementVerdict(g));
    q := SameHopStage(g);
    p := LeadsOn(g, First(|g.hops|, SameHops(g), 0), q, r, p, 5, 6, 8);
    r := Else(First(|g.hops|, SameHops(g), 0), r);
    q := NeighbourStage(g);
    p := LeadsOn(g, First(|g.hops|, Neighbours(g), 0), q, r, p, 4, 5, 8);
    r := Else(First(|g.hops|, Neighbours(g), 0), r);
    q := PairStage(g);
    p := LeadsOn(g, First(|g.named|, Pairs(g), 0), q, r, p, 3, 4, 8);
    r := Else(First(|g.named|, Pairs(g), 0), r);
    q := InterfaceStage(g);
    p := LeadsOn(g, First(|g.named|, Interfaces(g), 0), q, r, p, 2, 3, 8);
  }

  function HeadClause(image: Image, folded: nat, p: Place): Option<Error> {
    var b := image.body;
    if p == Place(0, 0, 0, 0) then When(folded != image.digest, DigestMismatch(image.digest, folded))
    else if p == Place(1, 0, 0, 0) then
      When(b.interfaceCount > |b.interfaces|, InterfaceCountExceedsCapacity(b.interfaceCount))
    else if p == Place(1, 0, 0, 1) then
      When(b.neighbourCount > |b.neighbours|, NeighbourCountExceedsCapacity(b.neighbourCount))
    else if p == Place(1, 0, 0, 2) then When(b.ruleCount > |b.rules|, RuleCountExceedsCapacity(b.ruleCount))
    else None
  }

  lemma HeadStage(image: Image, folded: nat) returns (p: Place)
    ensures HeadCheck(image, folded).None? ==> forall q: Place :: HeadClause(image, folded, q).None?
    ensures HeadCheck(image, folded).Some? ==>
              && p.stage < 2 && HeadClause(image, folded, p) == HeadCheck(image, folded)
              && forall q: Place :: Before(q, p) ==> HeadClause(image, folded, q).None?
  {
    var b := image.body;
    p := if folded != image.digest then Place(0, 0, 0, 0)
         else if b.interfaceCount > |b.interfaces| then Place(1, 0, 0, 0)
         else if b.neighbourCount > |b.neighbours| then Place(1, 0, 0, 1)
         else Place(1, 0, 0, 2);
  }

  /** The whole contract: the digest, then the counts, then what they cover. */
  function ImageClause(image: Image, folded: nat, ports: nat, tracked: bool, p: Place): Option<Error> {
    if p.stage < 2 then HeadClause(image, folded, p) else Clause(GivenBy(image.body, ports, tracked), p)
  }

  /** The rule at `p` is broken, says `e`, and every rule listed before it holds. */
  ghost predicate FirstFault(image: Image, folded: nat, ports: nat, tracked: bool, p: Place, e: Error) {
    && ImageClause(image, folded, ports, tracked, p) == Some(e)
    && forall q: Place :: Before(q, p) ==> ImageClause(image, folded, ports, tracked, q).None?
  }

  /** The verdict is the contract's first fault, and there is no verdict exactly
      when no rule is broken. */
  lemma RefusalIsTheFirstFault(image: Image, folded: nat, ports: nat, tracked: bool) returns (p: Place)
    ensures var r := Refusal(image, folded, ports, tracked);
            && (r.None? ==> forall q: Place :: ImageClause(image, folded, ports, tracked, q).None?)
            && (r.Some? ==> FirstFault(image, folded, ports, tracked, p, r.value))
  {
    var g := GivenBy(image.body, ports, tracked);
    var judged := Judge(g, !tracked);
    var head := HeadStage(image, folded);
    var tail := JudgeLeads(g, !tracked);
    p := if HeadCheck(image, folded).Some? then head else tail;
    forall q: Place | Refusal(image, folded, ports, tracked).None? || Before(q, p)
      ensures ImageClause(image, folded, ports, tracked, q).None?
    {
      if q.stage >= 8 { NoSuchStage(g, q); }
    }
  }

  lemma NoSuchStage(g: Given, q: Place)
    requires q.stage >= 8
    ensures Clause(g, q).None?
  {
  }

  lemma OneFirst(list: Place -> Option<Error>, p: Place, q: Place)
    requires list(p).Some? && list(q).Some?
    requires (forall k: Place :: Before(k, p) ==> list(k).None?) && (forall k: Place :: Before(k, q) ==> list(k).None?)
    ensures p == q
  {
    assert !Before(p, q) && !Before(q, p);
  }

  /** No two faults are both first. */
  lemma OneFirstFault(image: Image, folded: nat, ports: nat, tracked: bool, e: Error)
    ensures Refusal(image, folded, ports, tracked) == Some(e) <==>
              exists p: Place :: FirstFault(image, folded, ports, tracked, p, e)
  {
    var p := RefusalIsTheFirstFault(image, folded, ports, tracked);
    forall q: Place | FirstFault(image, folded, ports, tracked, q, e)
      ensures Refusal(image, folded, ports, tracked) == Some(e)
    {
      assert ImageClause(image, folded, ports, tracked, q).Some?;
      OneFirst(k => ImageClause(image, folded, ports, tracked, k), p, q);
    }
  }
}
