/**
 What the reader of a configuration image hands on when it refuses nothing: the
 entries the counts cover, each flag a boolean, each criterion a value or nothing,
 each id the text of it.
 */
module HandoverDecoded {
  import opened Wrappers
  import opened Chains
  import opened Prefix
  import opened Handover

  datatype CheckedInterface = CheckedInterface(
    port: nat, enabled: bool, length: nat, mac: Mac, address: Word, id: seq<nat>)

  datatype CheckedNeighbour = CheckedNeighbour(port: nat, mac: Mac, address: Word)

  datatype CheckedManagement = CheckedManagement(length: nat, mac: Mac, address: Word, gateway: Option<Word>)

  datatype CheckedPrefix = CheckedPrefix(network: Word, length: nat)
  datatype CheckedPorts = CheckedPorts(low: nat, high: nat)
  datatype CheckedTracking = OpeningOnly | RelatedOnly

  datatype CheckedRule = CheckedRule(
    id: seq<nat>, ingress: Option<nat>, egress: Option<nat>, source: Option<CheckedPrefix>,
    destination: Option<CheckedPrefix>, protocol: Option<nat>, sourcePort: Option<CheckedPorts>,
    destinationPort: Option<CheckedPorts>, icmpType: Option<nat>, tracking: Option<CheckedTracking>, drops: bool)

  datatype Checked = Checked(
    generation: nat, management: Option<CheckedManagement>, interfaces: seq<CheckedInterface>,
    neighbours: seq<CheckedNeighbour>, rules: seq<CheckedRule>)

  function DecodeInterface(e: Interface): CheckedInterface {
    CheckedInterface(e.port, e.enabled == 1, e.length, e.mac, e.address, Text(e.id))
  }

  function DecodeNeighbour(e: Neighbour): CheckedNeighbour { CheckedNeighbour(e.port, e.mac, e.address) }

  /** Nothing for a management port that is off. */
  function DecodeManagement(m: Management): Option<CheckedManagement> {
    if m.enabled == 0 then None
    else Some(CheckedManagement(m.length, m.mac, m.address, if m.gatewayStated == 1 then Some(m.gateway) else None))
  }

  function DecodePort(p: Port): Option<nat> { if p.stated == 1 then Some(p.port) else None }

  function DecodeBlock(b: Block): Option<CheckedPrefix> {
    if b.stated == 1 then Some(CheckedPrefix(b.network, b.length)) else None
  }

  function DecodePorts(p: Ports): Option<CheckedPorts> {
    if p.stated == 1 then Some(CheckedPorts(p.low, p.high)) else None
  }

  function DecodeByte(b: Byte): Option<nat> { if b.stated == 1 then Some(b.value) else None }

  function DecodeTracking(b: Byte): Option<CheckedTracking> {
    if b.stated != 1 then None else Some(if b.value == 0 then OpeningOnly else RelatedOnly)
  }

  function DecodeRule(r: Rule): CheckedRule {
    CheckedRule(Text(r.id), DecodePort(r.ingress), DecodePort(r.egress), DecodeBlock(r.source),
                DecodeBlock(r.destination), DecodeByte(r.protocol), DecodePorts(r.sourcePort),
                DecodePorts(r.destinationPort), DecodeByte(r.icmpType), DecodeTracking(r.tracking), r.action == 1)
  }

  function Each<T, R>(f: T -> R, s: seq<T>): (out: seq<R>)
    ensures |out| == |s| && forall i :: 0 <= i < |s| ==> out[i] == f(s[i])
  {
    seq(|s|, i requires 0 <= i < |s| => f(s[i]))
  }

  function Decode(b: Body): Checked {
    Checked(b.generation, DecodeManagement(b.management),
            Each(DecodeInterface, Covered(b.interfaces, b.interfaceCount)),
            Each(DecodeNeighbour, Covered(b.neighbours, b.neighbourCount)),
            Each(DecodeRule, Covered(b.rules, b.ruleCount)))
  }

  /** The reader: a refusal, or the configuration it read. */
  function Check(image: Image, folded: nat, ports: nat): Result<Checked, Error> {
    var refusal := Refusal(image, folded, ports, true);
    if refusal.Some? then Err(refusal.value) else Ok(Decode(image.body))
  }

  // ------------------------------------------------------- slots past the counts

  predicate SameCovered(b: Body, c: Body) {
    && c.generation == b.generation
    && c.interfaceCount == b.interfaceCount && c.neighbourCount == b.neighbourCount && c.ruleCount == b.ruleCount
    && |c.interfaces| == |b.interfaces| && |c.neighbours| == |b.neighbours| && |c.rules| == |b.rules|
    && Covered(c.interfaces, c.interfaceCount) == Covered(b.interfaces, b.interfaceCount)
    && Covered(c.neighbours, c.neighbourCount) == Covered(b.neighbours, b.neighbourCount)
    && Covered(c.rules, c.ruleCount) == Covered(b.rules, b.ruleCount)
    && c.management == b.management
  }

  /** The body with the fold of itself beside it. */
  function Seal(b: Body, fold: Body -> nat): Image { Image(b, fold(b)) }

  lemma SameHead(b: Body, c: Body, digest: nat, folded: nat)
    requires SameCovered(b, c) && folded == digest
    ensures HeadCheck(Image(c, digest), folded) == HeadCheck(Image(b, digest), folded)
    ensures HeadCheck(Image(c, digest), folded) == HeadCheck(Image(b, 0), 0)
  {
  }

  lemma SameGiven(b: Body, c: Body, ports: nat, tracked: bool)
    requires SameCovered(b, c)
    ensures GivenBy(c, ports, tracked) == GivenBy(b, ports, tracked)
  {
  }

  lemma SameDecoding(b: Body, c: Body)
    requires SameCovered(b, c)
    ensures Decode(c) == Decode(b)
  {
  }

  lemma SameVerdict(b: Body, c: Body, fold: Body -> nat, ports: nat, tracked: bool)
    requires SameCovered(b, c)
    ensures Refusal(Seal(c, fold), fold(c), ports, tracked) == Refusal(Seal(b, fold), fold(b), ports, tracked)
    ensures Refusal(Image(c, fold(b)), fold(c), ports, tracked)
         == if fold(c) != fold(b) then Some(DigestMismatch(fold(b), fold(c)))
            else Refusal(Seal(b, fold), fold(b), ports, tracked)
  {
    SameGiven(b, c, ports, tracked);
    var judged := Judge(GivenBy(b, ports, tracked), !tracked);
    SameHead(b, c, fold(c), fold(c));
    SameHead(b, b, fold(b), fold(b));
    assert Refusal(Seal(c, fold), fold(c), ports, tracked) == Else(HeadCheck(Seal(c, fold), fold(c)), judged);
    assert Refusal(Seal(b, fold), fold(b), ports, tracked) == Else(HeadCheck(Seal(b, fold), fold(b)), judged);
    assert Refusal(Image(c, fold(b)), fold(c), ports, tracked) == Else(HeadCheck(Image(c, fold(b)), fold(c)), judged);
  }

  /** Whatever the slots past the counts hold, a re-sealed image gets the same
      answer, decoded configuration included. Left under the old digest it is
      refused for that where the digest moved, and answered the same where it did
      not. */
  lemma PastTheCountsIsUnread(b: Body, c: Body, fold: Body -> nat, ports: nat)
    requires SameCovered(b, c)
    ensures Check(Seal(c, fold), fold(c), ports) == Check(Seal(b, fold), fold(b), ports)
    ensures Check(Image(c, fold(b)), fold(c), ports)
         == if fold(c) != fold(b) then Err(DigestMismatch(fold(b), fold(c))) else Check(Seal(b, fold), fold(b), ports)
  {
    SameVerdict(b, c, fold, ports, true);
    SameDecoding(b, c);
  }

  function Rewritten<T>(slots: seq<T>, count: nat, junk: T): (t: seq<T>)
    ensures |t| == |slots| && Covered(t, count) == Covered(slots, count)
  {
    if count <= |slots| then slots[..count] + seq(|slots| - count, _ => junk) else slots
  }

  /** The check that rewrites every slot past the counts, one at a time. */
  method Scribble(b: Body, interface: Interface, neighbour: Neighbour, rule: Rule) returns (c: Body)
    ensures SameCovered(b, c)
    ensures c.interfaces == Rewritten(b.interfaces, b.interfaceCount, interface)
    ensures c.neighbours == Rewritten(b.neighbours, b.neighbourCount, neighbour)
    ensures c.rules == Rewritten(b.rules, b.ruleCount, rule)
  {
    var interfaces := Overwrite(b.interfaces, b.interfaceCount, interface);
    var neighbours := Overwrite(b.neighbours, b.neighbourCount, neighbour);
    var rules := Overwrite(b.rules, b.ruleCount, rule);
    c := b.(interfaces := interfaces, neighbours := neighbours, rules := rules);
  }

  method Overwrite<T>(slots: seq<T>, count: nat, junk: T) returns (now: seq<T>)
    ensures now == Rewritten(slots, count, junk)
  {
    now := slots;
    var k := count;
    while k < |slots|
      invariant |now| == |slots| && count <= k && (count <= |slots| ==> k <= |slots|)
      invariant forall i :: 0 <= i < |slots| ==> now[i] == if count <= i < k then junk else slots[i]
    {
      now := now[k := junk];
      k := k + 1;
    }
  }
}
