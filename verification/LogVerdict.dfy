/**
 What an accepted log record is, stated field by field, and which rule a refused
 one broke first. The rules are a numbered list, each judged on its own; the operand
 words of a domain record are ruled on from a table of what each word is.
 */
module LogVerdict {
  import opened Wrappers
  import opened Alphabet
  import opened Chains
  import opened LogRecord

  // -------------------------------------------------------- what an operand word is

  datatype Vocabulary =
    | Primitive | DialOutcome | NextHopVia | OnboardEnd | OnboardOutcomes | ChannelOutcomes
    | TlsIncompatible | TlsRefusal | TlsCertificateRefusal | OnboardRoute | OnboardRefusal | Ownership

  datatype WordRule = Any | Token(of: Vocabulary) | CodePoint | Address | SequenceNumber | Boolean | SlotNumber

  function Cardinality(of: Vocabulary): nat {
    match of
    case Primitive => PRIMITIVE_COUNT
    case DialOutcome => DIAL_OUTCOME_COUNT
    case NextHopVia => NEXT_HOP_VIA_COUNT
    case OnboardEnd => ONBOARD_END_COUNT
    case OnboardOutcomes => ONBOARD_OUTCOME_COUNT
    case ChannelOutcomes => CHANNEL_OUTCOME_COUNT
    case TlsIncompatible => TLS_INCOMPATIBLE_COUNT
    case TlsRefusal => TLS_REFUSAL_COUNT
    case TlsCertificateRefusal => TLS_CERTIFICATE_REFUSAL_COUNT
    case OnboardRoute => ONBOARD_ROUTE_COUNT
    case OnboardRefusal => ONBOARD_REFUSAL_COUNT
    case Ownership => OWNERSHIP_COUNT
  }

  predicate Obeys(rule: WordRule, word: nat) {
    match rule
    case Any => true
    case Token(of) => word < Cardinality(of)
    case CodePoint => word <= U16_MAX
    case Address => word <= U32_MAX
    case SequenceNumber => word <= U32_MAX
    case Boolean => word <= 1
    case SlotNumber => word <= U8_MAX
  }

  function Complaint(rule: WordRule, word: nat): Error
    requires rule != Any
  {
    match rule
    case Token(of) =>
      (match of
       case Primitive => PrimitiveUnknown(word)
       case DialOutcome => DialOutcomeUnknown(word)
       case NextHopVia => NextHopViaUnknown(word)
       case OnboardEnd => OnboardEndUnknown(word)
       case OnboardOutcomes => OnboardOutcomeUnknown(word)
       case ChannelOutcomes => ChannelOutcomeUnknown(word)
       case TlsIncompatible => TlsIncompatibleUnknown(word)
       case TlsRefusal => TlsRefusalUnknown(word)
       case TlsCertificateRefusal => TlsCertificateRefusalUnknown(word)
       case OnboardRoute => OnboardRouteUnknown(word)
       case OnboardRefusal => OnboardRefusalUnknown(word)
       case Ownership => OwnershipUnknown(word))
    case CodePoint => CodePointTooWide(word)
    case Address => AddressTooWide(word)
    case SequenceNumber => SequenceTooWide(word)
    case Boolean => OperandFlagNotBoolean(word)
    case SlotNumber => SlotNumberTooWide(word)
  }

  /** What the first, second, third and fourth operand word of a detail each are. */
  function LeadingWord(detail: nat): WordRule {
    match detail
    case 9 | 10 | 15 => Token(Primitive)
    case 11 | 12 => CodePoint
    case 20 => Token(DialOutcome)
    case 21 => Token(NextHopVia)
    case 24 => SequenceNumber
    case 25 => Token(OnboardEnd)
    case 27 | 28 | 29 | 30 | 31 | 32 => Token(OnboardOutcomes)
    case 35 => Token(OnboardRoute)
    case 36 => Token(OnboardRefusal)
    case 38 | 43 => Address
    case 41 => Token(Ownership)
    case 45 | 46 | 47 | 48 | 49 | 50 | 51 => Token(ChannelOutcomes)
    case 52 => Boolean
    case _ => Any
  }

  function SecondWord(detail: nat): WordRule {
    match detail
    case 11 | 27 | 31 | 36 | 38 | 43 | 45 | 50 | 52 => CodePoint
    case 20 | 21 => Address
    case 24 => SequenceNumber
    case 29 | 47 => Token(TlsIncompatible)
    case 30 | 48 => Token(TlsRefusal)
    case 49 => Token(TlsCertificateRefusal)
    case 57 => SlotNumber
    case _ => Any
  }

  function ThirdWord(detail: nat): WordRule {
    match detail case 20 | 27 | 33 | 34 | 45 => CodePoint case _ => Any
  }

  function FourthWord(detail: nat): WordRule {
    match detail
    case 16 | 18 | 23 | 42 | 43 | 54 | 57 => Boolean
    case 27 | 45 => CodePoint
    case _ => Any
  }

  function Ruled(rule: WordRule, word: nat): Verdict {
    if Obeys(rule, word) then None else Some(Complaint(rule, word))
  }

  /** A detail's four words, ruled on left to right. */
  function RowRefusal(detail: nat, a: nat, b: nat, c: nat, d: nat): Verdict {
    Else(Ruled(LeadingWord(detail), a),
    Else(Ruled(SecondWord(detail), b),
    Else(Ruled(ThirdWord(detail), c),
         Ruled(FourthWord(detail), d))))
  }

  lemma EarlyOperands(detail: nat, a: nat, b: nat, c: nat, d: nat)
    requires detail < 25
    ensures OperandRefusal(detail, a, b, c, d) == RowRefusal(detail, a, b, c, d)
  {
  }

  lemma MiddleOperands(detail: nat, a: nat, b: nat, c: nat, d: nat)
    requires 25 <= detail < 38
    ensures OperandRefusal(detail, a, b, c, d) == RowRefusal(detail, a, b, c, d)
  {
  }

  lemma LateOperands(detail: nat, a: nat, b: nat, c: nat, d: nat)
    requires 38 <= detail
    ensures OperandRefusal(detail, a, b, c, d) == RowRefusal(detail, a, b, c, d)
  {
  }

  /** Every chain of operand checks is its row of the table, left to right. */
  lemma OperandsAreReadLeftToRight(detail: nat, a: nat, b: nat, c: nat, d: nat)
    ensures OperandRefusal(detail, a, b, c, d) == RowRefusal(detail, a, b, c, d)
  {
    if detail < 25 {
      EarlyOperands(detail, a, b, c, d);
    } else if detail < 38 {
      MiddleOperands(detail, a, b, c, d);
    } else {
      LateOperands(detail, a, b, c, d);
    }
  }

  predicate OperandsSound(detail: nat, words: seq<nat>)
    requires |words| == 4
  {
    && Obeys(LeadingWord(detail), words[0]) && Obeys(SecondWord(detail), words[1])
    && Obeys(ThirdWord(detail), words[2]) && Obeys(FourthWord(detail), words[3])
  }

  // ------------------------------------------------------------- what is accepted

  predicate TextSound(t: Text, mayBeEmpty: bool) {
    && t.len <= |t.bytes| && (t.len == 0 ==> mayBeEmpty)
    && forall k :: 0 <= k < t.len ==> InAlphabet(t.bytes[k])
  }

  predicate ValueSound(v: Value) {
    && v.kind <= 10
    && (v.kind == 1 || v.kind == 4 || v.kind == 10 ==> v.number <= U8_MAX)
    && (v.kind == 5 ==> v.number <= 1)
    && (v.kind == 8 || v.kind == 9 ==> TextSound(v.id, false))
  }

  predicate DetailSound(r: Record)
    requires |r.operands| == 4
  {
    && r.detail < DETAIL_COUNT
    && (r.detail == DETAIL_ESTABLISHED ==> r.tscHz != 0)
    && (r.detail == DETAIL_REFUSAL ==> TextSound(r.cause, true) && r.operandCount <= MAX_OPERANDS && r.signalled <= 1)
    && (ReadsOperands(r.detail) ==> OperandsSound(r.detail, r.operands))
  }

  predicate Accepted(r: Record)
    requires |r.operands| == 4
  {
    && r.stampKind <= 1 && r.kind <= 3
    && (r.kind == 0 ==> r.domain < DOMAIN_COUNT && r.state < DOMAIN_STATE_COUNT && DetailSound(r))
    && (r.kind == 1 ==>
          && r.change < CHANGE_KIND_COUNT && r.object_ < OBJECT_KIND_COUNT && TextSound(r.key, false)
          && r.field < FIELD_COUNT && ValueSound(r.from) && ValueSound(r.to))
    && (r.kind == 2 ==> r.outcome < GENERATION_OUTCOME_COUNT)
    && (r.kind == 3 ==> r.reason < REJECT_REASON_COUNT)
  }

  lemma TextSoundIff(t: Text, which: Which, mayBeEmpty: bool)
    ensures TextRefusal(t, which, mayBeEmpty).None? <==> TextSound(t, mayBeEmpty)
  {
  }

  lemma ValueSoundIff(v: Value, which: Which)
    ensures ValueRefusal(v, which).None? <==> ValueSound(v)
  {
    TextSoundIff(v.id, which, false);
  }

  lemma DetailSoundIff(r: Record)
    requires |r.operands| == 4
    ensures DetailRefusal(r).None? <==> DetailSound(r)
  {
    TextSoundIff(r.cause, Cause, true);
    OperandsAreReadLeftToRight(r.detail, r.operands[0], r.operands[1], r.operands[2], r.operands[3]);
  }

  /** A record is not refused exactly when every field it names is sound. */
  lemma AcceptedIff(r: Record)
    requires |r.operands| == 4
    ensures Refusal(r).None? <==> Accepted(r)
  {
    if r.kind == 0 {
      DetailSoundIff(r);
    } else if r.kind == 1 {
      TextSoundIff(r.key, Key, false);
      ValueSoundIff(r.from, From);
      ValueSoundIff(r.to, To);
    }
  }

  // ----------------------------------------------------- which rule is broken first

  /** The rules a text is held to, each on its own. */
  function TextRule(t: Text, which: Which, mayBeEmpty: bool, row: nat): Verdict {
    match row
    case 0 => When(t.len > |t.bytes|, TextTooLong(which, t.len))
    case 1 => When(t.len == 0 && !mayBeEmpty, TextEmpty(which))
    case 2 =>
      if t.len > |t.bytes| then None
      else
        var offset := FirstOutside(t.bytes, t.len, 0);
        When(offset < t.len, TextNotInAlphabet(which, offset))
    case _ => None
  }

  lemma TextInOrder(t: Text, which: Which, mayBeEmpty: bool)
    ensures TextRefusal(t, which, mayBeEmpty)
         == Else(TextRule(t, which, mayBeEmpty, 0),
            Else(TextRule(t, which, mayBeEmpty, 1), TextRule(t, which, mayBeEmpty, 2)))
  {
  }

  /** The rules a value is held to. */
  function ValueRule(v: Value, which: Which, row: nat): Verdict {
    match row
    case 0 => When(v.kind > 10, ValueKindUnknown(which, v.kind))
    case 1 =>
      When((v.kind == 1 || v.kind == 4 || v.kind == 5 || v.kind == 10) && v.number > U8_MAX,
           ValueNumberTooLarge(which, v.number))
    case 2 => When(v.kind == 5 && v.number > 1, ValueBoolNotBoolean(which, v.number))
    case _ => if row >= 3 && (v.kind == 8 || v.kind == 9) then TextRule(v.id, which, false, row - 3) else None
  }

  lemma ValueInOrder(v: Value, which: Which)
    ensures ValueRefusal(v, which)
         == Else(Else(ValueRule(v, which, 0), Else(ValueRule(v, which, 1), ValueRule(v, which, 2))),
                 Else(ValueRule(v, which, 3), Else(ValueRule(v, which, 4), ValueRule(v, which, 5))))
  {
    TextInOrder(v.id, which, false);
  }

  const DOMAIN_RULES: nat := 13
  const CHANGE_RULES: nat := 18

  /** The rules of a domain record: its names, then what its detail reads. */
  function DomainRule(r: Record, row: nat): Verdict
    requires |r.operands| == 4
  {
    var refusal, words := r.detail == DETAIL_REFUSAL, ReadsOperands(r.detail);
    match row
    case 0 => When(r.domain >= DOMAIN_COUNT, DomainUnknown(r.domain))
    case 1 => When(r.state >= DOMAIN_STATE_COUNT, DomainStateUnknown(r.state))
    case 2 => When(r.detail >= DETAIL_COUNT, DetailKindUnknown(r.detail))
    case 3 => if refusal then TextRule(r.cause, Cause, true, 0) else None
    case 4 => if refusal then TextRule(r.cause, Cause, true, 1) else None
    case 5 => if refusal then TextRule(r.cause, Cause, true, 2) else None
    case 6 => When(refusal && r.operandCount > MAX_OPERANDS, OperandCountUnknown(r.operandCount))
    case 7 => When(refusal && r.signalled > 1, SignalledNotBoolean(r.signalled))
    case 8 => When(r.detail == DETAIL_ESTABLISHED && r.tscHz == 0, ClockFrequencyZero)
    case 9 => if words then Ruled(LeadingWord(r.detail), r.operands[0]) else None
    case 10 => if words then Ruled(SecondWord(r.detail), r.operands[1]) else None
    case 11 => if words then Ruled(ThirdWord(r.detail), r.operands[2]) else None
    case 12 => if words then Ruled(FourthWord(r.detail), r.operands[3]) else None
    case _ => None
  }

  /** The rules of a change record. */
  function ChangeRule(r: Record, row: nat): Verdict {
    match row
    case 0 => When(r.change >= CHANGE_KIND_COUNT, ChangeKindUnknown(r.change))
    case 1 => When(r.object_ >= OBJECT_KIND_COUNT, ObjectKindUnknown(r.object_))
    case 2 => TextRule(r.key, Key, false, 0)
    case 3 => TextRule(r.key, Key, false, 1)
    case 4 => TextRule(r.key, Key, false, 2)
    case 5 => When(r.field >= FIELD_COUNT, FieldUnknown(r.field))
    case _ => if row < 12 then ValueRule(r.from, From, row - 6) else ValueRule(r.to, To, row - 12)
  }

  function DomainRules(r: Record): nat -> Verdict
    requires |r.operands| == 4
  {
    (row: nat) => if |r.operands| == 4 then DomainRule(r, row) else None
  }

  function ChangeRules(r: Record): nat -> Verdict { (row: nat) => ChangeRule(r, row) }

  lemma DomainTriples(r: Record, f: nat -> Verdict)
    requires |r.operands| == 4 && f == DomainRules(r)
    ensures First(DOMAIN_RULES, f, 0)
         == Else(First(3, f, 0), Else(First(6, f, 3), Else(First(9, f, 6), Else(First(12, f, 9), f(12)))))
  {
    FirstJoins(DOMAIN_RULES, f, 0, 3);
    FirstJoins(DOMAIN_RULES, f, 3, 6);
    FirstJoins(DOMAIN_RULES, f, 6, 9);
    FirstJoins(DOMAIN_RULES, f, 9, 12);
    assert First(DOMAIN_RULES, f, 13).None?;
  }

  lemma DetailInOrder(r: Record, f: nat -> Verdict)
    requires |r.operands| == 4 && f == DomainRules(r)
    ensures Else(When(r.detail >= DETAIL_COUNT, DetailKindUnknown(r.detail)), DetailRefusal(r))
         == Else(f(2), Else(Else(f(3), Else(f(4), f(5))), Else(Else(f(6), Else(f(7), f(8))),
            Else(Else(f(9), Else(f(10), f(11))), f(12)))))
  {
    TextInOrder(r.cause, Cause, true);
    OperandsAreReadLeftToRight(r.detail, r.operands[0], r.operands[1], r.operands[2], r.operands[3]);
  }

  /** A domain record's refusal is the first of its rules that is broken. */
  lemma DomainRefusalIsTheFirst(r: Record)
    requires |r.operands| == 4
    ensures DomainRefusal(r) == First(DOMAIN_RULES, DomainRules(r), 0)
  {
    var f := DomainRules(r);
    DomainTriples(r, f);
    FirstOfThree(f, 0);
    FirstOfThree(f, 3);
    FirstOfThree(f, 6);
    FirstOfThree(f, 9);
    DetailInOrder(r, f);
  }

  lemma ChangeTriples(r: Record, f: nat -> Verdict)
    requires f == ChangeRules(r)
    ensures First(CHANGE_RULES, f, 0)
         == Else(First(3, f, 0), Else(First(6, f, 3), Else(First(9, f, 6),
            Else(First(12, f, 9), Else(First(15, f, 12), First(18, f, 15))))))
  {
    FirstJoins(CHANGE_RULES, f, 0, 3);
    FirstJoins(CHANGE_RULES, f, 3, 6);
    FirstJoins(CHANGE_RULES, f, 6, 9);
    FirstJoins(CHANGE_RULES, f, 9, 12);
    FirstJoins(CHANGE_RULES, f, 12, 15);
  }

  lemma ValueRows(r: Record, f: nat -> Verdict)
    requires f == ChangeRules(r)
    ensures ValueRefusal(r.from, From) == Else(First(9, f, 6), First(12, f, 9))
    ensures ValueRefusal(r.to, To) == Else(First(15, f, 12), First(18, f, 15))
  {
    FirstOfThree(f, 6);
    FirstOfThree(f, 9);
    FirstOfThree(f, 12);
    FirstOfThree(f, 15);
    ValueInOrder(r.from, From);
    ValueInOrder(r.to, To);
  }

  /** A change record's too. */
  lemma ChangeRefusalIsTheFirst(r: Record)
    ensures ChangeRefusal(r) == First(CHANGE_RULES, ChangeRules(r), 0)
  {
    var f := ChangeRules(r);
    ChangeTriples(r, f);
    FirstOfThree(f, 0);
    FirstOfThree(f, 3);
    TextInOrder(r.key, Key, false);
    ValueRows(r, f);
  }

  /** The one rule of a record of any other kind. */
  function OtherRule(r: Record, row: nat): Verdict {
    if row > 0 then None
    else if r.kind == 2 then When(r.outcome >= GENERATION_OUTCOME_COUNT, GenerationOutcomeUnknown(r.outcome))
    else if r.kind == 3 then When(r.reason >= REJECT_REASON_COUNT, RejectReasonUnknown(r.reason))
    else Some(KindUnknown(r.kind))
  }

  function OtherRules(r: Record): nat -> Verdict { (row: nat) => OtherRule(r, row) }

  /** What the body of a record is held to, by its kind. */
  function BodyRules(r: Record): nat -> Verdict
    requires |r.operands| == 4
  {
    match r.kind case 0 => DomainRules(r) case 1 => ChangeRules(r) case _ => OtherRules(r)
  }

  function BodyCount(kind: nat): nat { match kind case 0 => DOMAIN_RULES case 1 => CHANGE_RULES case _ => 1 }

  lemma BodyRefusalIsTheFirst(r: Record)
    requires |r.operands| == 4 && r.stampKind <= 1
    ensures Refusal(r) == First(BodyCount(r.kind), BodyRules(r), 0)
  {
    if r.kind == 0 {
      DomainRefusalIsTheFirst(r);
    } else if r.kind == 1 {
      ChangeRefusalIsTheFirst(r);
    } else {
      FirstOfOne(OtherRules(r));
      assert OtherRules(r)(0) == OtherRule(r, 0);
    }
  }

  /** A record is refused for the first rule it breaks: its stamp's, then its
      body's in order. */
  lemma RefusalIsTheFirstRule(r: Record) returns (row: nat)
    requires |r.operands| == 4
    ensures r.stampKind > 1 ==> Refusal(r) == Some(StampKindUnknown(r.stampKind))
    ensures r.stampKind <= 1 && Refusal(r).Some? ==>
              && row < BodyCount(r.kind) && Refusal(r) == BodyRules(r)(row)
              && forall before: nat :: before < row ==> BodyRules(r)(before).None?
    ensures r.stampKind <= 1 && Refusal(r).None? ==>
              forall any: nat :: any < BodyCount(r.kind) ==> BodyRules(r)(any).None?
  {
    row := 0;
    if r.stampKind <= 1 {
      BodyRefusalIsTheFirst(r);
      row := FirstAt(BodyCount(r.kind), BodyRules(r), 0);
    }
  }
}
