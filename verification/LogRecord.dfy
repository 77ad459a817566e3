/**
 The log record as a reader finds it in a slot, and what the reader refuses it for.
 Every field is a peer's: the kind says which fields are read, and within a domain
 record the detail does, and within a value slot the value's own kind.
 */
module LogRecord {
  import opened Wrappers
  import opened Alphabet
  import opened Chains

  const U8_MAX: nat := 0xff
  const U16_MAX: nat := 0xffff
  const U32_MAX: nat := 0xffff_ffff

  // How many tokens each vocabulary has.
  const DOMAIN_COUNT: nat := 10
  const DOMAIN_STATE_COUNT: nat := 4
  const CHANGE_KIND_COUNT: nat := 3
  const OBJECT_KIND_COUNT: nat := 4
  const FIELD_COUNT: nat := 18
  const GENERATION_OUTCOME_COUNT: nat := 6
  const REJECT_REASON_COUNT: nat := 38
  const PRIMITIVE_COUNT: nat := 10
  const DIAL_OUTCOME_COUNT: nat := 13
  const NEXT_HOP_VIA_COUNT: nat := 3
  const ONBOARD_END_COUNT: nat := 4
  const ONBOARD_OUTCOME_COUNT: nat := 10
  const ONBOARD_ROUTE_COUNT: nat := 2
  const ONBOARD_REFUSAL_COUNT: nat := 26
  const OWNERSHIP_COUNT: nat := 2
  const CHANNEL_OUTCOME_COUNT: nat := 12
  const TLS_INCOMPATIBLE_COUNT: nat := 23
  const TLS_REFUSAL_COUNT: nat := 23
  const TLS_CERTIFICATE_REFUSAL_COUNT: nat := 17

  type U8 = n: nat | n <= 0xff
  type U32 = n: nat | n <= 0xffff_ffff
  type U64 = n: nat | n <= 0xffff_ffff_ffff_ffff

  datatype Text = Text(bytes: seq<U8>, len: U8, pad: seq<U8>)

  datatype Value = Value(number: U32, kind: U8, octets: seq<U8>, pad: U8, id: Text)

  datatype Record = Record(
    features: U64, operands: seq<U64>, tscHz: U64, unixNanos: U64, frames: U64, frameBytes: U64,
    capacitySectors: U64, leadingWord: U64, stampNanos: U64,
    kind: U32, generation: U32, sequence: U32, changes: U32, rejectOffset: U32, receivePosted: U32,
    domain: U8, state: U8, detail: U8, operandCount: U8, signalled: U8, change: U8, object_: U8, field: U8,
    outcome: U8, reason: U8, stampKind: U8, pad: seq<U8>,
    cause: Text, key: Text, from: Value, to: Value)

  const CAUSE_BYTES: nat := 40
  const IDENTIFIER_BYTES: nat := 16

  predicate SizedText(t: Text, n: nat) { |t.bytes| == n && |t.pad| == 3 }

  predicate SizedValue(v: Value) { |v.octets| == 6 && SizedText(v.id, IDENTIFIER_BYTES) }

  /** The arrays are as long as the record's layout says. */
  predicate Sized(r: Record) {
    && |r.operands| == 4 && |r.pad| == 5
    && SizedText(r.cause, CAUSE_BYTES) && SizedText(r.key, IDENTIFIER_BYTES)
    && SizedValue(r.from) && SizedValue(r.to)
  }

  // ------------------------------------------------------------- the refusals

  datatype Which = Cause | Key | From | To

  datatype Error =
    | StampKindUnknown(kind: nat) | KindUnknown(kind: nat)
    | DomainUnknown(domain: nat) | DomainStateUnknown(state: nat) | DetailKindUnknown(detail: nat)
    | GenerationOutcomeUnknown(outcome: nat) | RejectReasonUnknown(reason: nat)
    | ChangeKindUnknown(change: nat) | ObjectKindUnknown(object_: nat) | FieldUnknown(field: nat)
    | OperandFlagNotBoolean(value: nat) | SlotNumberTooWide(value: nat) | CodePointTooWide(value: nat)
    | PrimitiveUnknown(primitive: nat) | DialOutcomeUnknown(outcome: nat) | AddressTooWide(value: nat)
    | NextHopViaUnknown(via: nat) | OnboardEndUnknown(end: nat) | OnboardOutcomeUnknown(outcome: nat)
    | ChannelOutcomeUnknown(outcome: nat) | TlsIncompatibleUnknown(incompatible: nat) | TlsRefusalUnknown(refusal: nat)
    | TlsCertificateRefusalUnknown(refusal: nat) | OnboardRouteUnknown(route: nat) | OnboardRefusalUnknown(refusal: nat)
    | OwnershipUnknown(ownership: nat) | SequenceTooWide(value: nat) | ClockFrequencyZero
    | OperandCountUnknown(operands: nat) | SignalledNotBoolean(signalled: nat)
    | TextTooLong(text: Which, len: nat) | TextEmpty(text: Which) | TextNotInAlphabet(text: Which, offset: nat)
    | ValueKindUnknown(text: Which, kind: nat) | ValueNumberTooLarge(text: Which, number: nat)
    | ValueBoolNotBoolean(text: Which, number: nat)

  type Verdict = Option<Error>

  function FirstOutside(bytes: seq<U8>, len: nat, at: nat): (offset: nat)
    requires at <= len <= |bytes|
    ensures at <= offset <= len && (offset < len ==> !InAlphabet(bytes[offset]))
    ensures forall k :: at <= k < offset ==> InAlphabet(bytes[k])
    decreases len - at
  {
    if at == len || !InAlphabet(bytes[at]) then at else FirstOutside(bytes, len, at + 1)
  }

  /** `mayBeEmpty` excuses a text of no bytes and nothing else. */
  function TextRefusal(t: Text, which: Which, mayBeEmpty: bool): Verdict {
    if t.len > |t.bytes| then Some(TextTooLong(which, t.len))
    else if t.len == 0 && !mayBeEmpty then Some(TextEmpty(which))
    else
      var offset := FirstOutside(t.bytes, t.len, 0);
      When(offset < t.len, TextNotInAlphabet(which, offset))
  }

  function NarrowingRefusal(number: nat, which: Which): Verdict {
    When(number > U8_MAX, ValueNumberTooLarge(which, number))
  }

  /** Kinds that read nothing are never refused. */
  function ValueRefusal(v: Value, which: Which): Verdict {
    match v.kind
    case 0 | 2 | 3 | 6 | 7 => None
    case 1 | 4 | 10 => NarrowingRefusal(v.number, which)
    case 5 => Else(NarrowingRefusal(v.number, which), When(v.number > 1, ValueBoolNotBoolean(which, v.number)))
    case 8 | 9 => TextRefusal(v.id, which, false)
    case kind => Some(ValueKindUnknown(which, kind))
  }

  function WideCodePoint(value: nat): Verdict { When(value > U16_MAX, CodePointTooWide(value)) }
  function WideAddress(value: nat): Verdict { When(value > U32_MAX, AddressTooWide(value)) }
  function WideSequence(value: nat): Verdict { When(value > U32_MAX, SequenceTooWide(value)) }
  function Flag(value: nat): Verdict { When(value > 1, OperandFlagNotBoolean(value)) }
  function OnboardOutcome(value: nat): Verdict { When(value >= ONBOARD_OUTCOME_COUNT, OnboardOutcomeUnknown(value)) }
  function ChannelOutcome(value: nat): Verdict { When(value >= CHANNEL_OUTCOME_COUNT, ChannelOutcomeUnknown(value)) }
  function Incompatible(value: nat): Verdict { When(value >= TLS_INCOMPATIBLE_COUNT, TlsIncompatibleUnknown(value)) }
  function Refused(value: nat): Verdict { When(value >= TLS_REFUSAL_COUNT, TlsRefusalUnknown(value)) }

  /** What the operand words of a detail that reads them are refused for, left to
      right. The details are numbered as the record numbers them. */
  function OperandRefusal(detail: nat, a: nat, b: nat, c: nat, d: nat): Verdict {
    match detail
    // four unranged words
    case 7 | 8 | 13 | 14 | 17 | 19 | 22 | 26 | 37 | 39 | 40 | 44 | 53 | 55 | 56 => None
    // a flag in the fourth word
    case 16 | 18 | 23 | 42 | 54 => Flag(d)
    // the running configuration: its slot, then where it came from
    case 57 => Else(When(b > U8_MAX, SlotNumberTooWide(b)), Flag(d))
    // a protocol's code points
    case 11 => Else(WideCodePoint(a), WideCodePoint(b))
    case 12 => WideCodePoint(a)
    case 33 | 34 => WideCodePoint(c)
    // a primitive's token
    case 9 | 10 | 15 => When(a >= PRIMITIVE_COUNT, PrimitiveUnknown(a))
    // the dial, its route and its sequence
    case 20 => Else(When(a >= DIAL_OUTCOME_COUNT, DialOutcomeUnknown(a)), Else(WideAddress(b), WideCodePoint(c)))
    case 21 => Else(When(a >= NEXT_HOP_VIA_COUNT, NextHopViaUnknown(a)), WideAddress(b))
    case 24 => Else(WideSequence(a), WideSequence(b))
    // the onboarding port
    case 25 => When(a >= ONBOARD_END_COUNT, OnboardEndUnknown(a))
    case 27 => Else(OnboardOutcome(a), Else(WideCodePoint(b), Else(WideCodePoint(c), WideCodePoint(d))))
    case 28 | 32 => OnboardOutcome(a)
    case 29 => Else(OnboardOutcome(a), Incompatible(b))
    case 30 => Else(OnboardOutcome(a), Refused(b))
    case 31 => Else(OnboardOutcome(a), WideCodePoint(b))
    case 35 => When(a >= ONBOARD_ROUTE_COUNT, OnboardRouteUnknown(a))
    case 36 => Else(When(a >= ONBOARD_REFUSAL_COUNT, OnboardRefusalUnknown(a)), WideCodePoint(b))
    // ownership
    case 38 => Else(WideAddress(a), WideCodePoint(b))
    case 41 => When(a >= OWNERSHIP_COUNT, OwnershipUnknown(a))
    case 43 => Else(WideAddress(a), Else(WideCodePoint(b), Flag(d)))
    // the management channel
    case 45 => Else(ChannelOutcome(a), Else(WideCodePoint(b), Else(WideCodePoint(c), WideCodePoint(d))))
    case 46 | 51 => ChannelOutcome(a)
    case 47 => Else(ChannelOutcome(a), Incompatible(b))
    case 48 => Else(ChannelOutcome(a), Refused(b))
    case 49 => Else(ChannelOutcome(a), When(b >= TLS_CERTIFICATE_REFUSAL_COUNT, TlsCertificateRefusalUnknown(b)))
    case 50 => Else(ChannelOutcome(a), WideCodePoint(b))
    case 52 => Else(Flag(a), WideCodePoint(b))
    case _ => None
  }

  const DETAIL_FEATURES: nat := 1
  const DETAIL_RECEIVE_POSTED: nat := 2
  const DETAIL_REFUSAL: nat := 3
  const DETAIL_ESTABLISHED: nat := 4
  const DETAIL_RECEIVED: nat := 5
  const DETAIL_MEDIUM: nat := 6
  const DETAIL_LISTENS_FOR_NOTHING: nat := 58
  const DETAIL_COUNT: nat := 59
  const MAX_OPERANDS: nat := 2

  /** The details that read the operand words, and read them all. */
  predicate ReadsOperands(detail: nat) { 7 <= detail < DETAIL_LISTENS_FOR_NOTHING }

  function DetailRefusal(r: Record): Verdict
    requires |r.operands| == 4
  {
    if r.detail == DETAIL_ESTABLISHED then When(r.tscHz == 0, ClockFrequencyZero)
    else if r.detail == DETAIL_REFUSAL then
      Else(TextRefusal(r.cause, Cause, true),
      Else(When(r.operandCount > MAX_OPERANDS, OperandCountUnknown(r.operandCount)),
           When(r.signalled > 1, SignalledNotBoolean(r.signalled))))
    else if ReadsOperands(r.detail) then
      OperandRefusal(r.detail, r.operands[0], r.operands[1], r.operands[2], r.operands[3])
    else When(r.detail >= DETAIL_COUNT, DetailKindUnknown(r.detail))
  }

  function DomainRefusal(r: Record): Verdict
    requires |r.operands| == 4
  {
    Else(When(r.domain >= DOMAIN_COUNT, DomainUnknown(r.domain)),
    Else(When(r.state >= DOMAIN_STATE_COUNT, DomainStateUnknown(r.state)),
         DetailRefusal(r)))
  }

  function ChangeRefusal(r: Record): Verdict {
    Else(When(r.change >= CHANGE_KIND_COUNT, ChangeKindUnknown(r.change)),
    Else(When(r.object_ >= OBJECT_KIND_COUNT, ObjectKindUnknown(r.object_)),
    Else(TextRefusal(r.key, Key, false),
    Else(When(r.field >= FIELD_COUNT, FieldUnknown(r.field)),
    Else(ValueRefusal(r.from, From),
         ValueRefusal(r.to, To))))))
  }

  /** What a record is refused for: the stamp before any field of the body. */
  function Refusal(r: Record): Verdict
    requires |r.operands| == 4
  {
    if r.stampKind > 1 then Some(StampKindUnknown(r.stampKind))
    else
      match r.kind
      case 0 => DomainRefusal(r)
      case 1 => ChangeRefusal(r)
      case 2 => When(r.outcome >= GENERATION_OUTCOME_COUNT, GenerationOutcomeUnknown(r.outcome))
      case 3 => When(r.reason >= REJECT_REASON_COUNT, RejectReasonUnknown(r.reason))
      case kind => Some(KindUnknown(kind))
  }

  // ------------------------------------------------------ the fields a record names

  /** `filler` with exactly what the value's kind reads copied over it. */
  function ValueOver(filler: Value, v: Value): Value
    requires |filler.octets| == |v.octets| == 6
  {
    var kept := filler.(kind := v.kind);
    match v.kind
    case 1 | 4 | 5 | 6 | 7 => kept.(number := v.number)
    case 2 => kept.(octets := v.octets[..4] + filler.octets[4..])
    case 3 => kept.(octets := v.octets)
    case 8 | 9 => kept.(id := v.id)
    case 10 => kept.(number := v.number, octets := v.octets[..4] + filler.octets[4..])
    case _ => kept
  }

  function Min(a: nat, b: nat): nat { if a < b then a else b }

  /** As many operands as a refusal's count names, and never more than two. */
  function OperandsOver(filler: seq<U64>, operands: seq<U64>, count: nat): (kept: seq<U64>)
    requires |filler| == |operands| == 4
    ensures |kept| == 4
  {
    operands[..Min(count, MAX_OPERANDS)] + filler[Min(count, MAX_OPERANDS)..]
  }

  function DetailOver(filler: Record, r: Record): Record
    requires |filler.operands| == |r.operands| == 4
  {
    if r.detail == DETAIL_FEATURES then filler.(features := r.features)
    else if r.detail == DETAIL_RECEIVE_POSTED then filler.(receivePosted := r.receivePosted)
    else if r.detail == DETAIL_ESTABLISHED then filler.(tscHz := r.tscHz, unixNanos := r.unixNanos)
    else if r.detail == DETAIL_RECEIVED then filler.(frames := r.frames, frameBytes := r.frameBytes)
    else if r.detail == DETAIL_MEDIUM then filler.(capacitySectors := r.capacitySectors, leadingWord := r.leadingWord)
    else if r.detail == DETAIL_REFUSAL then
      filler.(cause := r.cause, operandCount := r.operandCount, signalled := r.signalled,
              operands := OperandsOver(filler.operands, r.operands, r.operandCount))
    else if ReadsOperands(r.detail) then filler.(operands := r.operands)
    else filler
  }

  function BodyOver(filler: Record, r: Record): Record
    requires Sized(filler) && Sized(r)
  {
    match r.kind
    case 0 => DetailOver(filler.(domain := r.domain, state := r.state, detail := r.detail), r)
    case 1 =>
      filler.(generation := r.generation, sequence := r.sequence, change := r.change, object_ := r.object_,
              key := r.key, field := r.field, from := ValueOver(filler.from, r.from), to := ValueOver(filler.to, r.to))
    case 2 => filler.(generation := r.generation, outcome := r.outcome, changes := r.changes)
    case 3 => filler.(generation := r.generation, reason := r.reason, rejectOffset := r.rejectOffset)
    case _ => filler
  }

  /** `filler` with exactly the fields the record's kind names copied over it. The
      stamp belongs to every kind, and its nanoseconds only to a synchronized
      one. */
  function Over(filler: Record, r: Record): (kept: Record)
    requires Sized(filler) && Sized(r)
    ensures Sized(kept)
  {
    var stamped := filler.(kind := r.kind, stampKind := r.stampKind,
                           stampNanos := if r.stampKind == 1 then r.stampNanos else filler.stampNanos);
    BodyOver(stamped, r)
  }

  lemma ValueVerdictIsNamed(filler: Value, v: Value, which: Which)
    requires |filler.octets| == |v.octets| == 6
    ensures ValueRefusal(ValueOver(filler, v), which) == ValueRefusal(v, which)
  {
  }

  /** The verdict depends on the named fields alone: over any filler at all, the
      same verdict with the same payload. */
  lemma VerdictDependsOnNamedFields(filler: Record, r: Record)
    requires Sized(filler) && Sized(r)
    ensures Refusal(Over(filler, r)) == Refusal(r)
  {
    ValueVerdictIsNamed(filler.from, r.from, From);
    ValueVerdictIsNamed(filler.to, r.to, To);
  }

  lemma ValueOverTwice(filler: Value, other: Value, v: Value)
    requires |filler.octets| == |other.octets| == |v.octets| == 6
    ensures ValueOver(filler, ValueOver(other, v)) == ValueOver(filler, v)
  {
  }

  lemma OperandsOverTwice(filler: seq<U64>, other: seq<U64>, operands: seq<U64>, count: nat)
    requires |filler| == |other| == |operands| == 4
    ensures OperandsOver(filler, OperandsOver(other, operands, count), count) == OperandsOver(filler, operands, count)
  {
  }

  lemma DomainTwice(filler: Record, other: Record, r: Record)
    requires Sized(filler) && Sized(other) && Sized(r) && r.kind == 0
    ensures Over(filler, Over(other, r)) == Over(filler, r)
  {
    OperandsOverTwice(filler.operands, other.operands, r.operands, r.operandCount);
  }

  lemma ChangeTwice(filler: Record, other: Record, r: Record)
    requires Sized(filler) && Sized(other) && Sized(r) && r.kind == 1
    ensures Over(filler, Over(other, r)) == Over(filler, r)
  {
    ValueOverTwice(filler.from, other.from, r.from);
    ValueOverTwice(filler.to, other.to, r.to);
  }

  lemma OtherTwice(filler: Record, other: Record, r: Record)
    requires Sized(filler) && Sized(other) && Sized(r) && r.kind > 1
    ensures Over(filler, Over(other, r)) == Over(filler, r)
  {
  }

  /** What a record names is named by what was kept of it: projecting twice is
      projecting once. */
  lemma ProjectionIsIdempotent(filler: Record, other: Record, r: Record)
    requires Sized(filler) && Sized(other) && Sized(r)
    ensures Over(filler, Over(other, r)) == Over(filler, r)
  {
    if r.kind == 0 {
      DomainTwice(filler, other, r);
    } else if r.kind == 1 {
      ChangeTwice(filler, other, r);
    } else {
      OtherTwice(filler, other, r);
    }
  }

  /** So two records that name the same fields with the same values are refused
      alike, whatever else they hold. */
  lemma AgreeingRecordsAreJudgedAlike(filler: Record, a: Record, b: Record)
    requires Sized(filler) && Sized(a) && Sized(b) && Over(filler, a) == Over(filler, b)
    ensures Refusal(a) == Refusal(b)
  {
    VerdictDependsOnNamedFields(filler, a);
    VerdictDependsOnNamedFields(filler, b);
  }

  // --------------------------------------------- the same table, field by field

  datatype Part = Number | ValueKind | Octet(i: nat) | ValuePad | Id

  datatype Field =
    | Features | Operand(i: nat) | TscHz | UnixNanos | Frames | FrameBytes | CapacitySectors | LeadingWord | StampNanos
    | Kind | Generation | Sequence | Changes | RejectOffset | ReceivePosted
    | Domain | State | Detail | OperandCount | Signalled | Change | Object | ChangedField | Outcome | Reason
    | StampKind | Pad
    | CauseText | KeyText | FromPart(part: Part) | ToPart(part: Part)

  datatype Datum = Word(n: nat) | Words(ns: seq<nat>) | Whole(t: Text) | Missing

  function GetPart(v: Value, part: Part): Datum {
    match part
    case Number => Word(v.number)
    case ValueKind => Word(v.kind)
    case Octet(i) => if i < |v.octets| then Word(v.octets[i]) else Missing
    case ValuePad => Word(v.pad)
    case Id => Whole(v.id)
  }

  function Get(r: Record, f: Field): Datum {
    match f
    case Features => Word(r.features)
    case Operand(i) => if i < |r.operands| then Word(r.operands[i]) else Missing
    case TscHz => Word(r.tscHz)
    case UnixNanos => Word(r.unixNanos)
    case Frames => Word(r.frames)
    case FrameBytes => Word(r.frameBytes)
    case CapacitySectors => Word(r.capacitySectors)
    case LeadingWord => Word(r.leadingWord)
    case StampNanos => Word(r.stampNanos)
    case Kind => Word(r.kind)
    case Generation => Word(r.generation)
    case Sequence => Word(r.sequence)
    case Changes => Word(r.changes)
    case RejectOffset => Word(r.rejectOffset)
    case ReceivePosted => Word(r.receivePosted)
    case Domain => Word(r.domain)
    case State => Word(r.state)
    case Detail => Word(r.detail)
    case OperandCount => Word(r.operandCount)
    case Signalled => Word(r.signalled)
    case Change => Word(r.change)
    case Object => Word(r.object_)
    case ChangedField => Word(r.field)
    case Outcome => Word(r.outcome)
    case Reason => Word(r.reason)
    case StampKind => Word(r.stampKind)
    case Pad => Words(r.pad)
    case CauseText => Whole(r.cause)
    case KeyText => Whole(r.key)
    case FromPart(part) => GetPart(r.from, part)
    case ToPart(part) => GetPart(r.to, part)
  }

  predicate NamesPart(v: Value, part: Part) {
    match part
    case Number => v.kind == 1 || 4 <= v.kind <= 7 || v.kind == 10
    case ValueKind => true
    case Octet(i) => v.kind == 3 || (i < 4 && (v.kind == 2 || v.kind == 10))
    case ValuePad => false
    case Id => v.kind == 8 || v.kind == 9
  }

  /** Which records name a field. */
  predicate Names(r: Record, f: Field) {
    match f
    case Features => r.kind == 0 && r.detail == DETAIL_FEATURES
    case Operand(i) =>
      r.kind == 0 &&
      (ReadsOperands(r.detail) || (r.detail == DETAIL_REFUSAL && i < Min(r.operandCount, MAX_OPERANDS)))
    case TscHz => r.kind == 0 && r.detail == DETAIL_ESTABLISHED
    case UnixNanos => r.kind == 0 && r.detail == DETAIL_ESTABLISHED
    case Frames => r.kind == 0 && r.detail == DETAIL_RECEIVED
    case FrameBytes => r.kind == 0 && r.detail == DETAIL_RECEIVED
    case CapacitySectors => r.kind == 0 && r.detail == DETAIL_MEDIUM
    case LeadingWord => r.kind == 0 && r.detail == DETAIL_MEDIUM
    case StampNanos => r.stampKind == 1
    case Kind => true
    case Generation => 1 <= r.kind <= 3
    case Sequence => r.kind == 1
    case Changes => r.kind == 2
    case RejectOffset => r.kind == 3
    case ReceivePosted => r.kind == 0 && r.detail == DETAIL_RECEIVE_POSTED
    case Domain => r.kind == 0
    case State => r.kind == 0
    case Detail => r.kind == 0
    case OperandCount => r.kind == 0 && r.detail == DETAIL_REFUSAL
    case Signalled => r.kind == 0 && r.detail == DETAIL_REFUSAL
    case Change => r.kind == 1
    case Object => r.kind == 1
    case ChangedField => r.kind == 1
    case Outcome => r.kind == 2
    case Reason => r.kind == 3
    case StampKind => true
    case Pad => false
    case CauseText => r.kind == 0 && r.detail == DETAIL_REFUSAL
    case KeyText => r.kind == 1
    case FromPart(part) => r.kind == 1 && NamesPart(r.from, part)
    case ToPart(part) => r.kind == 1 && NamesPart(r.to, part)
  }

  lemma PartsAreTheNamedOnes(filler: Value, v: Value, part: Part)
    requires |filler.octets| == |v.octets| == 6
    ensures GetPart(ValueOver(filler, v), part) == GetPart(if NamesPart(v, part) then v else filler, part)
  {
  }

  lemma OperandsKept(filler: Record, r: Record, i: nat)
    requires Sized(filler) && Sized(r) && r.kind == 0
    ensures Get(Over(filler, r), Operand(i)) == Get(if Names(r, Operand(i)) then r else filler, Operand(i))
  {
  }

  lemma RefusalDetailKeeps(filler: Record, r: Record, f: Field)
    requires Sized(filler) && Sized(r) && r.kind == 0 && r.detail == DETAIL_REFUSAL && !f.Operand?
    ensures Get(Over(filler, r), f) == Get(if Names(r, f) then r else filler, f)
  {
  }

  lemma OperandDetailKeeps(filler: Record, r: Record, f: Field)
    requires Sized(filler) && Sized(r) && r.kind == 0 && ReadsOperands(r.detail) && !f.Operand?
    ensures Get(Over(filler, r), f) == Get(if Names(r, f) then r else filler, f)
  {
  }

  lemma OtherDetailKeeps(filler: Record, r: Record, f: Field)
    requires Sized(filler) && Sized(r) && r.kind == 0 && !f.Operand?
    requires r.detail != DETAIL_REFUSAL && !ReadsOperands(r.detail)
    ensures Get(Over(filler, r), f) == Get(if Names(r, f) then r else filler, f)
  {
  }

  lemma DomainRecordKeeps(filler: Record, r: Record, f: Field)
    requires Sized(filler) && Sized(r) && r.kind == 0
    ensures Get(Over(filler, r), f) == Get(if Names(r, f) then r else filler, f)
  {
    if f.Operand? {
      OperandsKept(filler, r, f.i);
    } else if r.detail == DETAIL_REFUSAL {
      RefusalDetailKeeps(filler, r, f);
    } else if ReadsOperands(r.detail) {
      OperandDetailKeeps(filler, r, f);
    } else {
      OtherDetailKeeps(filler, r, f);
    }
  }

  lemma ChangeRecordKeeps(filler: Record, r: Record, f: Field)
    requires Sized(filler) && Sized(r) && r.kind == 1
    ensures Get(Over(filler, r), f) == Get(if Names(r, f) then r else filler, f)
  {
    if f.FromPart? { PartsAreTheNamedOnes(filler.from, r.from, f.part); }
    if f.ToPart? { PartsAreTheNamedOnes(filler.to, r.to, f.part); }
  }

  lemma OtherRecordKeeps(filler: Record, r: Record, f: Field)
    requires Sized(filler) && Sized(r) && r.kind > 1
    ensures Get(Over(filler, r), f) == Get(if Names(r, f) then r else filler, f)
  {
  }

  /** The projection keeps exactly the fields the record names: every other one is
      the filler's. */
  lemma ProjectionKeepsExactlyTheNamed(filler: Record, r: Record, f: Field)
    requires Sized(filler) && Sized(r)
    ensures Get(Over(filler, r), f) == Get(if Names(r, f) then r else filler, f)
  {
    if r.kind == 0 {
      DomainRecordKeeps(filler, r, f);
    } else if r.kind == 1 {
      ChangeRecordKeeps(filler, r, f);
    } else {
      OtherRecordKeeps(filler, r, f);
    }
  }

  // ------------------------------------------------------------ as it is written

  function PoisonText(n: nat): Text { Text(seq(n, _ => 0x1B), 0xff, [0xAA, 0xAA, 0xAA]) }

  function PoisonValue(): Value {
    Value(0xAAAA_AAAA, 0xAA, [0xAA, 0xAA, 0xAA, 0xAA, 0xAA, 0xAA], 0xAA, PoisonText(IDENTIFIER_BYTES))
  }

  /** Every field holding something a rule says no to, where one can. */
  function Poison(): (r: Record)
    ensures Sized(r)
  {
    var quad: U64, word: U32, byte: U8 := 0xAAAA_AAAA_AAAA_AAAA, 0xAAAA_AAAA, 0xAA;
    Record(quad, [quad, quad, quad, quad], 0, quad, quad, quad, quad, quad, quad,
           word, word, word, word, word, word,
           byte, byte, byte, byte, byte, byte, byte, byte, byte, byte, byte, [byte, byte, byte, byte, byte],
           PoisonText(CAUSE_BYTES), PoisonText(IDENTIFIER_BYTES), PoisonValue(), PoisonValue())
  }

  method KeepOnlyNamedValueFields(v: Value) returns (kept: Value)
    requires SizedValue(v)
    ensures kept == ValueOver(PoisonValue(), v)
  {
    kept := PoisonValue();
    kept := kept.(kind := v.kind);
    match v.kind {
      case 1 | 4 | 5 | 6 | 7 => kept := kept.(number := v.number);
      case 2 => kept := kept.(octets := v.octets[..4] + kept.octets[4..]);
      case 3 => kept := kept.(octets := v.octets);
      case 8 | 9 => kept := kept.(id := v.id);
      case 10 =>
        kept := kept.(number := v.number);
        kept := kept.(octets := v.octets[..4] + kept.octets[4..]);
      case _ =>
    }
  }

  method KeepOnlyNamedDetail(start: Record, r: Record) returns (kept: Record)
    requires |start.operands| == |r.operands| == 4
    ensures kept == DetailOver(start, r)
  {
    kept := start;
    if r.detail == DETAIL_FEATURES {
      kept := kept.(features := r.features);
    } else if r.detail == DETAIL_RECEIVE_POSTED {
      kept := kept.(receivePosted := r.receivePosted);
    } else if r.detail == DETAIL_ESTABLISHED {
      kept := kept.(tscHz := r.tscHz);
      kept := kept.(unixNanos := r.unixNanos);
    } else if r.detail == DETAIL_RECEIVED {
      kept := kept.(frames := r.frames);
      kept := kept.(frameBytes := r.frameBytes);
    } else if r.detail == DETAIL_MEDIUM {
      kept := kept.(capacitySectors := r.capacitySectors);
      kept := kept.(leadingWord := r.leadingWord);
    } else if r.detail == DETAIL_REFUSAL {
      kept := kept.(cause := r.cause);
      kept := kept.(operandCount := r.operandCount);
      kept := kept.(signalled := r.signalled);
      var operands := CopyOperands(kept.operands, r.operands, Min(r.operandCount, MAX_OPERANDS));
      kept := kept.(operands := operands);
    } else if ReadsOperands(r.detail) {
      kept := kept.(operands := r.operands);
    }
  }

  method CopyOperands(start: seq<U64>, operands: seq<U64>, count: nat) returns (kept: seq<U64>)
    requires |start| == |operands| == 4 && count <= MAX_OPERANDS
    ensures kept == OperandsOver(start, operands, count)
  {
    kept := start;
    var index := 0;
    while index < count
      invariant index <= count && kept == operands[..index] + start[index..]
    {
      kept := kept[index := operands[index]];
      index := index + 1;
    }
  }

  /** The projection as it is written: poison, with the named fields copied back
      one by one. */
  method KeepOnlyNamedFields(r: Record) returns (kept: Record)
    requires Sized(r)
    ensures kept == Over(Poison(), r)
  {
    kept := Poison();
    kept := kept.(kind := r.kind);
    kept := kept.(stampKind := r.stampKind);
    if r.stampKind == 1 {
      kept := kept.(stampNanos := r.stampNanos);
    }
    match r.kind {
      case 0 =>
        kept := kept.(domain := r.domain, state := r.state, detail := r.detail);
        kept := KeepOnlyNamedDetail(kept, r);
      case 1 =>
        kept := kept.(generation := r.generation, sequence := r.sequence, change := r.change);
        kept := kept.(object_ := r.object_, key := r.key, field := r.field);
        var from := KeepOnlyNamedValueFields(r.from);
        var to := KeepOnlyNamedValueFields(r.to);
        kept := kept.(from := from, to := to);
      case 2 => kept := kept.(generation := r.generation, outcome := r.outcome, changes := r.changes);
      case 3 => kept := kept.(generation := r.generation, reason := r.reason, rejectOffset := r.rejectOffset);
      case _ =>
    }
  }
}
