/**
 The log record as the 264 bytes it occupies: every field laid out in declared
 order, little-endian, one location at a time, and read back from a region that
 may be cut short.
 */
module LogCodec {
  import opened LogRecord
  import S = LogSlot
  import Modular

  // -------------------------------------------------- a record as its locations

  function FlatText(t: Text): seq<nat> { t.bytes + [t.len] + t.pad }

  function FlatValue(v: Value): seq<nat> { [v.number, v.kind] + v.octets + [v.pad] + FlatText(v.id) }

  function FlatHead(r: Record): seq<nat> {
    [r.features] + r.operands
    + [r.tscHz, r.unixNanos, r.frames, r.frameBytes, r.capacitySectors, r.leadingWord, r.stampNanos]
    + [r.kind, r.generation, r.sequence, r.changes, r.rejectOffset, r.receivePosted]
    + [r.domain, r.state, r.detail, r.operandCount, r.signalled, r.change, r.object_, r.field, r.outcome, r.reason,
       r.stampKind]
    + r.pad
  }

  /** The 156 values of a record, in the order its fields are declared. */
  function Flat(r: Record): (values: seq<nat>)
    requires Sized(r)
    ensures |values| == S.LOCATION_COUNT
  {
    FlatHead(r) + FlatText(r.cause) + FlatText(r.key) + FlatValue(r.from) + FlatValue(r.to)
  }

  predicate Bytes(values: seq<nat>) { forall i :: 0 <= i < |values| ==> values[i] <= U8_MAX }

  function Octets(values: seq<nat>): (bytes: seq<U8>)
    requires Bytes(values)
    ensures |bytes| == |values| && forall i :: 0 <= i < |bytes| ==> bytes[i] == values[i]
  {
    seq(|values|, i requires 0 <= i < |values| && Bytes(values) => values[i])
  }

  /** Every value fits its location's width. */
  predicate Fits(values: seq<nat>) {
    && |values| == S.LOCATION_COUNT
    && forall l :: 0 <= l < |values| ==> values[l] <= Limit(l)
  }

  function Limit(l: nat): nat {
    match S.Place(l).width case One => U8_MAX case Four => U32_MAX case Eight => 0xffff_ffff_ffff_ffff
  }

  lemma FlatParts(r: Record)
    requires Sized(r)
    ensures var v := Flat(r);
            && v[..34] == FlatHead(r) && v[34..78] == FlatText(r.cause) && v[78..98] == FlatText(r.key)
            && v[98..127] == FlatValue(r.from) && v[127..] == FlatValue(r.to)
  {
  }

  lemma HeadFits(r: Record)
    requires Sized(r)
    ensures |FlatHead(r)| == 34 && forall i :: 0 <= i < 34 ==> FlatHead(r)[i] <= Limit(i)
  {
  }

  lemma FlatFits(r: Record)
    requires Sized(r)
    ensures Fits(Flat(r))
  {
    FlatParts(r);
    HeadFits(r);
    var v := Flat(r);
    forall l | 0 <= l < S.LOCATION_COUNT ensures v[l] <= Limit(l) {
      if l < 34 {
        assert v[l] == v[..34][l];
      } else if l < 78 {
        assert v[l] == v[34..78][l - 34];
      } else if l < 98 {
        assert v[l] == v[78..98][l - 78];
      } else if l < 127 {
        assert v[l] == v[98..127][l - 98];
      } else {
        assert v[l] == v[127..][l - 127];
      }
    }
  }

  predicate ByteRun(at: nat, n: nat) {
    (18 <= at && at + n <= 98) || (99 <= at && at + n <= 127) || (128 <= at && at + n <= S.LOCATION_COUNT)
  }

  function BytesAt(values: seq<nat>, at: nat, n: nat): (bytes: seq<U8>)
    requires Fits(values) && ByteRun(at, n)
    ensures |bytes| == n && forall i :: 0 <= i < n ==> bytes[i] == values[at + i]
  {
    var run := values[at..at + n];
    assert Bytes(run) by {
      forall i | 0 <= i < n ensures run[i] <= U8_MAX { assert values[at + i] <= Limit(at + i); }
    }
    Octets(run)
  }

  function ByteAt(values: seq<nat>, at: nat): U8
    requires Fits(values) && ByteRun(at, 1)
  {
    assert values[at] <= Limit(at);
    values[at]
  }

  function WordAt(values: seq<nat>, at: nat): U32
    requires Fits(values) && (12 <= at < 18 || at == 98 || at == 127)
  {
    assert values[at] <= Limit(at);
    values[at]
  }

  function QuadAt(values: seq<nat>, at: nat): U64
    requires Fits(values) && at < 12
  {
    assert values[at] <= Limit(at);
    values[at]
  }

  function TextAt(values: seq<nat>, at: nat, n: nat): Text
    requires Fits(values) && ByteRun(at, n + 4)
  {
    Text(BytesAt(values, at, n), ByteAt(values, at + n), BytesAt(values, at + n + 1, 3))
  }

  function ValueAt(values: seq<nat>, at: nat): Value
    requires Fits(values) && (at == 98 || at == 127)
  {
    Value(WordAt(values, at), ByteAt(values, at + 1), BytesAt(values, at + 2, 6), ByteAt(values, at + 8),
          TextAt(values, at + 9, 16))
  }

  /** The record whose locations hold the values. */
  function Unflat(v: seq<nat>): (r: Record)
    requires Fits(v)
    ensures Sized(r)
  {
    Record(QuadAt(v, 0), [QuadAt(v, 1), QuadAt(v, 2), QuadAt(v, 3), QuadAt(v, 4)],
           QuadAt(v, 5), QuadAt(v, 6), QuadAt(v, 7), QuadAt(v, 8), QuadAt(v, 9), QuadAt(v, 10), QuadAt(v, 11),
           WordAt(v, 12), WordAt(v, 13), WordAt(v, 14), WordAt(v, 15), WordAt(v, 16), WordAt(v, 17),
           ByteAt(v, 18), ByteAt(v, 19), ByteAt(v, 20), ByteAt(v, 21), ByteAt(v, 22), ByteAt(v, 23), ByteAt(v, 24),
           ByteAt(v, 25), ByteAt(v, 26), ByteAt(v, 27), ByteAt(v, 28), BytesAt(v, 29, 5),
           TextAt(v, 34, CAUSE_BYTES), TextAt(v, 78, IDENTIFIER_BYTES), ValueAt(v, 98), ValueAt(v, 127))
  }

  lemma TextComesBack(values: seq<nat>, at: nat, n: nat, t: Text)
    requires Fits(values) && ByteRun(at, n + 4) && SizedText(t, n)
    requires values[at..at + n + 4] == FlatText(t)
    ensures TextAt(values, at, n) == t
  {
    var flat := FlatText(t);
    assert forall i :: 0 <= i < n + 4 ==> values[at + i] == flat[i];
    assert BytesAt(values, at, n) == t.bytes;
    assert values[at + n] == flat[n] == t.len;
    forall i | 0 <= i < 3 ensures BytesAt(values, at + n + 1, 3)[i] == t.pad[i] {
      assert values[at + n + 1 + i] == flat[n + 1 + i];
    }
    assert BytesAt(values, at + n + 1, 3) == t.pad;
  }

  lemma ValueComesBack(values: seq<nat>, at: nat, v: Value)
    requires Fits(values) && (at == 98 || at == 127) && SizedValue(v) && values[at..at + 29] == FlatValue(v)
    ensures ValueAt(values, at) == v
  {
    var flat := FlatValue(v);
    assert forall i :: 0 <= i < 29 ==> values[at + i] == flat[i];
    assert values[at] == flat[0] && values[at + 1] == flat[1] && values[at + 8] == flat[8];
    assert flat[9..] == FlatText(v.id);
    assert values[at + 9..at + 29] == values[at..at + 29][9..];
    TextComesBack(values, at + 9, IDENTIFIER_BYTES, v.id);
    forall i | 0 <= i < 6 ensures BytesAt(values, at + 2, 6)[i] == v.octets[i] {
      assert values[at + 2 + i] == flat[2 + i];
    }
    assert BytesAt(values, at + 2, 6) == v.octets;
  }

  function Scalars(r: Record): seq<nat> {
    [r.features, r.tscHz, r.unixNanos, r.frames, r.frameBytes, r.capacitySectors, r.leadingWord, r.stampNanos,
     r.kind, r.generation, r.sequence, r.changes, r.rejectOffset, r.receivePosted,
     r.domain, r.state, r.detail, r.operandCount, r.signalled, r.change, r.object_, r.field, r.outcome, r.reason,
     r.stampKind]
  }

  lemma HeadRuns(r: Record)
    requires Sized(r)
    ensures |FlatHead(r)| == 34 && FlatHead(r)[1..5] == r.operands && FlatHead(r)[29..] == r.pad
  {
  }

  lemma HeadScalars(r: Record)
    requires Sized(r)
    ensures |FlatHead(r)| == 34 && [FlatHead(r)[0]] + FlatHead(r)[5..29] == Scalars(r)
  {
  }

  lemma HeadWords(r: Record, v: seq<nat>, h: seq<nat>)
    requires Sized(r) && |v| >= 34 && h == FlatHead(r) && v[..34] == h
    ensures v[1..5] == r.operands && v[29..34] == r.pad && [v[0]] + v[5..29] == Scalars(r)
  {
    HeadRuns(r);
    HeadScalars(r);
    assert v[1..5] == v[..34][1..5] && v[29..34] == v[..34][29..] && v[5..29] == v[..34][5..29];
  }

  lemma HeadComesBack(r: Record, v: seq<nat>)
    requires Sized(r) && Fits(v) && v[..34] == FlatHead(r)
    ensures Unflat(v).(cause := r.cause, key := r.key, from := r.from, to := r.to) == r
  {
    HeadWords(r, v, FlatHead(r));
    var scalars := [v[0]] + v[5..29];
    assert v[0] == scalars[0] && forall i :: 5 <= i < 29 ==> v[i] == scalars[i - 4];
    assert BytesAt(v, 29, 5) == v[29..34];
    assert [QuadAt(v, 1), QuadAt(v, 2), QuadAt(v, 3), QuadAt(v, 4)] == v[1..5];
  }

  /** Reading a record's own locations gives the record. */
  lemma UnflatFlat(r: Record)
    requires Sized(r)
    ensures Fits(Flat(r)) && Unflat(Flat(r)) == r
  {
    FlatFits(r);
    FlatParts(r);
    var v := Flat(r);
    HeadComesBack(r, v);
    TextComesBack(v, 34, CAUSE_BYTES, r.cause);
    TextComesBack(v, 78, IDENTIFIER_BYTES, r.key);
    ValueComesBack(v, 98, r.from);
    assert v[127..] == v[127..127 + 29];
    ValueComesBack(v, 127, r.to);
  }

  lemma TextGoesOut(v: seq<nat>, at: nat, n: nat)
    requires Fits(v) && ByteRun(at, n + 4)
    ensures FlatText(TextAt(v, at, n)) == v[at..at + n + 4]
  {
  }

  lemma ValueGoesOut(v: seq<nat>, at: nat)
    requires Fits(v) && (at == 98 || at == 127)
    ensures FlatValue(ValueAt(v, at)) == v[at..at + 29]
  {
    TextGoesOut(v, at + 9, IDENTIFIER_BYTES);
    assert v[at + 9..at + 29] == v[at..at + 29][9..];
  }

  lemma HeadGoesOut(v: seq<nat>)
    requires Fits(v)
    ensures FlatHead(Unflat(v)) == v[..34]
  {
  }

  /** And writing what was read gives back the locations. */
  lemma FlatUnflat(v: seq<nat>)
    requires Fits(v)
    ensures Flat(Unflat(v)) == v
  {
    HeadGoesOut(v);
    TextGoesOut(v, 34, CAUSE_BYTES);
    TextGoesOut(v, 78, IDENTIFIER_BYTES);
    ValueGoesOut(v, 98);
    ValueGoesOut(v, 127);
    assert v == v[..34] + v[34..78] + v[78..98] + v[98..127] + v[127..156];
  }

  // ------------------------------------------------------------ locations as bytes

  function Size(l: nat): nat { S.Size(S.Place(l).width) }

  function ByteOf(values: seq<nat>, k: nat): S.Octet
    requires |values| == S.LOCATION_COUNT && k < S.RECORD_BYTES
  {
    var l := S.OwnerOf(k);
    S.LocationsPartition(k, l);
    S.Encode(values[l], Size(l))[k - S.Place(l).offset]
  }

  /** The region that holds the values, location by location. */
  function RegionOf(values: seq<nat>): (b: S.Slot)
    requires |values| == S.LOCATION_COUNT
  {
    seq(S.RECORD_BYTES, k requires 0 <= k < S.RECORD_BYTES && |values| == S.LOCATION_COUNT => ByteOf(values, k))
  }

  function LoadAll(b: S.Slot): (values: seq<nat>)
    ensures |values| == S.LOCATION_COUNT && forall l :: 0 <= l < |values| ==> values[l] == S.LoadAt(b, l)
  {
    seq(S.LOCATION_COUNT, l requires 0 <= l < S.LOCATION_COUNT => S.LoadAt(b, l))
  }

  lemma RegionHolds(values: seq<nat>, l: nat)
    requires |values| == S.LOCATION_COUNT && l < S.LOCATION_COUNT
    ensures S.At(RegionOf(values), l) == S.Encode(values[l], Size(l))
  {
    S.LocationsAreAligned(l);
    var from, bytes := S.Place(l).offset, S.At(RegionOf(values), l);
    forall i | 0 <= i < Size(l) ensures bytes[i] == S.Encode(values[l], Size(l))[i] {
      S.LocationsPartition(from + i, l);
      assert RegionOf(values)[from + i] == ByteOf(values, from + i);
    }
  }

  lemma {:induction false} DecodeIsBounded(bytes: seq<S.Octet>)
    ensures S.Decode(bytes) < S.Power(|bytes|)
  {
    if bytes != [] { DecodeIsBounded(bytes[1..]); }
  }

  lemma LimitIsPower(l: nat)
    ensures Limit(l) + 1 == S.Power(Size(l))
  {
    assert S.Power(1) == 0x100 && S.Power(4) == 0x1_0000_0000;
    assert S.Power(8) == 0x1_0000_0000_0000_0000;
  }

  lemma LoadFits(b: S.Slot)
    ensures Fits(LoadAll(b))
  {
    forall l | 0 <= l < S.LOCATION_COUNT ensures LoadAll(b)[l] <= Limit(l) {
      DecodeIsBounded(S.At(b, l));
      LimitIsPower(l);
    }
  }

  lemma LoadsComeBack(values: seq<nat>)
    requires Fits(values)
    ensures LoadAll(RegionOf(values)) == values
  {
    forall l | 0 <= l < S.LOCATION_COUNT ensures LoadAll(RegionOf(values))[l] == values[l] {
      RegionHolds(values, l);
      S.DecodeTruncates(values[l], Size(l));
      LimitIsPower(l);
      Modular.Small(values[l], S.Power(Size(l)));
    }
  }

  lemma BytesComeBack(b: S.Slot)
    ensures RegionOf(LoadAll(b)) == b
  {
    forall l | 0 <= l < S.LOCATION_COUNT ensures S.At(RegionOf(LoadAll(b)), l) == S.At(b, l) {
      RegionHolds(LoadAll(b), l);
      S.EncodeDecodes(S.At(b, l));
    }
    S.LocationsDecide(RegionOf(LoadAll(b)), b);
  }

  // --------------------------------------------------------------- the round trips

  /** Zero where the input is spent, and nothing past a record. */
  function Padded(data: seq<S.Octet>): (b: S.Slot)
    ensures forall k :: 0 <= k < S.RECORD_BYTES ==> b[k] == if k < |data| then data[k] else 0
  {
    seq(S.RECORD_BYTES, k requires 0 <= k < S.RECORD_BYTES => if k < |data| then data[k] else 0)
  }

  function RecordFromRegion(data: seq<S.Octet>): Record {
    LoadFits(Padded(data));
    Unflat(LoadAll(Padded(data)))
  }

  function RegionFromRecord(r: Record): S.Slot
    requires Sized(r)
  {
    RegionOf(Flat(r))
  }

  lemma WholeIsItsOwnPadding(b: S.Slot)
    ensures Padded(b) == b
  {
  }

  /** Writing a record and reading it back is the identity. */
  lemma RecordRoundTrips(r: Record)
    requires Sized(r)
    ensures RecordFromRegion(RegionFromRecord(r)) == r
  {
    UnflatFlat(r);
    LoadsComeBack(Flat(r));
    WholeIsItsOwnPadding(RegionFromRecord(r));
  }

  /** And so is reading a region and writing it back. */
  lemma RegionRoundTrips(b: S.Slot)
    ensures RegionFromRecord(RecordFromRegion(b)) == b
  {
    LoadFits(b);
    WholeIsItsOwnPadding(b);
    FlatUnflat(LoadAll(b));
    BytesComeBack(b);
  }

  /** A region cut short reads as one padded with zeros. */
  lemma ShortRegionIsZeroPadded(data: seq<S.Octet>, n: nat)
    ensures RecordFromRegion(data) == RecordFromRegion(data + seq(n, _ => 0))
    ensures RecordFromRegion(data) == RecordFromRegion(Padded(data))
  {
    assert Padded(data) == Padded(data + seq(n, _ => 0));
    assert Padded(Padded(data)) == Padded(data);
  }

  // ------------------------------------------------------------ where a field lies

  function PartOffset(part: Part): nat {
    match part case Number => 0 case ValueKind => 4 case Octet(i) => 5 + i case ValuePad => 11 case Id => 12
  }

  /** The byte offset the layout gives each field. */
  function OffsetOf(f: Field): nat {
    match f
    case Features => 0 case Operand(i) => 8 + 8 * i case TscHz => 40 case UnixNanos => 48
    case Frames => 56 case FrameBytes => 64 case CapacitySectors => 72 case LeadingWord => 80 case StampNanos => 88
    case Kind => 96 case Generation => 100 case Sequence => 104 case Changes => 108 case RejectOffset => 112
    case ReceivePosted => 116 case Domain => 120 case State => 121 case Detail => 122 case OperandCount => 123
    case Signalled => 124 case Change => 125 case Object => 126 case ChangedField => 127 case Outcome => 128
    case Reason => 129 case StampKind => 130 case Pad => 131 case CauseText => 136 case KeyText => 180
    case FromPart(part) => 200 + PartOffset(part)
    case ToPart(part) => 232 + PartOffset(part)
  }

  predicate ScalarPart(part: Part) { !part.Id? && (part.Octet? ==> part.i < 6) }

  /** A field stored as one location. */
  predicate Scalar(f: Field) {
    match f
    case Operand(i) => i < 4
    case Pad => false case CauseText => false case KeyText => false
    case FromPart(part) => ScalarPart(part)
    case ToPart(part) => ScalarPart(part)
    case _ => true
  }

  lemma OffsetsAreLocations(f: Field)
    requires Scalar(f)
    ensures S.OwnerOf(OffsetOf(f)) < S.LOCATION_COUNT && S.Place(S.OwnerOf(OffsetOf(f))).offset == OffsetOf(f)
  {
  }

  function PartIndex(part: Part): nat {
    match part case Number => 0 case ValueKind => 1 case Octet(i) => 2 + i case _ => 8
  }

  lemma PartIsHeld(v: Value, part: Part)
    requires SizedValue(v) && ScalarPart(part)
    ensures PartIndex(part) < 29 == |FlatValue(v)| && Word(FlatValue(v)[PartIndex(part)]) == GetPart(v, part)
  {
  }

  lemma QuadIsHeld(r: Record, f: Field)
    requires Sized(r) && Scalar(f) && OffsetOf(f) < 96
    ensures S.OwnerOf(OffsetOf(f)) < 34 == |FlatHead(r)| && Word(FlatHead(r)[S.OwnerOf(OffsetOf(f))]) == Get(r, f)
  {
  }

  lemma WordIsHeld(r: Record, f: Field)
    requires Sized(r) && Scalar(f) && 96 <= OffsetOf(f) < 120
    ensures S.OwnerOf(OffsetOf(f)) < 34 == |FlatHead(r)| && Word(FlatHead(r)[S.OwnerOf(OffsetOf(f))]) == Get(r, f)
  {
  }

  lemma ByteIsHeld(r: Record, f: Field)
    requires Sized(r) && Scalar(f) && 120 <= OffsetOf(f) < 136
    ensures S.OwnerOf(OffsetOf(f)) < 34 == |FlatHead(r)| && Word(FlatHead(r)[S.OwnerOf(OffsetOf(f))]) == Get(r, f)
  {
  }

  lemma HeadIsHeld(r: Record, f: Field)
    requires Sized(r) && Scalar(f) && !f.FromPart? && !f.ToPart?
    ensures S.OwnerOf(OffsetOf(f)) < 34 == |FlatHead(r)| && Word(FlatHead(r)[S.OwnerOf(OffsetOf(f))]) == Get(r, f)
  {
    if OffsetOf(f) < 96 {
      QuadIsHeld(r, f);
    } else if OffsetOf(f) < 120 {
      WordIsHeld(r, f);
    } else {
      ByteIsHeld(r, f);
    }
  }

  lemma FieldIsHeld(r: Record, f: Field)
    requires Sized(r) && Scalar(f)
    ensures S.OwnerOf(OffsetOf(f)) < S.LOCATION_COUNT && Word(Flat(r)[S.OwnerOf(OffsetOf(f))]) == Get(r, f)
  {
    FlatParts(r);
    var v := Flat(r);
    if f.FromPart? {
      PartIsHeld(r.from, f.part);
      assert v[98..127][PartIndex(f.part)] == v[98 + PartIndex(f.part)];
    } else if f.ToPart? {
      PartIsHeld(r.to, f.part);
      assert v[127..][PartIndex(f.part)] == v[127 + PartIndex(f.part)];
    } else {
      HeadIsHeld(r, f);
      assert v[..34][S.OwnerOf(OffsetOf(f))] == v[S.OwnerOf(OffsetOf(f))];
    }
  }

  lemma LocationHolds(r: Record, l: nat)
    requires Sized(r) && l < S.LOCATION_COUNT
    ensures S.LoadAt(RegionFromRecord(r), l) == Flat(r)[l]
  {
    FlatFits(r);
    LoadsComeBack(Flat(r));
    assert LoadAll(RegionFromRecord(r))[l] == Flat(r)[l];
  }

  /** Every scalar field of a written record lies at its offset. */
  lemma FieldsLieAtTheirOffsets(r: Record, f: Field)
    requires Sized(r) && Scalar(f)
    ensures var l := S.OwnerOf(OffsetOf(f));
            && l < S.LOCATION_COUNT && S.Place(l).offset == OffsetOf(f)
            && Word(S.LoadAt(RegionFromRecord(r), l)) == Get(r, f)
  {
    OffsetsAreLocations(f);
    FieldIsHeld(r, f);
    LocationHolds(r, S.OwnerOf(OffsetOf(f)));
  }

  predicate HoldsAt(r: Record, l: nat, offset: nat, value: nat)
    requires Sized(r)
  {
    l < S.LOCATION_COUNT && S.Place(l) == S.Span(offset, S.One) && S.LoadAt(RegionFromRecord(r), l) == value
  }

  /** And every text byte by byte: its storage, then its length, then its pad. */
  lemma CauseAndKeyLieAtTheirOffsets(r: Record, i: nat)
    requires Sized(r)
    ensures i < 44 ==> HoldsAt(r, 34 + i, OffsetOf(CauseText) + i, FlatText(r.cause)[i])
    ensures i < 20 ==> HoldsAt(r, 78 + i, OffsetOf(KeyText) + i, FlatText(r.key)[i])
  {
    FlatParts(r);
    var v := Flat(r);
    if i < 44 {
      LocationHolds(r, 34 + i);
      assert v[34..78][i] == v[34 + i];
    }
    if i < 20 {
      LocationHolds(r, 78 + i);
      assert v[78..98][i] == v[78 + i];
    }
  }

  lemma IdsLieAtTheirOffsets(r: Record, i: nat)
    requires Sized(r) && i < 20
    ensures HoldsAt(r, 107 + i, OffsetOf(FromPart(Id)) + i, FlatText(r.from.id)[i])
    ensures HoldsAt(r, 136 + i, OffsetOf(ToPart(Id)) + i, FlatText(r.to.id)[i])
  {
    FlatParts(r);
    var v := Flat(r);
    LocationHolds(r, 107 + i);
    LocationHolds(r, 136 + i);
    IdIsHeld(r.from, i);
    IdIsHeld(r.to, i);
    assert v[98..127][9 + i] == v[107 + i] && v[127..][9 + i] == v[136 + i];
  }

  lemma IdIsHeld(v: Value, i: nat)
    requires SizedValue(v) && i < 20
    ensures |FlatValue(v)| == 29 && FlatValue(v)[9 + i] == FlatText(v.id)[i]
  {
  }

  // -------------------------------------------------------------------- the cursor

  /** Each location starts where the one before it ends, and the last ends the
      record. */
  lemma LocationsRun(l: nat)
    requires l < S.LOCATION_COUNT
    ensures S.Place(0).offset == 0
    ensures S.Place(l).offset + Size(l) == if l + 1 < S.LOCATION_COUNT then S.Place(l + 1).offset else S.RECORD_BYTES
  {
  }

  function Taken(data: seq<S.Octet>, at: nat, n: nat): (bytes: seq<S.Octet>)
    ensures |bytes| == n && forall i :: 0 <= i < n ==> bytes[i] == if at + i < |data| then data[at + i] else 0
  {
    seq(n, i requires 0 <= i < n => if at + i < |data| then data[at + i] else 0)
  }

  /** The reader as it is written: one location after another off a cursor. */
  method ReadRecord(data: seq<S.Octet>) returns (r: Record)
    ensures r == RecordFromRegion(data)
  {
    var values: seq<nat>, at, l := [], 0, 0;
    ghost var whole := LoadAll(Padded(data));
    while l < S.LOCATION_COUNT
      invariant l <= S.LOCATION_COUNT && values == whole[..l]
      invariant at == if l < S.LOCATION_COUNT then S.Place(l).offset else S.RECORD_BYTES
    {
      LocationsRun(l);
      S.LocationsAreAligned(l);
      assert Taken(data, at, Size(l)) == S.At(Padded(data), l);
      values := values + [S.Decode(Taken(data, at, Size(l)))];
      at := at + Size(l);
      l := l + 1;
    }
    assert values == whole;
    LoadFits(Padded(data));
    r := Unflat(values);
  }

  /** The writer as it is written: one location after another onto the end. */
  method WriteRecord(r: Record) returns (out: seq<S.Octet>)
    requires Sized(r)
    ensures out == RegionFromRecord(r)
  {
    var values, l := Flat(r), 0;
    ghost var whole := RegionFromRecord(r);
    out := [];
    while l < S.LOCATION_COUNT
      invariant l <= S.LOCATION_COUNT && |out| <= S.RECORD_BYTES
      invariant |out| == if l < S.LOCATION_COUNT then S.Place(l).offset else S.RECORD_BYTES
      invariant out == whole[..|out|]
    {
      LocationsRun(l);
      S.LocationsAreAligned(l);
      RegionHolds(values, l);
      ghost var from := |out|;
      out := out + S.Encode(values[l], Size(l));
      assert out == whole[..from] + whole[from..from + Size(l)] == whole[..from + Size(l)];
      l := l + 1;
    }
  }
}
