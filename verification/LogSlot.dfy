/**
 The slot image of the log ring: a 264-byte record as 156 separately stored
 locations of one, four or eight bytes. A peer's granularity is one location, so
 what a reader can find in a slot is decided by how the locations lie.
 */
module LogSlot {
  import Modular

  const RECORD_BYTES: nat := 264
  const LOCATION_COUNT: nat := 156

  type Octet = b: nat | b < 256

  datatype Width = One | Four | Eight

  function Size(w: Width): nat { match w case One => 1 case Four => 4 case Eight => 8 }

  /** A run of locations of one width: the first location, its offset, how many. */
  datatype Segment = Segment(first: nat, offset: nat, count: nat, width: Width)

  const SEGMENTS: seq<Segment> :=
    [Segment(0, 0, 12, Eight), Segment(12, 96, 6, Four), Segment(18, 120, 80, One), Segment(98, 200, 1, Four),
     Segment(99, 204, 28, One), Segment(127, 232, 1, Four), Segment(128, 236, 28, One)]

  datatype Span = Span(offset: nat, width: Width)

  /** Where a location sits, region by region. */
  function Place(l: nat): Span {
    if l < 12 then Span(8 * l, Eight)
    else if l < 18 then Span(96 + 4 * (l - 12), Four)
    else if l < 98 then Span(120 + (l - 18), One)
    else if l == 98 then Span(200, Four)
    else if l < 127 then Span(204 + (l - 99), One)
    else if l == 127 then Span(232, Four)
    else Span(236 + (l - 128), One)
  }

  /** The inverse of `Place`: which location covers byte `k`. */
  function OwnerOf(k: nat): nat {
    if k < 96 then k / 8
    else if k < 120 then 12 + (k - 96) / 4
    else if k < 200 then 18 + (k - 120)
    else if k < 204 then 98
    else if k < 232 then 99 + (k - 204)
    else if k < 236 then 127
    else 128 + (k - 236)
  }

  predicate Covers(l: nat, k: nat) { Place(l).offset <= k < Place(l).offset + Size(Place(l).width) }

  /** The search over the table, with the last run for what the table lacks. */
  method Placement(l: nat) returns (span: Span)
    ensures l < LOCATION_COUNT ==> span == Place(l)
  {
    span := Span(0, One);
    var k := 0;
    while k < |SEGMENTS|
      invariant k <= |SEGMENTS|
      invariant l < LOCATION_COUNT ==> l >= if k < |SEGMENTS| then SEGMENTS[k].first else LOCATION_COUNT
    {
      var s := SEGMENTS[k];
      span := Span(s.offset, s.width);
      if l >= s.first && l - s.first < s.count {
        return Span(s.offset + (l - s.first) * Size(s.width), s.width);
      }
      k := k + 1;
    }
  }

  /** Every byte of the record is in exactly one location. */
  lemma LocationsPartition(k: nat, l: nat)
    requires k < RECORD_BYTES && l < LOCATION_COUNT
    ensures OwnerOf(k) < LOCATION_COUNT && (Covers(l, k) <==> l == OwnerOf(k))
  {
  }

  /** Every location is whole, inside the record and naturally aligned. */
  lemma LocationsAreAligned(l: nat)
    requires l < LOCATION_COUNT
    ensures Place(l).offset % Size(Place(l).width) == 0
    ensures Place(l).offset + Size(Place(l).width) <= RECORD_BYTES
  {
  }

  lemma SumsKeepAlignment(slot: nat, offset: nat)
    ensures offset % 4 == 0 ==> (8 + RECORD_BYTES * slot + offset) % 4 == 0
    ensures offset % 8 == 0 ==> (8 + RECORD_BYTES * slot + offset) % 8 == 0
  {
    assert RECORD_BYTES * slot == 4 * (66 * slot) == 8 * (33 * slot);
  }

  /** And aligned in the region too: the slots start at byte 8 and a record is a
      whole number of quadwords. */
  lemma SlotsKeepAlignment(slot: nat, l: nat)
    requires l < LOCATION_COUNT
    ensures (8 + RECORD_BYTES * slot + Place(l).offset) % Size(Place(l).width) == 0
  {
    LocationsAreAligned(l);
    SumsKeepAlignment(slot, Place(l).offset);
  }

  // ---------------------------------------------------------------- little endian

  function Power(n: nat): (p: nat)
    ensures p > 0
  {
    if n == 0 then 1 else 256 * Power(n - 1)
  }

  function Encode(v: nat, n: nat): (bytes: seq<Octet>)
    ensures |bytes| == n
    decreases n
  {
    if n == 0 then [] else [v % 256] + Encode(v / 256, n - 1)
  }

  function Decode(bytes: seq<Octet>): nat {
    if bytes == [] then 0 else var low: nat := bytes[0]; low + 256 * Decode(bytes[1..])
  }

  lemma {:induction false} EncodeDecodes(bytes: seq<Octet>)
    ensures Encode(Decode(bytes), |bytes|) == bytes
  {
    if bytes != [] {
      EncodeDecodes(bytes[1..]);
      var low: nat, rest := bytes[0], Decode(bytes[1..]);
      assert (low + 256 * rest) / 256 == rest && (low + 256 * rest) % 256 == low;
    }
  }

  /** Byte `i` is the value's digit of that weight, base 256. */
  lemma {:induction false} EncodedByte(v: nat, n: nat, i: nat)
    requires i < n
    ensures Encode(v, n)[i] == v / Power(i) % 256
    decreases n
  {
    if i > 0 {
      EncodedByte(v / 256, n - 1, i - 1);
      DivideTwice(v, Power(i - 1));
    }
  }

  lemma DivideTwice(v: nat, p: nat)
    requires p > 0
    ensures v / 256 / p == v / (256 * p)
  {
    var a, q, r := v % 256, (v / 256) / p, (v / 256) % p;
    assert v == a + 256 * (q * p + r) == (256 * p) * q + (a + 256 * r);
    assert a + 256 * r < 256 * p by { assert r <= p - 1; }
    Modular.Unique(v, 256 * p, q, a + 256 * r);
  }

  /** `n` bytes keep a value modulo 256 to the `n`. */
  lemma {:induction false} DecodeTruncates(v: nat, n: nat)
    ensures Decode(Encode(v, n)) == v % Power(n)
    decreases n
  {
    if n > 0 {
      DecodeTruncates(v / 256, n - 1);
      assert Encode(v, n)[1..] == Encode(v / 256, n - 1);
      SplitRemainder(v, Power(n - 1));
    }
  }

  lemma SplitRemainder(v: nat, p: nat)
    requires p > 0
    ensures v % 256 + 256 * ((v / 256) % p) == v % (256 * p)
  {
    var a, q, r := v % 256, (v / 256) / p, (v / 256) % p;
    assert v == a + 256 * (q * p + r) == (256 * p) * q + (a + 256 * r);
    assert a + 256 * r < 256 * p by { assert r <= p - 1; }
    Modular.Unique(v, 256 * p, q, a + 256 * r);
  }

  // -------------------------------------------------------------------- the slot

  type Slot = b: seq<Octet> | |b| == RECORD_BYTES witness seq(264, _ => 0)

  /** The bytes a location holds. */
  function At(b: Slot, l: nat): (bytes: seq<Octet>)
    requires l < LOCATION_COUNT
    ensures |bytes| == Size(Place(l).width)
  {
    LocationsAreAligned(l);
    b[Place(l).offset..Place(l).offset + Size(Place(l).width)]
  }

  function LoadAt(b: Slot, l: nat): nat
    requires l < LOCATION_COUNT
  {
    Decode(At(b, l))
  }

  /** One atomic store, of a value truncated to the location's width. */
  function StoreAt(b: Slot, l: nat, value: nat): (t: Slot)
    requires l < LOCATION_COUNT
  {
    LocationsAreAligned(l);
    Spliced(b, Place(l).offset, Encode(value, Size(Place(l).width)))
  }

  lemma StoreHits(b: Slot, l: nat, value: nat)
    requires l < LOCATION_COUNT
    ensures At(StoreAt(b, l, value), l) == Encode(value, Size(Place(l).width))
    ensures LoadAt(StoreAt(b, l, value), l) == value % Power(Size(Place(l).width))
  {
    LocationsAreAligned(l);
    assert At(StoreAt(b, l, value), l) == Encode(value, Size(Place(l).width));
    DecodeTruncates(value, Size(Place(l).width));
  }

  lemma ByteElsewhere(b: Slot, l: nat, value: nat, k: nat)
    requires l < LOCATION_COUNT && k < RECORD_BYTES && l != OwnerOf(k)
    ensures StoreAt(b, l, value)[k] == b[k]
  {
    LocationsPartition(k, l);
    LocationsAreAligned(l);
  }

  /** Storing one location changes no other. */
  lemma StoreMisses(b: Slot, l: nat, value: nat, m: nat)
    requires l < LOCATION_COUNT && m < LOCATION_COUNT && l != m
    ensures At(StoreAt(b, l, value), m) == At(b, m)
  {
    LocationsAreAligned(m);
    var from, size := Place(m).offset, Size(Place(m).width);
    var t := StoreAt(b, l, value);
    forall k | from <= k < from + size ensures t[k] == b[k] {
      LocationsPartition(k, m);
      ByteElsewhere(b, l, value, k);
    }
  }

  /** A slot is what its locations hold. */
  lemma LocationsDecide(a: Slot, b: Slot)
    requires forall l :: 0 <= l < LOCATION_COUNT ==> At(a, l) == At(b, l)
    ensures a == b
  {
    forall k | 0 <= k < RECORD_BYTES ensures a[k] == b[k] {
      var l := OwnerOf(k);
      LocationsPartition(k, 0);
      LocationsPartition(k, l);
      assert At(a, l)[k - Place(l).offset] == At(b, l)[k - Place(l).offset];
    }
  }

  // ------------------------------------------------------------- whole records

  /** The first `n` locations hold the record's, the others what they held. */
  predicate StoredUpTo(b: Slot, before: Slot, record: Slot, n: nat) {
    forall l :: 0 <= l < LOCATION_COUNT ==> At(b, l) == At(if l < n then record else before, l)
  }

  lemma OneMoreStored(b: Slot, before: Slot, record: Slot, n: nat)
    requires n < LOCATION_COUNT && StoredUpTo(b, before, record, n)
    ensures StoredUpTo(StoreAt(b, n, LoadAt(record, n)), before, record, n + 1)
  {
    var t := StoreAt(b, n, LoadAt(record, n));
    StoreHits(b, n, LoadAt(record, n));
    EncodeDecodes(At(record, n));
    forall l | 0 <= l < LOCATION_COUNT && l != n ensures At(t, l) == At(b, l) {
      StoreMisses(b, n, LoadAt(record, n), l);
    }
  }

  /** Storing every location of a record leaves exactly the record. */
  lemma StoreRecordIsTheRecord(b: Slot, before: Slot, record: Slot, n: nat)
    requires StoredUpTo(b, before, record, n) && n >= LOCATION_COUNT
    ensures b == record
  {
    forall l | 0 <= l < LOCATION_COUNT ensures At(b, l) == At(record, l) {}
    LocationsDecide(b, record);
  }

  // ------------------------------------------------------------------- mixtures

  /** One location stored from one of two records. */
  datatype Store = Store(location: nat, second: bool)

  predicate Valid(stores: seq<Store>) { forall k :: 0 <= k < |stores| ==> stores[k].location < LOCATION_COUNT }

  function Pick(a: Slot, b: Slot, second: bool): Slot { if second then b else a }

  function StoreAll(s: Slot, a: Slot, b: Slot, stores: seq<Store>): Slot
    requires Valid(stores)
  {
    if stores == [] then s
    else
      var last := stores[|stores| - 1];
      StoreAt(StoreAll(s, a, b, stores[..|stores| - 1]), last.location, LoadAt(Pick(a, b, last.second), last.location))
  }

  /** Whose value a location holds after the stores: that of the last to it. */
  function LastTo(s: Slot, a: Slot, b: Slot, stores: seq<Store>, l: nat): Slot {
    if stores == [] then s
    else if stores[|stores| - 1].location == l then Pick(a, b, stores[|stores| - 1].second)
    else LastTo(s, a, b, stores[..|stores| - 1], l)
  }

  /** Any interleaving of stores from two records reads back, location by location,
      as the record last stored there. */
  lemma {:induction false} InterleavingIsAMixture(s: Slot, a: Slot, b: Slot, stores: seq<Store>, l: nat)
    requires Valid(stores) && l < LOCATION_COUNT
    ensures At(StoreAll(s, a, b, stores), l) == At(LastTo(s, a, b, stores, l), l)
  {
    if stores != [] {
      var before, last := stores[..|stores| - 1], stores[|stores| - 1];
      InterleavingIsAMixture(s, a, b, before, l);
      var slot, value := StoreAll(s, a, b, before), LoadAt(Pick(a, b, last.second), last.location);
      if last.location == l {
        StoreHits(slot, l, value);
        EncodeDecodes(At(Pick(a, b, last.second), l));
      } else {
        StoreMisses(slot, last.location, value, l);
      }
    }
  }

  predicate Stored(stores: seq<Store>, l: nat) { exists k :: 0 <= k < |stores| && stores[k].location == l }

  /** So once every location has been stored, nothing but the two records shows. */
  lemma {:induction false} LastIsOneOfTwo(s: Slot, a: Slot, b: Slot, stores: seq<Store>, l: nat)
    requires Stored(stores, l)
    ensures LastTo(s, a, b, stores, l) == a || LastTo(s, a, b, stores, l) == b
  {
    var last := |stores| - 1;
    if stores[last].location != l {
      var k :| 0 <= k < |stores| && stores[k].location == l;
      assert stores[..last][k].location == l;
      LastIsOneOfTwo(s, a, b, stores[..last], l);
    }
  }

  lemma FullInterleavingMixesTwo(s: Slot, a: Slot, b: Slot, stores: seq<Store>, l: nat)
    requires Valid(stores) && l < LOCATION_COUNT && Stored(stores, l)
    ensures At(StoreAll(s, a, b, stores), l) == At(a, l) || At(StoreAll(s, a, b, stores), l) == At(b, l)
  {
    InterleavingIsAMixture(s, a, b, stores, l);
    LastIsOneOfTwo(s, a, b, stores, l);
  }

  // ------------------------------------------------ and every mixture is reached

  function Choose(choice: seq<bool>, n: nat): (stores: seq<Store>)
    requires n <= |choice| == LOCATION_COUNT
    ensures |stores| == n && forall k :: 0 <= k < n ==> stores[k] == Store(k, choice[k])
  {
    seq(n, k requires 0 <= k < n <= |choice| => Store(k, choice[k]))
  }

  lemma {:induction false} ChosenLast(s: Slot, a: Slot, b: Slot, choice: seq<bool>, n: nat, l: nat)
    requires l < n <= |choice| == LOCATION_COUNT
    ensures LastTo(s, a, b, Choose(choice, n), l) == Pick(a, b, choice[l])
    decreases n
  {
    assert Choose(choice, n)[..n - 1] == Choose(choice, n - 1);
    if l < n - 1 { ChosenLast(s, a, b, choice, n - 1, l); }
  }

  /** Any choice of record per location is what some order of stores leaves. */
  lemma EveryMixtureIsReached(s: Slot, a: Slot, b: Slot, choice: seq<bool>, l: nat)
    requires |choice| == LOCATION_COUNT && l < LOCATION_COUNT
    ensures At(StoreAll(s, a, b, Choose(choice, LOCATION_COUNT)), l) == At(Pick(a, b, choice[l]), l)
  {
    InterleavingIsAMixture(s, a, b, Choose(choice, LOCATION_COUNT), l);
    ChosenLast(s, a, b, choice, LOCATION_COUNT, l);
  }

  // ------------------------------------------------------------------ the region

  lemma SliceOfSlice<T>(s: seq<T>, a: nat, b: nat, c: nat, d: nat)
    requires a <= b <= |s| && c <= d <= b - a
    ensures s[a..b][c..d] == s[a + c..a + d]
  {
    var x := s[a..b];
    var y, z := x[c..d], s[a + c..a + d];
    forall i | 0 <= i < d - c ensures y[i] == z[i] { assert y[i] == x[c + i] == s[a + c + i]; }
  }

  function BaseOf(i: nat): nat { 8 + RECORD_BYTES * i }

  function SlotOf(all: seq<Octet>, i: nat): Slot
    requires BaseOf(i) + RECORD_BYTES <= |all|
  {
    all[BaseOf(i)..BaseOf(i) + RECORD_BYTES]
  }

  function Spliced(all: seq<Octet>, from: nat, field: seq<Octet>): (now: seq<Octet>)
    requires from + |field| <= |all|
    ensures |now| == |all|
  {
    all[..from] + field + all[from + |field|..]
  }

  /** What a run of bytes written inside a slot makes of that slot. */
  lemma SplicedSlot(all: seq<Octet>, i: nat, offset: nat, field: seq<Octet>)
    requires BaseOf(i) + RECORD_BYTES <= |all| && offset + |field| <= RECORD_BYTES
    ensures SlotOf(Spliced(all, BaseOf(i) + offset, field), i) == Spliced(SlotOf(all, i), offset, field)
    ensures Spliced(all, BaseOf(i) + offset, field)[..8] == all[..8]
  {
    var at := BaseOf(i);
    var whole, one := Spliced(all, at + offset, field), Spliced(SlotOf(all, i), offset, field);
    forall k | 0 <= k < RECORD_BYTES ensures SlotOf(whole, i)[k] == one[k] {
      assert SlotOf(whole, i)[k] == whole[at + k] && SlotOf(all, i)[k] == all[at + k];
    }
  }

  /** Slots do not overlap, so what is written inside one leaves the others. */
  lemma OtherSlotStays(all: seq<Octet>, slots: nat, i: nat, offset: nat, field: seq<Octet>, j: nat)
    requires |all| == BaseOf(slots) && i < slots && j < slots && j != i && offset + |field| <= RECORD_BYTES
    ensures BaseOf(i) + RECORD_BYTES <= |all| && BaseOf(j) + RECORD_BYTES <= |all|
    ensures SlotOf(Spliced(all, BaseOf(i) + offset, field), j) == SlotOf(all, j)
  {
    assert BaseOf(j) + RECORD_BYTES <= BaseOf(i) || BaseOf(i) + RECORD_BYTES <= BaseOf(j);
  }

  /** The records region: the tail word, the drop count, then the slots. */
  class Region {
    const slots: nat
    const bytes: array<Octet>

    ghost predicate Valid() { slots > 0 && bytes.Length == BaseOf(slots) }

    function Base(slot: nat): (base: nat)
      requires slots > 0
    {
      BaseOf(slot % slots)
    }

    lemma BaseFits(slot: nat)
      requires Valid()
      ensures Base(slot) + RECORD_BYTES <= bytes.Length
    {
      Modular.Multiples(slot % slots, slots, RECORD_BYTES);
    }

    ghost function SlotAt(slot: nat): Slot
      requires Valid()
      reads bytes
    {
      BaseFits(slot);
      SlotOf(bytes[..], slot % slots)
    }

    constructor (slots: nat)
      requires slots > 0
      ensures Valid() && this.slots == slots && fresh(bytes)
      ensures forall k :: 0 <= k < bytes.Length ==> bytes[k] == 0
    {
      this.slots := slots;
      bytes := new Octet[8 + RECORD_BYTES * slots](_ => 0);
    }

    /** Bytes one at a time; nothing else moves. */
    method WriteRun(from: nat, field: seq<Octet>)
      requires from + |field| <= bytes.Length
      modifies bytes
      ensures bytes[..] == Spliced(old(bytes[..]), from, field)
    {
      var k := 0;
      while k < |field|
        invariant k <= |field|
        invariant forall i :: 0 <= i < bytes.Length ==>
                    bytes[i] == if from <= i < from + k then field[i - from] else old(bytes[i])
      {
        bytes[from + k] := field[k];
        k := k + 1;
      }
    }

    /** A field's bytes within a slot; no other slot moves, nor what comes before
        them. */
    method WriteBytes(slot: nat, offset: nat, field: seq<Octet>)
      requires Valid() && offset + |field| <= RECORD_BYTES
      modifies bytes
      ensures SlotAt(slot) == Spliced(old(SlotAt(slot)), offset, field) && bytes[..8] == old(bytes[..8])
      ensures forall j :: 0 <= j < slots && j != slot % slots ==> SlotAt(j) == old(SlotAt(j))
    {
      BaseFits(slot);
      ghost var before, i := bytes[..], slot % slots;
      WriteRun(BaseOf(slot % slots) + offset, field);
      SplicedSlot(before, i, offset, field);
      assert bytes[..8] == bytes[..][..8];
      forall j | 0 <= j < slots && j != i ensures SlotAt(j) == old(SlotAt(j)) {
        Modular.Small(j, slots);
        OtherSlotStays(before, slots, i, offset, field, j);
      }
    }

    method StoreLocation(slot: nat, l: nat, value: nat)
      requires Valid() && l < LOCATION_COUNT
      modifies bytes
      ensures SlotAt(slot) == StoreAt(old(SlotAt(slot)), l, value)
      ensures bytes[..8] == old(bytes[..8])
      ensures forall j :: 0 <= j < slots && j != slot % slots ==> SlotAt(j) == old(SlotAt(j))
    {
      LocationsAreAligned(l);
      var span := Placement(l);
      WriteBytes(slot, span.offset, Encode(value, Size(span.width)));
    }

    method LoadLocation(slot: nat, l: nat) returns (value: nat)
      requires Valid() && l < LOCATION_COUNT
      ensures value == LoadAt(SlotAt(slot), l)
    {
      BaseFits(slot);
      LocationsAreAligned(l);
      var span := Placement(l);
      var from, size := Base(slot) + span.offset, Size(span.width);
      value := Decode(bytes[from..from + size]);
      SliceOfSlice(bytes[..], Base(slot), Base(slot) + RECORD_BYTES, span.offset, span.offset + size);
    }

    /** Location by location, in order. */
    method StoreRecord(slot: nat, record: Slot)
      requires Valid()
      modifies bytes
      ensures SlotAt(slot) == record
      ensures bytes[..8] == old(bytes[..8])
      ensures forall j :: 0 <= j < slots && j != slot % slots ==> SlotAt(j) == old(SlotAt(j))
    {
      ghost var before := SlotAt(slot);
      var l := 0;
      while l < LOCATION_COUNT
        invariant l <= LOCATION_COUNT && StoredUpTo(SlotAt(slot), before, record, l)
        invariant bytes[..8] == old(bytes[..8])
        invariant forall j :: 0 <= j < slots && j != slot % slots ==> SlotAt(j) == old(SlotAt(j))
      {
        var span := Placement(l);
        LocationsAreAligned(l);
        OneMoreStored(SlotAt(slot), before, record, l);
        StoreLocation(slot, l, Decode(record[span.offset..span.offset + Size(span.width)]));
        l := l + 1;
      }
      StoreRecordIsTheRecord(SlotAt(slot), before, record, l);
    }

    /** And read back a location at a time into a record. */
    method LoadRecord(slot: nat) returns (record: Slot)
      requires Valid()
      ensures record == SlotAt(slot)
    {
      ghost var blank: Slot := seq(RECORD_BYTES, _ => 0);
      record := seq(RECORD_BYTES, _ => 0);
      var l := 0;
      while l < LOCATION_COUNT
        invariant l <= LOCATION_COUNT && StoredUpTo(record, blank, SlotAt(slot), l)
      {
        OneMoreStored(record, blank, SlotAt(slot), l);
        var value := LoadLocation(slot, l);
        record := StoreAt(record, l, value);
        l := l + 1;
      }
      StoreRecordIsTheRecord(record, blank, SlotAt(slot), l);
    }
  }
}
