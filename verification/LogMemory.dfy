/**
 The log ring over the bytes it really occupies: 64 slots of 264 bytes behind a
 tail word and a drop count. A record is stored a location at a time, a peer may
 store any location of any slot, and the reader decodes what it finds. Everything
 `LogRing` proves of the ring of values holds of this memory, so what the reader
 decodes is the record that was written wherever the slot is one enqueue's.
 */
module LogMemory {
  import opened Wrappers
  import opened Ring
  import opened RingSafety
  import opened RingFifo
  import opened LogRing
  import opened LogRecord
  import S = LogSlot
  import C = LogCodec
  import RingImage
  import Modular

  // -------------------------------------------------- from a publish to a decoding

  lemma {:induction false} WriteIsAPublish(ops: seq<LogOp>, n: nat) returns (k: nat)
    requires forall j :: 0 <= j < |ops| ==> ValidLogOp(ops[j])
    requires n < |LogRun(ops).ring.writes|
    ensures k < |ops| && ops[k].Publish? && LogRun(ops).ring.writes[n].values == ops[k].values
    ensures LogRun(ops[..k]).ring.writes == LogRun(ops).ring.writes[..n]
  {
    var before, last := LogRun(ops[..|ops| - 1]), ops[|ops| - 1];
    LogWritesAreKept(before, last);
    k := |ops| - 1;
    if n < |before.ring.writes| {
      k := WriteIsAPublish(ops[..|ops| - 1], n);
      assert ops[..|ops| - 1][..k] == ops[..k];
      assert LogRun(ops).ring.writes[..n] == before.ring.writes[..n];
    }
  }

  lemma LogWritesAreKept(l: Log, op: LogOp)
    requires OneEach(l) && ValidLogOp(op)
    ensures var now := LogStep(l, op).ring.writes;
            && |l.ring.writes| <= |now| <= |l.ring.writes| + 1 && now[..|l.ring.writes|] == l.ring.writes
            && (|l.ring.writes| < |now| ==> op.Publish? && now[|l.ring.writes|].values == op.values)
  {
    if op.PeerActs? { assert Step(l.ring, op.op).writes == l.ring.writes; }
  }

  /** These bytes hold that delivery's values. */
  predicate Loads(bytes: S.Slot, d: Delivery) { C.LoadAll(bytes) == Values(d.image) }

  predicate AllLoad(taken: seq<S.Slot>, delivered: seq<Delivery>) {
    |taken| == |delivered| && forall i :: 0 <= i < |taken| ==> Loads(taken[i], delivered[i])
  }

  lemma LoadedIsTheRecord(bytes: S.Slot, r: Record)
    requires Sized(r) && C.LoadAll(bytes) == C.Flat(r)
    ensures C.RecordFromRegion(bytes) == r
  {
    C.BytesComeBack(bytes);
    C.RecordRoundTrips(r);
  }

  /** In every run, whatever the peer stores and forges, the bytes of a delivery
      that is whole and is an enqueue's decode to exactly the record that enqueue
      published. */
  lemma DeliveryDecodesToItsRecord(ops: seq<LogOp>, s: State, d: nat, bytes: S.Slot) returns (k: nat)
    requires (forall j :: 0 <= j < |ops| ==> ValidLogOp(ops[j])) && s == LogRun(ops).ring
    requires d < |s.delivered| && Counted(s.delivered[d]) && Loads(bytes, s.delivered[d])
    ensures k < |ops| && ops[k].Publish? && |LogRun(ops[..k]).ring.writes| == Ordinal(s.delivered[d])
    ensures forall r :: Sized(r) && ops[k] == Publish(C.Flat(r)) ==> C.RecordFromRegion(bytes) == r
  {
    LogDeliveriesHaveCauses(ops, d);
    k := WriteIsAPublish(ops, Ordinal(s.delivered[d]));
    forall r | Sized(r) && ops[k] == Publish(C.Flat(r)) ensures C.RecordFromRegion(bytes) == r {
      LoadedIsTheRecord(bytes, r);
    }
  }

  // ---------------------------------------------------------------- in memory

  datatype MemoryOp =
    | Write(record: Record)
    | Read(limit: nat)
    | PeerRecord(slot: nat, bytes: S.Slot)
    | PeerLocation(slot: nat, location: nat, value: nat)
    | PeerTail(word: nat)
    | PeerHead(word: nat)

  predicate ValidMemoryOp(op: MemoryOp) {
    match op
    case Write(r) => Sized(r)
    case PeerLocation(_, l, _) => l < LOCATION_COUNT
    case _ => true
  }

  /** What a peer's action is on the ring of values: a store of a location is cut to
      the location's width. */
  function PeerOp(op: MemoryOp): (peer: Op)
    requires ValidMemoryOp(op) && !op.Write? && !op.Read?
    ensures ValidLogOp(PeerActs(peer))
  {
    match op
    case PeerRecord(slot, bytes) => StoreSlot(slot, C.LoadAll(bytes))
    case PeerLocation(slot, l, value) => StoreField(slot, l, value % S.Power(C.Size(l)))
    case PeerTail(word) => ForgeTail(word)
    case PeerHead(word) => ForgeHead(word)
  }

  function AsLogOp(op: MemoryOp): (log: LogOp)
    requires ValidMemoryOp(op)
    ensures ValidLogOp(log)
  {
    match op
    case Write(r) => Publish(C.Flat(r))
    case Read(limit) => ReadMany(limit)
    case _ => PeerActs(PeerOp(op))
  }

  function AsLogOps(ops: seq<MemoryOp>): (log: seq<LogOp>)
    requires forall k :: 0 <= k < |ops| ==> ValidMemoryOp(ops[k])
    ensures |log| == |ops| && forall k :: 0 <= k < |ops| ==> log[k] == AsLogOp(ops[k]) && ValidLogOp(log[k])
  {
    seq(|ops|, k requires 0 <= k < |ops| && ValidMemoryOp(ops[k]) => AsLogOp(ops[k]))
  }

  lemma {:induction false} ZerosDecode(bytes: seq<S.Octet>)
    requires forall k :: 0 <= k < |bytes| ==> bytes[k] == 0
    ensures S.Decode(bytes) == 0
  {
    if bytes != [] { ZerosDecode(bytes[1..]); }
  }

  lemma ZeroedLoads(b: S.Slot)
    requires forall k :: 0 <= k < |b| ==> b[k] == 0
    ensures C.LoadAll(b) == seq(LOCATION_COUNT, _ => 0)
  {
    forall l | 0 <= l < LOCATION_COUNT ensures S.LoadAt(b, l) == 0 {
      S.LocationsAreAligned(l);
      ZerosDecode(S.At(b, l));
    }
  }

  lemma OneLocationStored(b: S.Slot, l: nat, value: nat)
    requires l < LOCATION_COUNT
    ensures C.LoadAll(S.StoreAt(b, l, value)) == C.LoadAll(b)[l := value % S.Power(C.Size(l))]
  {
    var t := S.StoreAt(b, l, value);
    S.StoreHits(b, l, value);
    forall m | 0 <= m < LOCATION_COUNT && m != l ensures S.LoadAt(t, m) == S.LoadAt(b, m) {
      S.StoreMisses(b, l, value, m);
    }
  }

  /** Some record the run wrote is what these bytes decode to. */
  predicate WrittenBy(ops: seq<MemoryOp>, bytes: S.Slot) {
    exists k :: 0 <= k < |ops| && ops[k].Write? && C.RecordFromRegion(bytes) == ops[k].record
  }

  lemma ReadIsWritten(ops: seq<MemoryOp>, s: State, d: nat, bytes: S.Slot)
    requires (forall j :: 0 <= j < |ops| ==> ValidMemoryOp(ops[j])) && s == LogRun(AsLogOps(ops)).ring
    requires d < |s.delivered| && Counted(s.delivered[d]) && Loads(bytes, s.delivered[d])
    ensures WrittenBy(ops, bytes)
  {
    var k := DeliveryDecodesToItsRecord(AsLogOps(ops), s, d, bytes);
    assert AsLogOps(ops)[k] == AsLogOp(ops[k]);
  }

  lemma NothingRun(ops: seq<MemoryOp>)
    requires forall j :: 0 <= j < |ops| ==> ValidMemoryOp(ops[j])
    ensures LogRun(AsLogOps(ops[..0])) == LogFresh() && LogFresh().ring.delivered == []
  {
  }

  lemma LogRunThen(ops: seq<LogOp>, op: LogOp)
    requires ValidLogOp(op) && forall j :: 0 <= j < |ops| ==> ValidLogOp(ops[j])
    ensures LogRun(ops + [op]) == LogStep(LogRun(ops), op)
  {
    assert (ops + [op])[..|ops|] == ops;
  }

  lemma AsOneMore(ops: seq<MemoryOp>, k: nat)
    requires k < |ops| && forall j :: 0 <= j < |ops| ==> ValidMemoryOp(ops[j])
    ensures AsLogOps(ops[..k + 1]) == AsLogOps(ops[..k]) + [AsLogOp(ops[k])]
  {
  }

  lemma RunOneMore(ops: seq<MemoryOp>, k: nat)
    requires k < |ops| && forall j :: 0 <= j < |ops| ==> ValidMemoryOp(ops[j])
    ensures LogRun(AsLogOps(ops[..k + 1])) == LogStep(LogRun(AsLogOps(ops[..k])), AsLogOp(ops[k]))
  {
    AsOneMore(ops, k);
    LogRunThen(AsLogOps(ops[..k]), AsLogOp(ops[k]));
  }

  predicate Grows(before: seq<Delivery>, now: seq<Delivery>) { |before| <= |now| && now[..|before|] == before }

  lemma LoadsJoin(before: seq<S.Slot>, some: seq<S.Slot>, delivered: seq<Delivery>, k: nat)
    requires k <= |delivered| && AllLoad(before, delivered[..k]) && AllLoad(some, delivered[k..])
    ensures AllLoad(before + some, delivered)
  {
  }

  /** Where a drain of `start` stands after taking `taken`. */
  predicate ReadSoFar(start: State, s: State, taken: seq<S.Slot>) {
    && |start.consumers| == 1 && |taken| <= Waiting(start, 0) && s == ReadAt(start, 0, |taken|)
    && |start.delivered| <= |s.delivered| && AllLoad(taken, s.delivered[|start.delivered|..])
  }

  /** The next slot, or the end of what waits. */
  lemma ReadsOn(start: State, s: State, taken: seq<S.Slot>, bytes: S.Slot)
    requires ReadSoFar(start, s, taken)
    ensures AppearsEmpty(s, 0) <==> |taken| == Waiting(start, 0)
    ensures !AppearsEmpty(s, 0) && Loads(bytes, Delivery(s.consumers[0], s.slots[s.consumers[0]])) ==>
              ReadSoFar(start, DequeueAt(s, 0), taken + [bytes])
  {
    if |taken| == Waiting(start, 0) {
      RingImage.ReadAllIsEmpty(start, 0);
    } else {
      ReadOneMore(start, 0, |taken|);
      var d := Delivery(s.consumers[0], s.slots[s.consumers[0]]);
      assert (s.delivered + [d])[|start.delivered|..] == s.delivered[|start.delivered|..] + [d];
    }
  }

  /** The ring in memory: any number of slots, one handle each side. */
  class WireRing {
    const region: S.Region
    var head: nat             // the reader's cursor, forgeable
    var tail: nat             // the writer's cursor, forgeable
    var producer: nat         // private positions
    var consumer: nat
    ghost var model: State

    ghost predicate Cursors()
      reads this
    {
      && model.cap == region.slots && model.width == LOCATION_COUNT
      && model.head == head && model.tail == tail
      && model.producers == [producer] && model.consumers == [consumer]
    }

    /** Slot by slot the bytes hold what the model says. */
    ghost predicate Shows(slots: seq<seq<Cell>>)
      requires region.Valid()
      reads region.bytes
    {
      |slots| == region.slots && forall i :: 0 <= i < |slots| ==> C.LoadAll(region.SlotAt(i)) == Values(slots[i])
    }

    ghost predicate Valid()
      reads this, region.bytes
    {
      region.Valid() && Cursors() && Shows(model.slots)
    }

    constructor (slots: nat)
      requires slots >= 2
      ensures Valid() && fresh(region) && fresh(region.bytes) && model == Fresh(slots, LOCATION_COUNT)
    {
      region := new S.Region(slots);
      head, tail, producer, consumer := 0, 0, 0, 0;
      model := Fresh(slots, LOCATION_COUNT);
      new;
      forall i | 0 <= i < slots ensures C.LoadAll(region.SlotAt(i)) == Values(model.slots[i]) {
        ZeroedLoads(region.SlotAt(i));
      }
    }

    /** One slot's bytes, stored a location at a time. */
    method Put(slot: nat, bytes: S.Slot, ghost slots: seq<seq<Cell>>, ghost cells: seq<Cell>)
      requires region.Valid() && Shows(slots) && slot < region.slots && Values(cells) == C.LoadAll(bytes)
      modifies region.bytes
      ensures Shows(slots[slot := cells])
    {
      Modular.Small(slot, region.slots);
      region.StoreRecord(slot, bytes);
    }

    /** One location of one slot. */
    method PutLocation(slot: nat, l: nat, value: nat, ghost slots: seq<seq<Cell>>, ghost cells: seq<Cell>)
      requires region.Valid() && Shows(slots) && slot < region.slots && l < LOCATION_COUNT
      requires Values(cells) == Values(slots[slot])[l := value % S.Power(C.Size(l))]
      modifies region.bytes
      ensures Shows(slots[slot := cells])
    {
      Modular.Small(slot, region.slots);
      OneLocationStored(region.SlotAt(slot), l, value);
      region.StoreLocation(slot, l, value);
    }

    /** Encode a record into the slot at the private position, unless the ring
        appears full. */
    method TryWrite(r: Record) returns (accepted: bool)
      requires Valid() && Sized(r)
      modifies this, region.bytes
      ensures Valid() && model == EnqueueAt(old(model), 0, C.Flat(r))
      ensures accepted <==> !AppearsFull(old(model), 0)
    {
      ghost var before := model;
      model := EnqueueAt(model, 0, C.Flat(r));
      var next := Next(producer, region.slots);
      if next == Masked(head, region.slots) {
        return false;
      }
      C.FlatFits(r);
      C.LoadsComeBack(C.Flat(r));
      var bytes := C.WriteRecord(r);
      ghost var cells := Stamp(C.Flat(r), Enqueued(|before.writes|));
      assert Values(cells) == C.Flat(r);
      Put(producer, bytes, before.slots, cells);
      producer, tail := next, next;
      accepted := true;
    }

    /** The slot at the private position, loaded a location at a time, unless the
        ring appears empty. */
    method TryRead() returns (item: Option<S.Slot>)
      requires Valid()
      modifies this
      ensures Valid() && model == DequeueAt(old(model), 0)
      ensures item.None? <==> AppearsEmpty(old(model), 0)
      ensures item.Some? ==> Loads(item.value, Delivery(old(consumer), old(model).slots[old(consumer)]))
    {
      ghost var before := model;
      model := DequeueAt(model, 0);
      if consumer == Masked(tail, region.slots) {
        return None;
      }
      var bytes := region.LoadRecord(consumer);
      consumer := Next(consumer, region.slots);
      head := consumer;
      item := Some(bytes);
    }

    method ReadUpTo(limit: nat) returns (taken: seq<S.Slot>)
      requires Valid()
      modifies this
      ensures Valid() && model == DrainAt(old(model), 0, limit)
      ensures |old(model).delivered| <= |model.delivered|
      ensures AllLoad(taken, model.delivered[|old(model).delivered|..])
    {
      taken := [];
      ghost var start := model;
      while |taken| < limit
        invariant Valid() && |taken| <= limit && ReadSoFar(start, model, taken)
      {
        ghost var before := model;
        var item := TryRead();
        if item.None? {
          ReadsOn(start, before, taken, seq(S.RECORD_BYTES, _ => 0));
          break;
        }
        ReadsOn(start, before, taken, item.value);
        taken := taken + [item.value];
      }
    }

    method PeerForges(op: MemoryOp)
      requires Valid() && (op.PeerTail? || op.PeerHead?)
      modifies this
      ensures Valid() && model == Step(old(model), PeerOp(op))
      ensures head == if op.PeerHead? then op.word else old(head)
      ensures tail == if op.PeerTail? then op.word else old(tail)
    {
      model := Step(model, PeerOp(op));
      match op {
        case PeerTail(word) => tail := word;
        case PeerHead(word) => head := word;
      }
    }

    method PeerStoresRecord(slot: nat, bytes: S.Slot)
      requires Valid()
      modifies this, region.bytes
      ensures Valid() && model == StoreSlotAt(old(model), slot, C.LoadAll(bytes))
    {
      ghost var before := model;
      model := StoreSlotAt(model, slot, C.LoadAll(bytes));
      Put(slot % region.slots, bytes, before.slots, Stamp(C.LoadAll(bytes), Peer(|before.stores|)));
    }

    method PeerStoresLocation(slot: nat, l: nat, value: nat)
      requires Valid() && l < LOCATION_COUNT
      modifies this, region.bytes
      ensures Valid() && model == StoreFieldAt(old(model), slot, l, value % S.Power(C.Size(l)))
    {
      ghost var before, at := model, slot % region.slots;
      ghost var cells := before.slots[at][l := Cell(value % S.Power(C.Size(l)), Peer(|before.stores|))];
      OneCellMore(before.slots[at], l, cells[l]);
      PutLocation(slot % region.slots, l, value, before.slots, cells);
      Modular.Small(l, LOCATION_COUNT);
      model := StoreFieldAt(model, slot, l, value % S.Power(C.Size(l)));
    }
  }

  lemma OneCellMore(cells: seq<Cell>, l: nat, cell: Cell)
    requires l < |cells|
    ensures Values(cells[l := cell]) == Values(cells)[l := cell.value]
  {
  }

  /** The log ring's own two handles and its drop count. */
  class LogWires {
    const ring: WireRing
    var dropped: nat          // the writer's own count
    var published: nat
    ghost var model: Log

    ghost predicate Valid()
      reads this, ring, ring.region.bytes
    {
      ring.Valid() && OneEach(model) && model == Log(ring.model, dropped, published)
    }

    constructor ()
      ensures Valid() && fresh(ring) && fresh(ring.region.bytes) && model == LogFresh()
    {
      ring := new WireRing(LOG_RING_SLOTS);
      dropped, published := 0, 0;
      model := LogFresh();
    }

    method WriteRecord(r: Record)
      requires Valid() && Sized(r)
      modifies this, ring, ring.region.bytes
      ensures Valid() && model == LogStep(old(model), Publish(C.Flat(r)))
      ensures model.ring.delivered == old(model).ring.delivered
    {
      var accepted := ring.TryWrite(r);
      if !accepted {
        dropped := Ring.Min(dropped + 1, LogRing.U32_MAX);
        published := dropped;
      }
      model := LogStep(model, Publish(C.Flat(r)));
    }

    method PeerActed(op: MemoryOp)
      requires Valid() && ValidMemoryOp(op) && !op.Write? && !op.Read?
      modifies this, ring, ring.region.bytes
      ensures Valid() && model == LogStep(old(model), PeerActs(PeerOp(op)))
      ensures model.ring.delivered == old(model).ring.delivered
    {
      match op {
        case PeerTail(_) => ring.PeerForges(op);
        case PeerHead(_) => ring.PeerForges(op);
        case PeerRecord(slot, bytes) => ring.PeerStoresRecord(slot, bytes);
        case PeerLocation(slot, l, value) => ring.PeerStoresLocation(slot, l, value);
      }
      model := LogStep(model, PeerActs(PeerOp(op)));
    }

    method ReadRecords(limit: nat) returns (taken: seq<S.Slot>)
      requires Valid()
      modifies this, ring
      ensures Valid() && model == LogStep(old(model), ReadMany(limit))
      ensures Grows(old(model).ring.delivered, model.ring.delivered)
      ensures AllLoad(taken, model.ring.delivered[|old(model).ring.delivered|..])
    {
      taken := ring.ReadUpTo(Ring.Min(limit, CAPACITY));
      model := LogStep(model, ReadMany(limit));
    }

    method Perform(op: MemoryOp) returns (taken: seq<S.Slot>)
      requires Valid() && ValidMemoryOp(op)
      modifies this, ring, ring.region.bytes
      ensures Valid() && model == LogStep(old(model), AsLogOp(op))
      ensures Grows(old(model).ring.delivered, model.ring.delivered)
      ensures AllLoad(taken, model.ring.delivered[|old(model).ring.delivered|..])
    {
      taken := [];
      if op.Write? {
        WriteRecord(op.record);
      } else if op.Read? {
        taken := ReadRecords(op.limit);
      } else {
        PeerActed(op);
      }
    }

    /** The next operation of a run. */
    method Continue(ops: seq<MemoryOp>, k: nat, before: seq<S.Slot>) returns (taken: seq<S.Slot>)
      requires Valid() && k < |ops| && (forall j :: 0 <= j < |ops| ==> ValidMemoryOp(ops[j]))
      requires model == LogRun(AsLogOps(ops[..k])) && AllLoad(before, model.ring.delivered)
      modifies this, ring, ring.region.bytes
      ensures Valid() && model == LogRun(AsLogOps(ops[..k + 1])) && AllLoad(taken, model.ring.delivered)
    {
      RunOneMore(ops, k);
      ghost var already := |model.ring.delivered|;
      var some := Perform(ops[k]);
      LoadsJoin(before, some, model.ring.delivered, already);
      taken := before + some;
    }

    /** A whole run: the memory ends as the ring of values does, what was read holds
        that ring's deliveries, and each that is whole and an enqueue's decodes to a
        record that was written. */
    method Observe(ops: seq<MemoryOp>) returns (taken: seq<S.Slot>)
      requires Valid() && model == LogFresh() && forall k :: 0 <= k < |ops| ==> ValidMemoryOp(ops[k])
      modifies this, ring, ring.region.bytes
      ensures Valid() && model == LogRun(AsLogOps(ops)) && AllLoad(taken, model.ring.delivered)
      ensures forall d :: 0 <= d < |taken| && Counted(model.ring.delivered[d]) ==> WrittenBy(ops, taken[d])
    {
      taken := [];
      var k := 0;
      NothingRun(ops);
      while k < |ops|
        invariant k <= |ops| && Valid() && model == LogRun(AsLogOps(ops[..k]))
        invariant AllLoad(taken, model.ring.delivered)
      {
        taken := Continue(ops, k, taken);
        k := k + 1;
      }
      assert ops[..k] == ops;
      forall d | 0 <= d < |taken| && Counted(model.ring.delivered[d]) ensures WrittenBy(ops, taken[d]) {
        ReadIsWritten(ops, model.ring, d, taken[d]);
      }
    }
  }
}
