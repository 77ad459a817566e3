/**
 The log ring: the ring of `Ring` between a writing domain and the console, with
 one handle each side, a drop count the writer publishes, and a drain clamped to
 the capacity so that it ends however the records cursor moves under it.
 */
module LogRing {
  import opened Ring
  import opened RingSafety
  import opened RingFifo
  import opened Wrappers
  import opened RingImage

  const LOG_RING_SLOTS: nat := 64
  const LOCATION_COUNT: nat := 156
  const CAPACITY: nat := LOG_RING_SLOTS - 1
  const U32_MAX: nat := 0xFFFF_FFFF

  /** The ring, the writer's own drop count, and the count it published. */
  datatype Log = Log(ring: State, dropped: nat, published: nat)

  datatype LogOp =
    | Publish(values: seq<nat>)
    | ReadOne
    | ReadMany(limit: nat)
    | ReadWhileMoving(limit: nat, forge: nat -> nat)
    | PeerActs(op: Op)
    | ForgeDropped(word: nat)

  predicate ValidLogOp(op: LogOp) {
    match op
    case Publish(values) => |values| == LOCATION_COUNT
    case PeerActs(peer) =>
      && !peer.Enqueue? && !peer.Dequeue? && !peer.Drain? && !peer.TakeProducer? && !peer.TakeConsumer?
      && (peer.StoreSlot? ==> |peer.values| == LOCATION_COUNT)
    case _ => true
  }

  predicate OneEach(l: Log) {
    && l.ring.cap == LOG_RING_SLOTS && l.ring.width == LOCATION_COUNT
    && |l.ring.producers| == 1 && |l.ring.consumers| == 1
  }

  function LogFresh(): (l: Log)
    ensures OneEach(l)
  {
    Log(Fresh(LOG_RING_SLOTS, LOCATION_COUNT), 0, 0)
  }

  /** A refused record is counted, up to the top of the word and not past it. */
  function WriteStep(l: Log, values: seq<nat>): (m: Log)
    requires OneEach(l) && |values| == LOCATION_COUNT
    ensures OneEach(m)
  {
    var ring := EnqueueAt(l.ring, 0, values);
    if AppearsFull(l.ring, 0) then
      var dropped := Min(l.dropped + 1, U32_MAX);
      Log(ring, dropped, dropped)
    else l.(ring := ring)
  }

  /** The state after the reader took `n` records while the peer set the tail to
      `forge(0)`, `forge(1)` and so on before each of them. */
  function MovedTo(s: State, forge: nat -> nat, n: nat): (t: State)
    requires |s.producers| == 1 && |s.consumers| == 1 && n < s.cap
    ensures t.cap == s.cap && t.width == s.width && |t.producers| == 1 && |t.consumers| == 1
  {
    if n == 0 then s
    else
      var window, next := Window(s.slots, s.consumers[0], n), Advance(s.consumers[0], n, s.cap);
      assert forall d :: 0 <= d < n ==> |window[d].image| == s.width by {
        WindowIsWide(s, s.consumers[0], n);
      }
      s.(delivered := s.delivered + window, consumers := [next], head := next,
         tail := forge(n - 1), tailForges := s.tailForges + n)
  }

  /** The round a drain under a moving cursor stops in: its budget is spent, or
      the cursor then stands where the reader does. */
  function Stop(at: nat, cap: nat, limit: nat, forge: nat -> nat, n: nat): (k: nat)
    requires at < cap && limit < cap && n <= limit
    ensures n <= k <= limit
    ensures k == limit || Advance(at, k, cap) == Masked(forge(k), cap)
    ensures forall m :: n <= m < k ==> Advance(at, m, cap) != Masked(forge(m), cap)
    decreases limit - n
  {
    if n == limit || Advance(at, n, cap) == Masked(forge(n), cap) then n
    else Stop(at, cap, limit, forge, n + 1)
  }

  /** A drain whose tail the peer moves before every step. */
  function Moving(s: State, limit: nat, forge: nat -> nat): (t: State)
    requires |s.producers| == 1 && |s.consumers| == 1 && limit < s.cap
    ensures t.cap == s.cap && t.width == s.width && |t.producers| == 1 && |t.consumers| == 1
  {
    var k := Stop(s.consumers[0], s.cap, limit, forge, 0);
    Step(MovedTo(s, forge, k), ForgeTail(forge(k)))
  }

  function LogStep(l: Log, op: LogOp): (m: Log)
    requires OneEach(l) && ValidLogOp(op)
    ensures OneEach(m)
  {
    match op
    case Publish(values) => WriteStep(l, values)
    case ReadOne => l.(ring := DequeueAt(l.ring, 0))
    case ReadMany(limit) => l.(ring := DrainAt(l.ring, 0, Min(limit, CAPACITY)))
    case ReadWhileMoving(limit, forge) =>
      l.(ring := Moving(l.ring, Min(limit, CAPACITY), forge))
    case PeerActs(peer) => l.(ring := Step(l.ring, peer))
    case ForgeDropped(word) => l.(published := word)
  }

  function LogRun(ops: seq<LogOp>): (l: Log)
    requires forall k :: 0 <= k < |ops| ==> ValidLogOp(ops[k])
    ensures OneEach(l)
  {
    if ops == [] then LogFresh() else LogStep(LogRun(ops[..|ops| - 1]), ops[|ops| - 1])
  }

  // ------------------------------------------------------------------- drains

  /** The prediction is what happens: while the moved cursor stands elsewhere,
      the next record is one more dequeue. */
  lemma MoveOneMore(s: State, forge: nat -> nat, n: nat)
    requires |s.producers| == 1 && |s.consumers| == 1 && n + 1 < s.cap
    ensures var forged := Step(MovedTo(s, forge, n), ForgeTail(forge(n)));
            && (AppearsEmpty(forged, 0)
                <==> Advance(s.consumers[0], n, s.cap) == Masked(forge(n), s.cap))
            && (!AppearsEmpty(forged, 0) ==> MovedTo(s, forge, n + 1) == DequeueAt(forged, 0))
  {
    var at := s.consumers[0];
    var moved := MovedTo(s, forge, n);
    assert moved.consumers == [Advance(at, n, s.cap)];
    assert moved.delivered == s.delivered + Window(s.slots, at, n);
  }

  // --------------------------------------------------------------- every run

  lemma {:induction false} MovedKeepsSafe(s: State, limit: nat, forge: nat -> nat, n: nat)
    requires Safe(s) && |s.producers| == 1 && |s.consumers| == 1 && limit < s.cap
    requires n <= Stop(s.consumers[0], s.cap, limit, forge, 0)
    ensures Safe(MovedTo(s, forge, n))
  {
    if n > 0 {
      MovedKeepsSafe(s, limit, forge, n - 1);
      StepKeepsSafe(MovedTo(s, forge, n - 1), ForgeTail(forge(n - 1)));
      DequeueKeepsSafe(Step(MovedTo(s, forge, n - 1), ForgeTail(forge(n - 1))), 0);
      MoveOneMore(s, forge, n - 1);
    }
  }

  lemma MovingKeepsSafe(s: State, limit: nat, forge: nat -> nat)
    requires Safe(s) && |s.producers| == 1 && |s.consumers| == 1 && limit < s.cap
    ensures Safe(Moving(s, limit, forge)) && Moving(s, limit, forge).refusals == s.refusals
  {
    var k := Stop(s.consumers[0], s.cap, limit, forge, 0);
    MovedKeepsSafe(s, limit, forge, k);
    StepKeepsSafe(MovedTo(s, forge, k), ForgeTail(forge(k)));
  }

  predicate LogSafe(l: Log) {
    OneEach(l) && Safe(l.ring) && l.dropped == Min(l.ring.refusals, U32_MAX)
  }

  lemma LogStepKeepsSafe(l: Log, op: LogOp)
    requires LogSafe(l) && ValidLogOp(op)
    ensures LogSafe(LogStep(l, op))
  {
    match op
    case Publish(values) => EnqueueKeepsSafe(l.ring, 0, values);
    case ReadOne => DequeueKeepsSafe(l.ring, 0);
    case ReadMany(limit) => DrainKeepsSafe(l.ring, 0, Min(limit, CAPACITY));
    case ReadWhileMoving(limit, forge) =>
      MovingKeepsSafe(l.ring, Min(limit, CAPACITY), forge);
    case PeerActs(peer) => StepKeepsSafe(l.ring, peer);
    case ForgeDropped(_) =>
  }

  lemma {:induction false} LogRunIsSafe(ops: seq<LogOp>)
    requires forall k :: 0 <= k < |ops| ==> ValidLogOp(ops[k])
    ensures LogSafe(LogRun(ops))
  {
    if ops == [] {
      FreshIsSafe(LOG_RING_SLOTS, LOCATION_COUNT);
    } else {
      LogRunIsSafe(ops[..|ops| - 1]);
      LogStepKeepsSafe(LogRun(ops[..|ops| - 1]), ops[|ops| - 1]);
    }
  }

  /** Forged or not, the writer's own count is exactly its refusals, saturating. */
  lemma DropsAreRefusals(ops: seq<LogOp>)
    requires forall k :: 0 <= k < |ops| ==> ValidLogOp(ops[k])
    ensures LogRun(ops).dropped == Min(LogRun(ops).ring.refusals, U32_MAX)
  {
    LogRunIsSafe(ops);
  }

  /** A forged drop count is what the reader sees until the next refusal, which
      publishes the writer's own count over it. */
  lemma ForgedCountIsRepaired(l: Log, word: nat, values: seq<nat>)
    requires LogSafe(l) && |values| == LOCATION_COUNT
    ensures var forged := LogStep(l, ForgeDropped(word));
            && forged.published == word && forged.(published := l.published) == l
            && LogStep(forged, Publish(values)).published
               == if AppearsFull(l.ring, 0) then Min(l.ring.refusals + 1, U32_MAX) else word
  {
  }

  /** What every log-ring run promises about each delivery: an untorn one is
      exactly the record of the one write of its slot (or the zero record), a torn
      one comes from a slot of which the peer stored a single location, and a repeat
      has a forged records cursor behind it. */
  lemma LogDeliveriesHaveCauses(ops: seq<LogOp>, d: nat)
    requires forall k :: 0 <= k < |ops| ==> ValidLogOp(ops[k])
    requires d < |LogRun(ops).ring.delivered|
    ensures var s := LogRun(ops).ring;
            var slot, image := s.delivered[d].slot, s.delivered[d].image;
            && (!Untorn(image) ==> Tampered(s, slot))
            && (Untorn(image) ==>
                  match image[0].origin
                  case Zeroed => Values(image) == seq(LOCATION_COUNT, _ => 0)
                  case Enqueued(n) => n < |s.writes| && s.writes[n] == Write(slot, Values(image))
                  case Peer(n) => n < |s.stores| && s.stores[n] == Whole(slot, Values(image)))
            && (Counted(s.delivered[d]) && HandedOut(s.delivered, Ordinal(s.delivered[d])) > 1 ==>
                  s.tailForges > 0)
  {
    LogRunIsSafe(ops);
    var s := LogRun(ops).ring;
    if Untorn(s.delivered[d].image) { SafeUntornIsOneWrite(s, d); }
    if Solo(s) && Counted(s.delivered[d]) {
      OrderedOnce(s.delivered, Ordinal(s.delivered[d]));
    }
  }

  lemma LogStoresAreKept(l: Log, op: LogOp)
    requires OneEach(l) && ValidLogOp(op)
    ensures var m := LogStep(l, op).ring;
            && |l.ring.stores| <= |m.stores| && m.stores[..|l.ring.stores|] == l.ring.stores
            && (|l.ring.stores| < |m.stores| ==> op.PeerActs? && m.stores == Step(l.ring, op.op).stores)
  {
    if op.PeerActs? { StoresAreKept(l.ring, op.op); }
  }

  lemma {:induction false} LogStoreIsAnOp(ops: seq<LogOp>, x: nat) returns (m: nat)
    requires forall k :: 0 <= k < |ops| ==> ValidLogOp(ops[k])
    requires x < |LogRun(ops).ring.stores| && LogRun(ops).ring.stores[x].Single?
    ensures m < |ops| && ops[m].PeerActs? && ops[m].op.StoreField?
    ensures ops[m].op.slot % LOG_RING_SLOTS == LogRun(ops).ring.stores[x].slot
  {
    var before, last := LogRun(ops[..|ops| - 1]), ops[|ops| - 1];
    LogStoresAreKept(before, last);
    m := |ops| - 1;
    if x < |before.ring.stores| {
      assert LogRun(ops).ring.stores[x] == before.ring.stores[x];
      m := LogStoreIsAnOp(ops[..|ops| - 1], x);
    }
  }

  /** A torn record has, among the operations up to the read that yielded it, the
      peer's store of a single location of the slot it was read from. */
  lemma LogTearHasACause(ops: seq<LogOp>, k: nat, d: nat) returns (m: nat)
    requires k <= |ops| && forall j :: 0 <= j < |ops| ==> ValidLogOp(ops[j])
    requires d < |LogRun(ops[..k]).ring.delivered| && !Untorn(LogRun(ops[..k]).ring.delivered[d].image)
    ensures m < k && ops[m].PeerActs? && ops[m].op.StoreField?
    ensures ops[m].op.slot % LOG_RING_SLOTS == LogRun(ops[..k]).ring.delivered[d].slot
  {
    LogDeliveriesHaveCauses(ops[..k], d);
    var s := LogRun(ops[..k]).ring;
    var x :| 0 <= x < |s.stores| && s.stores[x].Single? && s.stores[x].slot == s.delivered[d].slot;
    m := LogStoreIsAnOp(ops[..k], x);
  }

  // -------------------------------------------------------- the honest log ring

  predicate Plainly(op: LogOp) { op.Publish? || op.ReadOne? || op.ReadMany? }

  function ToRingOp(op: LogOp): Op
    requires Plainly(op)
  {
    match op
    case Publish(values) => Enqueue(0, values)
    case ReadOne => Dequeue(0)
    case ReadMany(limit) => Drain(0, Min(limit, CAPACITY))
  }

  function ToRingOps(ops: seq<LogOp>): (out: seq<Op>)
    requires forall k :: 0 <= k < |ops| ==> Plainly(ops[k])
    ensures |out| == |ops|
    ensures forall k :: 0 <= k < |ops| ==> out[k] == ToRingOp(ops[k])
  {
    seq(|ops|, k requires 0 <= k < |ops| => ToRingOp(ops[k]))
  }

  lemma LogStepIsRingStep(l: Log, op: LogOp)
    requires OneEach(l) && ValidLogOp(op) && Plainly(op)
    ensures ValidOp(l.ring, ToRingOp(op)) && LogStep(l, op).ring == Step(l.ring, ToRingOp(op))
    ensures l.published == l.dropped ==> LogStep(l, op).published == LogStep(l, op).dropped
  {
    assert 0 % |l.ring.producers| == 0 && 0 % |l.ring.consumers| == 0;
  }

  lemma ToRingOpsLast(ops: seq<LogOp>)
    requires ops != [] && forall k :: 0 <= k < |ops| ==> ValidLogOp(ops[k]) && Plainly(ops[k])
    ensures ToRingOps(ops) == ToRingOps(ops[..|ops| - 1]) + [ToRingOp(ops[|ops| - 1])]
  {}

  lemma ToRingOpsValid(ops: seq<LogOp>)
    requires forall k :: 0 <= k < |ops| ==> ValidLogOp(ops[k]) && Plainly(ops[k])
    ensures ValidOps(Fresh(LOG_RING_SLOTS, LOCATION_COUNT), ToRingOps(ops))
    ensures forall k :: 0 <= k < |ops| ==> Honest(ToRingOps(ops)[k])
  {}

  lemma {:induction false} HonestLogIsRing(ops: seq<LogOp>)
    requires forall k :: 0 <= k < |ops| ==> ValidLogOp(ops[k]) && Plainly(ops[k])
    requires ValidOps(Fresh(LOG_RING_SLOTS, LOCATION_COUNT), ToRingOps(ops))
    ensures LogRun(ops).ring == Run(Fresh(LOG_RING_SLOTS, LOCATION_COUNT), ToRingOps(ops))
    ensures LogRun(ops).published == LogRun(ops).dropped
  {
    if ops != [] {
      var before, last := ops[..|ops| - 1], ops[|ops| - 1];
      ToRingOpsValid(before);
      HonestLogIsRing(before);
      LogStepIsRingStep(LogRun(before), last);
      RunThen(Fresh(LOG_RING_SLOTS, LOCATION_COUNT), ToRingOps(before), ToRingOp(last));
      ToRingOpsLast(ops);
    }
  }

  /** With no forged word and no peer store the log ring is a FIFO queue of 63
      records: the console reads the accepted records in order, a record is
      refused exactly when 63 are queued, and the drop count the writer holds and
      publishes is the number of refusals, saturating. */
  lemma HonestLogIsFifo(ops: seq<LogOp>)
    requires forall k :: 0 <= k < |ops| ==> ValidLogOp(ops[k]) && Plainly(ops[k])
    ensures var l, fifo := LogRun(ops), FifoRun(ToRingOps(ops), CAPACITY);
            && |l.ring.delivered| <= |l.ring.writes| && Abstract(l.ring) == fifo
            && l.dropped == l.published == Min(fifo.refused, U32_MAX)
  {
    ToRingOpsValid(ops);
    HonestLogIsRing(ops);
    HonestRunIsFifo(LOG_RING_SLOTS, LOCATION_COUNT, ToRingOps(ops));
    DropsAreRefusals(ops);
  }

  // ------------------------------------------------------- the two live handles

  lemma StopsHere(s: State, limit: nat, forge: nat -> nat, n: nat)
    requires |s.producers| == 1 && |s.consumers| == 1 && n < limit < s.cap
    requires n <= Stop(s.consumers[0], s.cap, limit, forge, 0)
    ensures var forged := Step(MovedTo(s, forge, n), ForgeTail(forge(n)));
            if AppearsEmpty(forged, 0) then
              n == Stop(s.consumers[0], s.cap, limit, forge, 0) && forged == Moving(s, limit, forge)
            else
              && n < Stop(s.consumers[0], s.cap, limit, forge, 0)
              && MovedTo(s, forge, n + 1) == DequeueAt(forged, 0)
  {
    MoveOneMore(s, forge, n);
  }

  /** The peer moves the cursor, then the reader takes a record if it sees one. */
  method MoveThenRead(ring: SharedRing, word: nat) returns (item: Option<seq<nat>>)
    requires ring.Valid() && |ring.producers| == 1 && |ring.consumers| == 1
    modifies ring
    ensures ring.Valid() && |ring.producers| == 1 && |ring.consumers| == 1
    ensures var forged := Step(old(ring.model), ForgeTail(word));
            item == if AppearsEmpty(forged, 0) then None else Some(Values(forged.slots[forged.consumers[0]]))
    ensures ring.model == DequeueAt(Step(old(ring.model), ForgeTail(word)), 0)
  {
    ring.PeerForges(ForgeTail(word));
    item := ring.TryDequeue(0);
  }

  /** Where a drain of `start` under a moving cursor stands after `taken`. */
  ghost predicate Midway(start: State, s: State, limit: nat, forge: nat -> nat, taken: seq<seq<nat>>) {
    && |start.producers| == 1 && |start.consumers| == 1 && limit < start.cap
    && |taken| <= Stop(start.consumers[0], start.cap, limit, forge, 0)
    && s == MovedTo(start, forge, |taken|)
    && |start.delivered| <= |s.delivered| && taken == DeliveredValues(s.delivered[|start.delivered|..])
  }

  /** One round: either the drain is over, or it stands one record further on. */
  lemma OneRound(start: State, s: State, limit: nat, forge: nat -> nat, taken: seq<seq<nat>>)
    requires Midway(start, s, limit, forge, taken) && |taken| < limit
    ensures var forged := Step(s, ForgeTail(forge(|taken|)));
            if AppearsEmpty(forged, 0) then
              && forged == Moving(start, limit, forge) && forged.delivered == s.delivered
              && |taken| == Stop(start.consumers[0], start.cap, limit, forge, 0)
            else
              Midway(start, DequeueAt(forged, 0), limit, forge, taken + [Values(forged.slots[forged.consumers[0]])])
  {
    StopsHere(start, limit, forge, |taken|);
    var forged := Step(s, ForgeTail(forge(|taken|)));
    if !AppearsEmpty(forged, 0) { TakesOne(forged, 0, |start.delivered|, taken); }
  }

  /** The loop of a drain under a moving cursor. */
  method MoveAndRead(ring: SharedRing, limit: nat, forge: nat -> nat) returns (taken: seq<seq<nat>>)
    requires ring.Valid() && |ring.producers| == 1 && |ring.consumers| == 1 && limit < ring.cap
    modifies ring
    ensures ring.Valid() && ring.model == Moving(old(ring.model), limit, forge)
    ensures |taken| == Stop(old(ring.consumers)[0], ring.cap, limit, forge, 0)
    ensures |old(ring.model).delivered| <= |ring.model.delivered|
    ensures taken == DeliveredValues(ring.model.delivered[|old(ring.model).delivered|..])
  {
    taken := [];
    ghost var start := ring.model;
    while |taken| < limit
      invariant ring.Valid() && |ring.producers| == 1 && |ring.consumers| == 1
      invariant Midway(start, ring.model, limit, forge, taken)
    {
      OneRound(start, ring.model, limit, forge, taken);
      var item := MoveThenRead(ring, forge(|taken|));
      if item.None? {
        return;
      }
      taken := taken + [item.value];
    }
    ring.PeerForges(ForgeTail(forge(|taken|)));
  }

  class LogHandles {
    const ring: SharedRing
    var dropped: nat          // the writer's own
    var published: nat        // in the records region, forgeable
    ghost var model: Log

    ghost predicate Valid()
      reads this, ring, ring.words
    {
      ring.Valid() && OneEach(model) && model == Log(ring.model, dropped, published)
    }

    constructor ()
      ensures Valid() && fresh(ring) && fresh(ring.words) && model == LogFresh()
    {
      ring := new SharedRing(LOG_RING_SLOTS, LOCATION_COUNT);
      dropped, published := 0, 0;
      model := LogFresh();
    }

    /** Publish a record, or count it refused. */
    method WriteRecord(values: seq<nat>) returns (accepted: bool)
      requires Valid() && |values| == LOCATION_COUNT
      modifies this, ring, ring.words
      ensures Valid() && model == LogStep(old(model), Publish(values))
      ensures accepted <==> !AppearsFull(old(model).ring, 0)
    {
      accepted := ring.TryEnqueue(0, values);
      if !accepted {
        dropped := Min(dropped + 1, U32_MAX);
        published := dropped;
      }
      model := LogStep(model, Publish(values));
    }

    method ReadRecord() returns (item: Option<seq<nat>>)
      requires Valid()
      modifies this, ring
      ensures Valid() && model == LogStep(old(model), ReadOne)
      ensures item == if AppearsEmpty(old(model).ring, 0) then None
                      else Some(Values(old(model).ring.slots[old(model).ring.consumers[0]]))
    {
      item := ring.TryDequeue(0);
      model := LogStep(model, ReadOne);
    }

    /** A drain of a still ring; the limit is cut to the capacity first. */
    method ReadRecords(limit: nat) returns (taken: seq<seq<nat>>)
      requires Valid()
      modifies this, ring
      ensures Valid() && model == LogStep(old(model), ReadMany(limit))
      ensures |taken| == Min(limit, Min(CAPACITY, Waiting(old(model).ring, 0)))
      ensures |old(model).ring.delivered| <= |model.ring.delivered|
      ensures taken == DeliveredValues(model.ring.delivered[|old(model).ring.delivered|..])
    {
      taken := ring.DrainUpTo(0, Min(limit, CAPACITY));
      model := LogStep(model, ReadMany(limit));
    }

    /** Drain while the peer moves the records cursor before every step. */
    method DrainWhileTheCursorMoves(limit: nat, forge: nat -> nat) returns (taken: seq<seq<nat>>)
      requires Valid()
      modifies this, ring
      ensures Valid() && model == LogStep(old(model), ReadWhileMoving(limit, forge))
      ensures |taken| == Stop(old(ring.consumers)[0], LOG_RING_SLOTS, Min(limit, CAPACITY), forge, 0)
      ensures |taken| <= limit && |taken| <= CAPACITY
      ensures |old(model).ring.delivered| <= |model.ring.delivered|
      ensures taken == DeliveredValues(model.ring.delivered[|old(model).ring.delivered|..])
    {
      taken := MoveAndRead(ring, Min(limit, CAPACITY), forge);
      model := LogStep(model, ReadWhileMoving(limit, forge));
    }
  }
}
