/**
 A bounded ring in memory two domains map at once. One side enqueues, the other
 dequeues, and a byzantine peer may rewrite both published cursors and any word
 of any slot between any two operations.

 `State` is all that is tracked of a run: the shared image with the provenance of
 every word, the private position of every handle, and the history of deliveries.
 `Step` is its operation table and `Run` a whole run. Capacity and slot width are
 fields, so one model covers the descriptor ring (four words a slot) and the log
 ring (156 locations a slot). A cursor is reduced modulo the capacity; the capacity
 of a real ring is a power of two, where that is the source's `& MASK`.
 */
module Ring {

  /** Which write put a value into a slot word: identity by provenance, because
      a peer may store any value, including one this side also enqueued. */
  datatype Origin = Zeroed | Enqueued(ordinal: nat) | Peer(ordinal: nat)

  datatype Cell = Cell(value: nat, origin: Origin)

  /** One accepted enqueue, and the slot it went to. */
  datatype Write = Write(slot: nat, values: seq<nat>)

  /** One peer store: a whole slot, or a single word of one. */
  datatype Store =
    | Whole(slot: nat, values: seq<nat>)
    | Single(slot: nat, field: nat, value: nat)

  /** One slot image handed to a consumer. */
  datatype Delivery = Delivery(slot: nat, image: seq<Cell>)

  datatype Op =
    | Enqueue(side: nat, values: seq<nat>)
    | Dequeue(side: nat)
    | Drain(side: nat, limit: nat)
    | ForgeHead(word: nat)
    | ForgeTail(word: nat)
    | StoreSlot(slot: nat, values: seq<nat>)
    | StoreField(slot: nat, field: nat, value: nat)
    | TakeProducer
    | TakeConsumer

  datatype Raw = State(
    cap: nat,
    width: nat,
    slots: seq<seq<Cell>>,
    head: nat,                    // published by the consumer, forgeable
    tail: nat,                    // published by the producer, forgeable
    producers: seq<nat>,          // private position of each handle
    consumers: seq<nat>,
    writes: seq<Write>,           // accepted enqueues, by ordinal
    refusals: nat,
    stores: seq<Store>,           // peer stores, by ordinal
    delivered: seq<Delivery>,     // everything handed to a consumer, in order
    tailForges: nat,
    headForges: nat)

  // ---------------------------------------------------------------- the image

  function Values(slot: seq<Cell>): (values: seq<nat>)
    ensures |values| == |slot|
    ensures forall j :: 0 <= j < |slot| ==> values[j] == slot[j].value
  {
    seq(|slot|, j requires 0 <= j < |slot| => slot[j].value)
  }

  function Stamp(values: seq<nat>, origin: Origin): (slot: seq<Cell>)
    ensures |slot| == |values|
    ensures forall j :: 0 <= j < |slot| ==> slot[j] == Cell(values[j], origin)
  {
    seq(|values|, j requires 0 <= j < |values| => Cell(values[j], origin))
  }

  /** Every word of the slot came from one write. */
  predicate Untorn(slot: seq<Cell>) {
    forall j :: 0 <= j < |slot| ==> slot[j].origin == slot[0].origin
  }

  /** Every part of the state is as long as the geometry says. */
  predicate Well(s: Raw) {
    && s.cap >= 2 && s.width >= 1
    && |s.slots| == s.cap
    && (forall i :: 0 <= i < s.cap ==> |s.slots[i]| == s.width)
    && |s.producers| >= 1 && |s.consumers| >= 1
    && (forall p :: 0 <= p < |s.producers| ==> s.producers[p] < s.cap)
    && (forall c :: 0 <= c < |s.consumers| ==> s.consumers[c] < s.cap)
    && (forall n :: 0 <= n < |s.writes| ==> |s.writes[n].values| == s.width)
    && (forall k :: 0 <= k < |s.stores| && s.stores[k].Whole? ==> |s.stores[k].values| == s.width)
    && (forall d :: 0 <= d < |s.delivered| ==> |s.delivered[d].image| == s.width)
  }

  type State = s: Raw | Well(s)
    witness State(2, 1, [[Cell(0, Zeroed)], [Cell(0, Zeroed)]], 0, 0, [0], [0], [], 0, [], [], 0, 0)

  predicate ValidOp(s: State, op: Op) {
    (op.Enqueue? || op.StoreSlot?) ==> |op.values| == s.width
  }

  function Fresh(cap: nat, width: nat): (s: State)
    requires cap >= 2 && width >= 1
    ensures s.cap == cap && s.width == width
  {
    State(cap, width, seq(cap, _ => seq(width, _ => Cell(0, Zeroed))), 0, 0, [0], [0],
          [], 0, [], [], 0, 0)
  }

  // --------------------------------------------------------------- operations

  /** A published word reduced into the ring, as the source masks it:
      `RingSafety.MaskedIsRemainder` says it is the remainder. */
  function Masked(word: nat, cap: nat): (position: nat)
    requires cap > 0
    ensures position < cap
  {
    if word < cap then word else Masked(word - cap, cap)
  }

  /** The next position: `RingSafety.NextIsMasked` says it is one more, masked. */
  function Next(at: nat, cap: nat): (next: nat)
    requires at < cap
    ensures next < cap
  {
    if at + 1 == cap then 0 else at + 1
  }

  /** Fullness, judged against the published head. */
  predicate AppearsFull(s: State, p: nat)
    requires p < |s.producers|
  {
    Next(s.producers[p], s.cap) == Masked(s.head, s.cap)
  }

  /** Emptiness, judged against the published tail. */
  predicate AppearsEmpty(s: State, c: nat)
    requires c < |s.consumers|
  {
    s.consumers[c] == Masked(s.tail, s.cap)
  }

  function EnqueueAt(s: State, p: nat, values: seq<nat>): (t: State)
    requires p < |s.producers| && |values| == s.width
    ensures t.cap == s.cap && t.width == s.width
  {
    if AppearsFull(s, p) then
      s.(refusals := s.refusals + 1)
    else
      var at, next := s.producers[p], Next(s.producers[p], s.cap);
      s.(slots := s.slots[at := Stamp(values, Enqueued(|s.writes|))],
         writes := s.writes + [Write(at, values)],
         producers := s.producers[p := next],
         tail := next)
  }

  function DequeueAt(s: State, c: nat): (t: State)
    requires c < |s.consumers|
    ensures t.cap == s.cap && t.width == s.width && |t.consumers| == |s.consumers|
  {
    if AppearsEmpty(s, c) then s
    else
      var at, next := s.consumers[c], Next(s.consumers[c], s.cap);
      s.(delivered := s.delivered + [Delivery(at, s.slots[at])],
         consumers := s.consumers[c := next],
         head := next)
  }

  /** How far `a` stands ahead of `b` around the ring: the masked difference of
      the two cursors (`RingFifo.AheadIsMasked`). */
  function Ahead(a: nat, b: nat, cap: nat): (n: nat)
    requires a < cap && b < cap
    ensures n < cap
  {
    if b <= a then a - b else a + cap - b
  }

  /** The position `k` slots on from `at`. */
  function Advance(at: nat, k: nat, cap: nat): (position: nat)
    requires at < cap && k < cap
    ensures position < cap
  {
    if at + k < cap then at + k else at + k - cap
  }

  /** A consumer's `len`: the slots from its own position to the published tail. */
  function Waiting(s: State, c: nat): (n: nat)
    requires c < |s.consumers|
    ensures n < s.cap
    ensures n == 0 <==> AppearsEmpty(s, c)
  {
    Ahead(Masked(s.tail, s.cap), s.consumers[c], s.cap)
  }

  /** The `k` slots met walking forward from `at`. */
  function Window(slots: seq<seq<Cell>>, at: nat, k: nat): (window: seq<Delivery>)
    requires at < |slots| && k < |slots|
    ensures |window| == k
    decreases k
  {
    if k == 0 then []
    else var last := Advance(at, k - 1, |slots|);
         Window(slots, at, k - 1) + [Delivery(last, slots[last])]
  }

  /** The state after consumer `c` has read `k` slots from its own position. */
  function ReadAt(s: State, c: nat, k: nat): (t: State)
    requires c < |s.consumers| && k <= Waiting(s, c)
    ensures t.cap == s.cap && t.width == s.width && |t.consumers| == |s.consumers|
  {
    if k == 0 then s
    else
      var window, next := Window(s.slots, s.consumers[c], k), Advance(s.consumers[c], k, s.cap);
      assert forall d :: 0 <= d < k ==> |window[d].image| == s.width by {
        WindowIsWide(s, s.consumers[c], k);
      }
      s.(delivered := s.delivered + window,
         consumers := s.consumers[c := next],
         head := next)
  }

  lemma {:induction false} WindowIsWide(s: State, at: nat, k: nat)
    requires at < s.cap && k < s.cap
    ensures forall d :: 0 <= d < k ==> |Window(s.slots, at, k)[d].image| == s.width
  {
    if k > 0 { WindowIsWide(s, at, k - 1); }
  }

  function Min(a: nat, b: nat): nat { if a < b then a else b }

  /** A drain predicted whole: nothing in it changes a slot or the tail, so what
      it reads is settled by the limit and by how far the tail stands ahead. */
  function DrainAt(s: State, c: nat, limit: nat): (t: State)
    requires c < |s.consumers|
    ensures t.cap == s.cap && t.width == s.width && |t.consumers| == |s.consumers|
  {
    ReadAt(s, c, Min(limit, Waiting(s, c)))
  }

  function StoreSlotAt(s: State, slot: nat, values: seq<nat>): (t: State)
    requires |values| == s.width
    ensures t.cap == s.cap && t.width == s.width
  {
    var at := slot % s.cap;
    s.(slots := s.slots[at := Stamp(values, Peer(|s.stores|))],
       stores := s.stores + [Whole(at, values)])
  }

  function StoreFieldAt(s: State, slot: nat, field: nat, value: nat): (t: State)
    ensures t.cap == s.cap && t.width == s.width
  {
    var at, f := slot % s.cap, field % s.width;
    s.(slots := s.slots[at := s.slots[at][f := Cell(value, Peer(|s.stores|))]],
       stores := s.stores + [Single(at, f, value)])
  }

  function Step(s: State, op: Op): (t: State)
    requires ValidOp(s, op)
    ensures t.cap == s.cap && t.width == s.width
  {
    match op
    case Enqueue(side, values) => EnqueueAt(s, side % |s.producers|, values)
    case Dequeue(side) => DequeueAt(s, side % |s.consumers|)
    case Drain(side, limit) => DrainAt(s, side % |s.consumers|, limit)
    case ForgeHead(word) => s.(head := word, headForges := s.headForges + 1)
    case ForgeTail(word) => s.(tail := word, tailForges := s.tailForges + 1)
    case StoreSlot(slot, values) => StoreSlotAt(s, slot, values)
    case StoreField(slot, field, value) => StoreFieldAt(s, slot, field, value)
    case TakeProducer => s.(producers := s.producers + [0])
    case TakeConsumer => s.(consumers := s.consumers + [0])
  }

  predicate ValidOps(s: State, ops: seq<Op>) {
    forall k :: 0 <= k < |ops| ==> ValidOp(s, ops[k])
  }

  /** A whole run from `s`. */
  function Run(s: State, ops: seq<Op>): (t: State)
    requires ValidOps(s, ops)
    ensures t.cap == s.cap && t.width == s.width
  {
    if ops == [] then s
    else Step(Run(s, ops[..|ops| - 1]), ops[|ops| - 1])
  }
}
