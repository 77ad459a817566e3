/**
 The ring as a queue: how many items a drain yields whatever the cursor says,
 the refinement of a bounded FIFO queue when the peer is honest, and the two
 runs that show a redelivery when it is not.
 */
module RingFifo {
  import opened Ring
  import opened RingSafety
  import Modular

  /** The distance is the masked difference of the two cursors. */
  lemma AheadIsMasked(a: nat, b: nat, cap: nat)
    requires a < cap && b < cap
    ensures Ahead(a, b, cap) == (a + cap - b) % cap
  {
    if b <= a {
      Modular.Small(a - b, cap);
      Modular.AddMultiple(a - b, cap, 1);
    } else {
      Modular.Small(a + cap - b, cap);
    }
  }

  /** The producer's `len`: its position less the published head. */
  function Queued(s: State, p: nat): (n: nat)
    requires p < |s.producers|
    ensures n < s.cap
    ensures n + 1 == s.cap <==> AppearsFull(s, p)
  {
    Ahead(s.producers[p], Masked(s.head, s.cap), s.cap)
  }

  // -------------------------------------------------- the honest ring is a queue

  datatype Fifo = Fifo(queue: seq<seq<nat>>, out: seq<seq<nat>>, refused: nat)

  predicate Honest(op: Op) { op.Enqueue? || op.Dequeue? || op.Drain? }

  /** A queue that holds at most `bound` items and refuses the newest. */
  function FifoStep(f: Fifo, op: Op, bound: nat): Fifo
    requires Honest(op)
  {
    match op
    case Enqueue(_, values) =>
      if |f.queue| >= bound then f.(refused := f.refused + 1)
      else f.(queue := f.queue + [values])
    case Dequeue(_) => Take(f, 1)
    case Drain(_, limit) => Take(f, limit)
  }

  function Take(f: Fifo, limit: nat): Fifo {
    var k := Min(limit, |f.queue|);
    Fifo(f.queue[k..], f.out + f.queue[..k], f.refused)
  }

  function FifoRun(ops: seq<Op>, bound: nat): Fifo
    requires forall k :: 0 <= k < |ops| ==> Honest(ops[k])
  {
    if ops == [] then Fifo([], [], 0)
    else FifoStep(FifoRun(ops[..|ops| - 1], bound), ops[|ops| - 1], bound)
  }

  function WriteValues(writes: seq<Write>): (all: seq<seq<nat>>)
    ensures |all| == |writes|
    ensures forall n :: 0 <= n < |writes| ==> all[n] == writes[n].values
  {
    seq(|writes|, n requires 0 <= n < |writes| => writes[n].values)
  }

  function DeliveredValues(delivered: seq<Delivery>): (all: seq<seq<nat>>)
    ensures |all| == |delivered|
    ensures forall d :: 0 <= d < |delivered| ==> all[d] == Values(delivered[d].image)
  {
    seq(|delivered|, d requires 0 <= d < |delivered| => Values(delivered[d].image))
  }

  /** The queue a ring state stands for: what was accepted and not delivered. */
  function Abstract(s: State): Fifo
    requires |s.delivered| <= |s.writes|
  {
    Fifo(WriteValues(s.writes[|s.delivered|..]), DeliveredValues(s.delivered), s.refusals)
  }

  /** No forged cursor and no peer store so far; the deliveries are exactly the
      first writes. */
  predicate Plain(s: State) {
    && Safe(s) && Solo(s) && s.stores == []
    && s.head == |s.delivered| % s.cap
    && |s.writes| < |s.delivered| + s.cap
    && (forall d :: 0 <= d < |s.delivered| ==> Values(s.delivered[d].image) == s.writes[d].values)
  }

  /** Full means the queue holds one less than the ring has slots. */
  lemma FullIsCapacity(s: State)
    requires Plain(s)
    ensures AppearsFull(s, 0) <==> |s.writes| - |s.delivered| == s.cap - 1
  {
    var t, h := |s.writes|, |s.delivered|;
    NextIsMasked(t, s.cap);
    Modular.Difference(t + 1, h, s.cap);
    if t + 1 - h == s.cap {
      Modular.AddMultiple(0, s.cap, 1);
    } else {
      Modular.Small(t + 1 - h, s.cap);
    }
  }

  lemma EmptyIsDrained(s: State)
    requires Plain(s)
    ensures AppearsEmpty(s, 0) <==> |s.writes| == |s.delivered|
  {
    var t, h := |s.writes|, |s.delivered|;
    Modular.Difference(t, h, s.cap);
    if h < t { Modular.Small(t - h, s.cap); }
  }

  lemma EnqueueIsPush(s: State, values: seq<nat>)
    requires Plain(s) && |values| == s.width
    ensures Plain(EnqueueAt(s, 0, values))
    ensures Abstract(EnqueueAt(s, 0, values))
         == FifoStep(Abstract(s), Enqueue(0, values), s.cap - 1)
  {
    FullIsCapacity(s);
    EnqueueKeepsSafe(s, 0, values);
    if !AppearsFull(s, 0) {
      var t := EnqueueAt(s, 0, values);
      assert t.writes[|s.delivered|..] == s.writes[|s.delivered|..] + [Write(s.producers[0], values)];
    }
  }

  /** The consumer is handed the oldest item of the queue. */
  lemma DequeueIsPop(s: State)
    requires Plain(s)
    ensures Plain(DequeueAt(s, 0))
    ensures |s.writes| == |s.delivered| ==> DequeueAt(s, 0) == s
    ensures |s.writes| > |s.delivered| ==>
              && DequeueAt(s, 0).writes == s.writes
              && DequeueAt(s, 0).refusals == s.refusals
              && |DequeueAt(s, 0).delivered| == |s.delivered| + 1
  {
    EmptyIsDrained(s);
    DequeueKeepsSafe(s, 0);
    if !AppearsEmpty(s, 0) {
      var t, at, h := DequeueAt(s, 0), s.consumers[0], |s.delivered|;
      NextIsMasked(h, s.cap);
      assert Counted(t.delivered[h]);
      ReadsEffectiveHead(s, 0);
      Modular.Small(|s.writes| - h, s.cap);
      assert forall j :: 0 <= j < s.width ==> Sourced(s, at, j, s.slots[at][j]);
      assert Values(s.slots[at]) == s.writes[h].values;
    }
  }

  lemma TakeOneMore(f: Fifo, limit: nat)
    ensures Take(Take(f, limit), 1) == Take(f, limit + 1)
  {
    var k := Min(limit, |f.queue|);
    if k < |f.queue| {
      assert f.queue[..k + 1] == f.queue[..k] + [f.queue[k]];
      assert f.queue[k..][1..] == f.queue[k + 1..];
      assert f.queue[k..][..1] == [f.queue[k]];
    }
  }

  lemma DequeueIsTake(s: State)
    requires Plain(s)
    ensures Plain(DequeueAt(s, 0))
    ensures Abstract(DequeueAt(s, 0)) == Take(Abstract(s), 1)
  {
    DequeueIsPop(s);
    var t, h := DequeueAt(s, 0), |s.delivered|;
    if h < |s.writes| {
      assert WriteValues(s.writes[h..])[1..] == WriteValues(t.writes[h + 1..]);
      assert DeliveredValues(t.delivered)
          == DeliveredValues(s.delivered) + WriteValues(s.writes[h..])[..1];
    }
  }

  lemma TakeStep(t: State, f: Fifo, k: nat)
    requires Plain(t) && Abstract(t) == Take(f, k)
    ensures Plain(DequeueAt(t, 0)) && Abstract(DequeueAt(t, 0)) == Take(f, k + 1)
  {
    DequeueIsTake(t);
    TakeOneMore(f, k);
  }

  predicate Took(f: Fifo, t: State, n: nat) { Plain(t) && Abstract(t) == Take(f, n) }

  lemma ReadIsTake(s: State, k: nat)
    requires Plain(s) && k <= Waiting(s, 0)
    ensures Plain(ReadAt(s, 0, k)) && Abstract(ReadAt(s, 0, k)) == Take(Abstract(s), k)
  {
    var f := Abstract(s);
    var P := (t: State, n: nat) => Took(f, t, n);
    assert Take(f, 0) == f;
    forall t: State, n: nat | 0 < |t.consumers| && P(t, n) ensures P(DequeueAt(t, 0), n + 1) {
      TakeStep(t, f, n);
    }
    ReadInduction(P, s, 0, k);
    assert P(ReadAt(s, 0, k), k);
  }

  /** What waits is what was accepted and not delivered. */
  lemma WaitingIsQueueLength(s: State)
    requires Plain(s)
    ensures Waiting(s, 0) == |Abstract(s).queue| == Queued(s, 0)
  {
    var t, h := |s.writes|, |s.delivered|;
    assert t == h + (t - h) && t - h < s.cap;
    DistanceApart(h, t, s.cap);
  }

  lemma DistanceApart(h: nat, t: nat, cap: nat)
    requires h <= t < h + cap
    ensures Ahead(t % cap, h % cap, cap) == t - h
  {
    var r := h % cap;
    Modular.DifferenceCongruent(t, h, h, cap);
    if r + (t - h) < cap {
      assert t == (h / cap) * cap + (r + (t - h));
      Modular.Unique(t, cap, h / cap, r + (t - h));
    } else {
      assert t == (h / cap + 1) * cap + (r + (t - h) - cap) by {
        assert (h / cap + 1) * cap == (h / cap) * cap + cap;
      }
      Modular.Unique(t, cap, h / cap + 1, r + (t - h) - cap);
    }
  }

  lemma DrainIsTake(s: State, limit: nat)
    requires Plain(s)
    ensures Plain(DrainAt(s, 0, limit))
    ensures Abstract(DrainAt(s, 0, limit)) == Take(Abstract(s), limit)
  {
    WaitingIsQueueLength(s);
    ReadIsTake(s, Min(limit, Waiting(s, 0)));
  }

  lemma {:induction false} HonestRunIsPlain(cap: nat, width: nat, ops: seq<Op>)
    requires cap >= 2 && width >= 1 && ValidOps(Fresh(cap, width), ops)
    requires forall k :: 0 <= k < |ops| ==> Honest(ops[k])
    ensures Plain(Run(Fresh(cap, width), ops))
    ensures Abstract(Run(Fresh(cap, width), ops)) == FifoRun(ops, cap - 1)
  {
    if ops == [] {
      FreshIsSafe(cap, width);
      Modular.Small(0, cap);
    } else {
      var before, op := ops[..|ops| - 1], ops[|ops| - 1];
      HonestRunIsPlain(cap, width, before);
      var s := Run(Fresh(cap, width), before);
      match op
      case Enqueue(side, values) =>
        assert side % 1 == 0;
        EnqueueIsPush(s, values);
      case Dequeue(side) =>
        assert side % 1 == 0;
        DequeueIsTake(s);
      case Drain(side, limit) =>
        assert side % 1 == 0;
        DrainIsTake(s, limit);
    }
  }

  /** With no forged cursor and no peer store the ring refines a FIFO queue of
      one item fewer than it has slots: the deliveries are the accepted writes in
      order, and a write is refused exactly when the queue is full. */
  lemma HonestRunIsFifo(cap: nat, width: nat, ops: seq<Op>)
    requires cap >= 2 && width >= 1 && ValidOps(Fresh(cap, width), ops)
    requires forall k :: 0 <= k < |ops| ==> Honest(ops[k])
    ensures |Run(Fresh(cap, width), ops).delivered| <= |Run(Fresh(cap, width), ops).writes|
    ensures Abstract(Run(Fresh(cap, width), ops)) == FifoRun(ops, cap - 1)
  {
    HonestRunIsPlain(cap, width, ops);
  }

  // ------------------------------------- and a dishonest one can deliver twice

  lemma RunThen(s: State, ops: seq<Op>, op: Op)
    requires ValidOps(s, ops) && ValidOp(s, op)
    ensures ValidOps(s, ops + [op]) && Run(s, ops + [op]) == Step(Run(s, ops), op)
  {
    assert (ops + [op])[..|ops|] == ops;
  }

  /** One item was enqueued and taken, and slot zero still holds it. */
  predicate OneTaken(s: State) {
    && |s.delivered| == 1 && Counted(s.delivered[0]) && s.delivered[0].image == s.slots[0]
    && Ordinal(s.delivered[0]) == 0 && s.consumers == [1] && s.tail == 1
  }

  lemma FirstIsTaken(cap: nat, values: seq<nat>)
    requires cap >= 2 && |values| >= 1
    ensures OneTaken(Step(Step(Fresh(cap, |values|), Enqueue(0, values)), Dequeue(0)))
  {
    var t := Step(Fresh(cap, |values|), Enqueue(0, values));
    assert t.tail == 1 && t.consumers == [0] && t.slots[0] == Stamp(values, Enqueued(0));
  }

  lemma OneIsTaken(cap: nat, values: seq<nat>)
    requires cap >= 2 && |values| >= 1
    ensures ValidOps(Fresh(cap, |values|), [Enqueue(0, values)] + [Dequeue(0)])
    ensures OneTaken(Run(Fresh(cap, |values|), [Enqueue(0, values)] + [Dequeue(0)]))
  {
    var s := Fresh(cap, |values|);
    FirstIsTaken(cap, values);
    assert Run(s, []) == s;
    RunThen(s, [], Enqueue(0, values));
    assert [] + [Enqueue(0, values)] == [Enqueue(0, values)];
    RunThen(s, [Enqueue(0, values)], Dequeue(0));
  }

  /** The same enqueue stands first and last in the history. */
  lemma TwiceHandedOut(delivered: seq<Delivery>, n: nat)
    requires |delivered| >= 2 && Counted(delivered[0]) && Ordinal(delivered[0]) == n
    requires var last := delivered[|delivered| - 1]; Counted(last) && Ordinal(last) == n
    ensures HandedOut(delivered, n) >= 2
  {
    HandedOutOnce(delivered[..|delivered| - 1], n);
  }

  lemma {:induction false} HandedOutOnce(delivered: seq<Delivery>, n: nat)
    requires |delivered| >= 1 && Counted(delivered[0]) && Ordinal(delivered[0]) == n
    ensures HandedOut(delivered, n) >= 1
  {
    if |delivered| > 1 { HandedOutOnce(delivered[..|delivered| - 1], n); }
  }

  /** A second consumer handle starts at zero and re-walks what the first took. */
  lemma SecondConsumerTakesAgain(s: State)
    requires OneTaken(s)
    ensures HandedOut(Step(Step(s, TakeConsumer), Dequeue(1)).delivered, 0) >= 2
  {
    var t := Step(Step(s, TakeConsumer), Dequeue(1));
    assert t.delivered == s.delivered + [Delivery(0, s.slots[0])];
    TwiceHandedOut(t.delivered, 0);
  }

  lemma SecondConsumerRedelivers(cap: nat, values: seq<nat>)
    requires cap >= 2 && |values| >= 1
    ensures var ops := [Enqueue(0, values)] + [Dequeue(0)] + [TakeConsumer] + [Dequeue(1)];
            && ValidOps(Fresh(cap, |values|), ops)
            && HandedOut(Run(Fresh(cap, |values|), ops).delivered, 0) >= 2
  {
    var s, ops := Fresh(cap, |values|), [Enqueue(0, values)] + [Dequeue(0)];
    OneIsTaken(cap, values);
    SecondConsumerTakesAgain(Run(s, ops));
    RunThen(s, ops, TakeConsumer);
    RunThen(s, ops + [TakeConsumer], Dequeue(1));
  }

  /** Set the tail behind the consumer and it reads on through every slot until it
      meets an item a second time. */
  lemma ForgedTailTakesAgain(s: State)
    requires OneTaken(s)
    ensures var t := Step(Step(Step(s, ForgeTail(0)), Drain(0, s.cap)), ForgeTail(1));
            HandedOut(Step(t, Dequeue(0)).delivered, 0) >= 2
  {
    var forged := Step(s, ForgeTail(0));
    assert Waiting(forged, 0) == s.cap - 1;
    var drained := Step(forged, Drain(0, s.cap));
    assert drained.consumers[0] == 0 && drained.slots == s.slots;
    var t := Step(Step(drained, ForgeTail(1)), Dequeue(0));
    assert t.delivered == drained.delivered + [Delivery(0, s.slots[0])];
    assert t.delivered[0] == s.delivered[0];
    TwiceHandedOut(t.delivered, 0);
  }

  lemma ForgedTailRedelivers(cap: nat, values: seq<nat>)
    requires cap >= 2 && |values| >= 1
    ensures var ops := [Enqueue(0, values)] + [Dequeue(0)] + [ForgeTail(0)] + [Drain(0, cap)]
                       + [ForgeTail(1)] + [Dequeue(0)];
            && ValidOps(Fresh(cap, |values|), ops)
            && HandedOut(Run(Fresh(cap, |values|), ops).delivered, 0) >= 2
  {
    var s, ops := Fresh(cap, |values|), [Enqueue(0, values)] + [Dequeue(0)];
    OneIsTaken(cap, values);
    ForgedTailTakesAgain(Run(s, ops));
    RunThen(s, ops, ForgeTail(0));
    RunThen(s, ops + [ForgeTail(0)], Drain(0, cap));
    RunThen(s, ops + [ForgeTail(0)] + [Drain(0, cap)], ForgeTail(1));
    RunThen(s, ops + [ForgeTail(0)] + [Drain(0, cap)] + [ForgeTail(1)], Dequeue(0));
  }
}
