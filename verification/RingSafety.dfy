/**
 What every run of the ring keeps, whatever the peer does.

 The central claim is that an enqueue is never delivered twice while the peer
 forges no `tail` and each side has one handle, even though a forged `head` lets
 the producer lap the consumer and overwrite slots it never read. With `T`
 accepted enqueues and `H` deliveries, the slot the consumer reads holds, of the
 enqueues congruent to `H`, the latest: `EffectiveHead(T, H)`. That number never
 falls, grows by one on every delivery, and is the only ordinal a delivery can
 carry.
 */
module RingSafety {
  import opened Ring
  import Modular

  predicate StoreWrote(store: Store, slot: nat, field: nat, value: nat) {
    match store
    case Whole(at, values) => at == slot && field < |values| && values[field] == value
    case Single(at, f, v) => at == slot && f == field && v == value
  }

  /** The word holds exactly what the write it is attributed to put there. */
  predicate Sourced(s: State, slot: nat, field: nat, cell: Cell) {
    match cell.origin
    case Zeroed => cell.value == 0
    case Enqueued(n) =>
      && n < |s.writes|
      && s.writes[n].slot == slot
      && field < |s.writes[n].values|
      && s.writes[n].values[field] == cell.value
    case Peer(n) => n < |s.stores| && StoreWrote(s.stores[n], slot, field, cell.value)
  }

  /** Every word in the image, and every word ever delivered, is exactly what
      one write put into that word of that slot. */
  predicate AllSourced(s: State)
  {
    && (forall i, j :: 0 <= i < s.cap && 0 <= j < s.width ==> Sourced(s, i, j, s.slots[i][j]))
    && (forall d, j :: 0 <= d < |s.delivered| && 0 <= j < s.width ==>
          Sourced(s, s.delivered[d].slot, j, s.delivered[d].image[j]))
  }

  /** Some single word of this slot was stored. */
  predicate Tampered(s: State, slot: nat) {
    exists k :: 0 <= k < |s.stores| && s.stores[k].Single? && s.stores[k].slot == slot
  }

  /** Nothing is torn in, or out of, a slot of which no single word was stored. */
  predicate Coherent(s: State) {
    && (forall i :: 0 <= i < |s.slots| && !Untorn(s.slots[i]) ==> Tampered(s, i))
    && (forall d :: 0 <= d < |s.delivered| && !Untorn(s.delivered[d].image) ==> Tampered(s, s.delivered[d].slot))
  }

  /** A single producer, a single consumer, and the tail never forged. */
  predicate Solo(s: State) {
    s.tailForges == 0 && |s.producers| == 1 && |s.consumers| == 1
  }

  /** A delivery of one of this side's enqueues, whole. */
  predicate Counted(d: Delivery) {
    |d.image| > 0 && Untorn(d.image) && d.image[0].origin.Enqueued?
  }

  function Ordinal(d: Delivery): nat
    requires Counted(d)
  {
    d.image[0].origin.ordinal
  }

  function EffectiveHead(t: nat, h: nat, cap: nat): (e: nat)
    requires h <= t && cap > 0
    ensures h <= e <= t
  {
    assert (t - h) % cap <= t - h;
    t - (t - h) % cap
  }

  /** Deliveries of enqueues come in strictly increasing ordinal order. */
  predicate InOrder(delivered: seq<Delivery>) {
    forall a, b :: 0 <= a < b < |delivered| && Counted(delivered[a]) && Counted(delivered[b]) ==>
      Ordinal(delivered[a]) < Ordinal(delivered[b])
  }

  predicate Positions(s: State)
  {
    var t, h := |s.writes|, |s.delivered|;
    && h <= t
    && |s.producers| == 1 && s.producers[0] == t % s.cap
    && |s.consumers| == 1 && s.consumers[0] == h % s.cap
    && s.tail == t % s.cap
    && (forall n :: 0 <= n < t ==> s.writes[n].slot == n % s.cap)
  }

  /** Every enqueue still in the image is one of the last `cap`. */
  predicate Recent(s: State)
  {
    forall i, j :: 0 <= i < s.cap && 0 <= j < s.width && s.slots[i][j].origin.Enqueued? ==>
      |s.writes| <= s.slots[i][j].origin.ordinal + s.cap
  }

  /** Where no peer stored anything, every slot written holds an enqueue. */
  predicate Written(s: State)
  {
    s.stores == [] ==>
      && (forall i, j :: 0 <= i < s.cap && i < |s.writes| && 0 <= j < s.width ==>
            s.slots[i][j].origin.Enqueued?)
      && (forall d :: 0 <= d < |s.delivered| ==> Counted(s.delivered[d]))
  }

  predicate Ordered(s: State)
    requires Positions(s)
  {
    var e := EffectiveHead(|s.writes|, |s.delivered|, s.cap);
    && (forall d :: 0 <= d < |s.delivered| && Counted(s.delivered[d]) ==> Ordinal(s.delivered[d]) < e)
    && InOrder(s.delivered)
  }

  predicate Tracked(s: State)
  {
    Positions(s) && Recent(s) && Written(s) && Ordered(s)
  }

  /** The invariant of every run. */
  predicate Safe(s: State) {
    AllSourced(s) && Coherent(s) && (Solo(s) ==> Tracked(s))
  }

  lemma {:induction false} MaskedIsRemainder(word: nat, cap: nat)
    requires cap > 0
    ensures Masked(word, cap) == word % cap
  {
    if word < cap {
      Modular.Small(word, cap);
    } else {
      MaskedIsRemainder(word - cap, cap);
      Modular.AddMultiple(word - cap, cap, 1);
    }
  }

  /** A position is advanced as the source advances it: plus one, masked. */
  lemma NextIsMasked(x: nat, cap: nat)
    requires cap > 0
    ensures Next(x % cap, cap) == (x % cap + 1) % cap == (x + 1) % cap
  {
    Modular.Successor(x, cap);
  }

  // ------------------------------------------------- the effective head's laws

  lemma HeadAfterEnqueue(t: nat, h: nat, cap: nat)
    requires h <= t && cap > 0
    ensures EffectiveHead(t, h, cap) <= EffectiveHead(t + 1, h, cap)
  {
    Modular.Successor(t - h, cap);
  }

  lemma HeadAfterDelivery(t: nat, h: nat, cap: nat)
    requires h < t && cap > 0 && h % cap != t % cap
    ensures EffectiveHead(t, h + 1, cap) == EffectiveHead(t, h, cap) + 1
  {
    Modular.Difference(t, h, cap);
    Modular.Successor(t - h - 1, cap);
  }

  /** The latest of the last `cap` enqueues in the reader's slot. */
  lemma HeadIsLatest(t: nat, h: nat, cap: nat, n: nat)
    requires h < t && cap > 0 && h % cap != t % cap
    requires n % cap == h % cap && n < t <= n + cap
    ensures n == EffectiveHead(t, h, cap)
  {
    Modular.Difference(t, h, cap);
    Modular.DifferenceCongruent(t, n, h, cap);
    Modular.Difference(t, n, cap);
    if t - n < cap {
      Modular.Small(t - n, cap);
    } else {
      Modular.AddMultiple(0, cap, 1);
    }
  }

  // ---------------------------------------------------------- the steps keep it

  lemma EnqueueKeepsRecent(s: State, p: nat, values: seq<nat>)
    requires AllSourced(s) && Positions(s) && Recent(s) && p == 0 && |values| == s.width
    requires !AppearsFull(s, p)
    ensures Recent(EnqueueAt(s, p, values))
  {
    var t := EnqueueAt(s, p, values);
    var at, now := s.producers[p], |s.writes|;
    forall i, j | 0 <= i < t.cap && 0 <= j < t.width && t.slots[i][j].origin.Enqueued?
      ensures |t.writes| <= t.slots[i][j].origin.ordinal + t.cap
    {
      if i != at {
        assert Sourced(s, i, j, s.slots[i][j]);
        var n := s.slots[i][j].origin.ordinal;
        assert n % s.cap == i && now % s.cap == at;
        if n + s.cap == now { Modular.AddMultiple(n, s.cap, 1); }
      }
    }
  }

  lemma EnqueueKeepsImage(s: State, p: nat, values: seq<nat>)
    requires AllSourced(s) && Coherent(s) && p < |s.producers| && |values| == s.width
    ensures AllSourced(EnqueueAt(s, p, values)) && Coherent(EnqueueAt(s, p, values))
  {
  }

  lemma EnqueueKeepsTracked(s: State, values: seq<nat>)
    requires AllSourced(s) && Solo(s) && Tracked(s) && |values| == s.width
    ensures Tracked(EnqueueAt(s, 0, values))
  {
    var t := EnqueueAt(s, 0, values);
    if !AppearsFull(s, 0) {
      NextIsMasked(|s.writes|, s.cap);
      EnqueueKeepsRecent(s, 0, values);
      HeadAfterEnqueue(|s.writes|, |s.delivered|, s.cap);
      if s.stores == [] {
        forall i, j | 0 <= i < t.cap && i < |t.writes| && 0 <= j < t.width
          ensures t.slots[i][j].origin.Enqueued?
        {
          if i == |s.writes| { Modular.Small(i, s.cap); }
        }
      }
    }
  }

  lemma EnqueueKeepsSafe(s: State, p: nat, values: seq<nat>)
    requires Safe(s) && p < |s.producers| && |values| == s.width
    ensures Safe(EnqueueAt(s, p, values))
  {
    EnqueueKeepsImage(s, p, values);
    if Solo(s) { EnqueueKeepsTracked(s, values); }
  }

  /** Of all the words of the slot the consumer reads, those that are an enqueue's
      are the effective head's. */
  lemma ReadsEffectiveHead(s: State, j: nat)
    requires AllSourced(s) && Positions(s) && Recent(s) && !AppearsEmpty(s, 0) && j < s.width
    requires s.slots[s.consumers[0]][j].origin.Enqueued?
    ensures s.slots[s.consumers[0]][j].origin.ordinal
         == EffectiveHead(|s.writes|, |s.delivered|, s.cap)
    ensures s.slots[s.consumers[0]][j].origin.ordinal < |s.writes|
  {
    var at, t, h := s.consumers[0], |s.writes|, |s.delivered|;
    var n := s.slots[at][j].origin.ordinal;
    assert Sourced(s, at, j, s.slots[at][j]);
    assert n < t && n % s.cap == at == h % s.cap;
    assert t <= n + s.cap;
    assert t % s.cap == s.tail == Masked(s.tail, s.cap);
    HeadIsLatest(t, h, s.cap, n);
  }

  lemma DequeueKeepsPositions(s: State)
    requires Positions(s) && !AppearsEmpty(s, 0)
    ensures Positions(DequeueAt(s, 0))
    ensures |s.delivered| < |s.writes| && |s.delivered| % s.cap != |s.writes| % s.cap
    ensures EffectiveHead(|s.writes|, |s.delivered| + 1, s.cap)
         == EffectiveHead(|s.writes|, |s.delivered|, s.cap) + 1
  {
    assert s.tail == Masked(s.tail, s.cap);
    NextIsMasked(|s.delivered|, s.cap);
    HeadAfterDelivery(|s.writes|, |s.delivered|, s.cap);
  }

  lemma DequeueKeepsWritten(s: State)
    requires Coherent(s) && Positions(s) && Written(s) && !AppearsEmpty(s, 0)
    ensures Written(DequeueAt(s, 0))
  {
    var t, at := DequeueAt(s, 0), s.consumers[0];
    if s.stores == [] {
      assert at < |s.writes| by {
        DequeueKeepsPositions(s);
        Modular.AtMost(|s.delivered|, s.cap);
      }
      assert s.slots[at][0].origin.Enqueued?;
      assert Untorn(s.slots[at]);
      assert t.delivered == s.delivered + [Delivery(at, s.slots[at])];
    }
  }

  lemma DequeueKeepsOrdered(s: State)
    requires AllSourced(s) && Positions(s) && Recent(s) && Ordered(s)
    requires !AppearsEmpty(s, 0)
    ensures Positions(DequeueAt(s, 0)) && Ordered(DequeueAt(s, 0))
  {
    DequeueKeepsPositions(s);
    if s.slots[s.consumers[0]][0].origin.Enqueued? { ReadsEffectiveHead(s, 0); }
  }

  lemma DequeueKeepsSafe(s: State, c: nat)
    requires Safe(s) && c < |s.consumers|
    ensures Safe(DequeueAt(s, c))
    ensures Solo(DequeueAt(s, c)) == Solo(s)
  {
    if !AppearsEmpty(s, c) && Solo(s) {
      DequeueKeepsWritten(s);
      DequeueKeepsOrdered(s);
    }
  }

  /** A read of one slot more is one more dequeue. */
  lemma ReadOneMore(s: State, c: nat, k: nat)
    requires c < |s.consumers| && k < Waiting(s, c)
    ensures !AppearsEmpty(ReadAt(s, c, k), c)
    ensures ReadAt(s, c, k + 1) == DequeueAt(ReadAt(s, c, k), c)
  {
    var t, at := ReadAt(s, c, k), s.consumers[c];
    assert t.consumers[c] == Advance(at, k, s.cap);
    assert t.delivered == s.delivered + Window(s.slots, at, k);
    assert s.consumers[c := Advance(at, k, s.cap)][c := Advance(at, k + 1, s.cap)]
        == s.consumers[c := Advance(at, k + 1, s.cap)];
  }

  /** What every dequeue keeps, or counts up by one, a drain keeps and counts. */
  lemma {:induction false} ReadInduction(P: (State, nat) -> bool, s: State, c: nat, k: nat)
    requires c < |s.consumers| && k <= Waiting(s, c) && P(s, 0)
    requires forall t: State, n: nat {:trigger P(t, n), DequeueAt(t, c)} ::
               c < |t.consumers| && P(t, n) ==> P(DequeueAt(t, c), n + 1)
    ensures P(ReadAt(s, c, k), k)
  {
    if k > 0 {
      ReadInduction(P, s, c, k - 1);
      ReadOneMore(s, c, k - 1);
    }
  }

  lemma DrainKeepsSafe(s: State, c: nat, limit: nat)
    requires Safe(s) && c < |s.consumers|
    ensures Safe(DrainAt(s, c, limit))
  {
    var P := (t: State, _: nat) => Safe(t);
    forall t: State, n: nat | c < |t.consumers| && P(t, n) ensures P(DequeueAt(t, c), n + 1) {
      DequeueKeepsSafe(t, c);
    }
    var k := Min(limit, Waiting(s, c));
    ReadInduction(P, s, c, k);
    assert P(DrainAt(s, c, limit), k);
  }

  /** One store more: what was tampered with stays so, and the slot stored to is
      whole again or tampered with. */
  lemma StoreKeepsCoherent(s: State, t: State, at: nat)
    requires Coherent(s) && t.delivered == s.delivered && |t.slots| == |s.slots|
    requires at < |s.slots| && forall i :: 0 <= i < |s.slots| && i != at ==> t.slots[i] == s.slots[i]
    requires |t.stores| == |s.stores| + 1 && t.stores[..|s.stores|] == s.stores
    requires t.stores[|s.stores|].slot == at && (t.stores[|s.stores|].Single? || Untorn(t.slots[at]))
    ensures Coherent(t)
  {
    forall i | Tampered(s, i) ensures Tampered(t, i) {
      var k :| 0 <= k < |s.stores| && s.stores[k].Single? && s.stores[k].slot == i;
      assert t.stores[k] == s.stores[k];
    }
    if t.stores[|s.stores|].Single? { assert Tampered(t, at); }
  }

  lemma StoreSlotKeepsSafe(s: State, slot: nat, values: seq<nat>)
    requires Safe(s) && |values| == s.width
    ensures Safe(StoreSlotAt(s, slot, values))
  {
    StoreKeepsCoherent(s, StoreSlotAt(s, slot, values), slot % s.cap);
  }

  lemma StoreFieldKeepsSafe(s: State, slot: nat, field: nat, value: nat)
    requires Safe(s)
    ensures Safe(StoreFieldAt(s, slot, field, value))
  {
    StoreKeepsCoherent(s, StoreFieldAt(s, slot, field, value), slot % s.cap);
  }

  lemma SameImage(s: State, t: State)
    requires AllSourced(s) && Coherent(s)
    requires t.cap == s.cap && t.width == s.width && t.slots == s.slots
    requires t.writes == s.writes && t.stores == s.stores && t.delivered == s.delivered
    ensures AllSourced(t) && Coherent(t)
  {
    forall i | Tampered(s, i) ensures Tampered(t, i) {}
  }

  lemma ForgeKeepsSafe(s: State, op: Op)
    requires Safe(s) && (op.ForgeHead? || op.ForgeTail?)
    ensures Safe(Step(s, op))
  {
    SameImage(s, Step(s, op));
  }

  lemma HandleKeepsSafe(s: State, op: Op)
    requires Safe(s) && (op.TakeProducer? || op.TakeConsumer?)
    ensures Safe(Step(s, op))
  {
    SameImage(s, Step(s, op));
    assert !Solo(Step(s, op));
  }

  lemma StepKeepsSafe(s: State, op: Op)
    requires Safe(s) && ValidOp(s, op)
    ensures Safe(Step(s, op))
  {
    match op
    case Enqueue(side, values) => EnqueueKeepsSafe(s, side % |s.producers|, values);
    case Dequeue(side) => DequeueKeepsSafe(s, side % |s.consumers|);
    case Drain(side, limit) => DrainKeepsSafe(s, side % |s.consumers|, limit);
    case StoreSlot(slot, values) => StoreSlotKeepsSafe(s, slot, values);
    case StoreField(slot, field, value) => StoreFieldKeepsSafe(s, slot, field, value);
    case ForgeHead(_) => ForgeKeepsSafe(s, op);
    case ForgeTail(_) => ForgeKeepsSafe(s, op);
    case TakeProducer => HandleKeepsSafe(s, op);
    case TakeConsumer => HandleKeepsSafe(s, op);
  }

  lemma {:induction false} RunKeepsSafe(s: State, ops: seq<Op>)
    requires Safe(s) && ValidOps(s, ops)
    ensures Safe(Run(s, ops))
  {
    if ops != [] {
      var before := ops[..|ops| - 1];
      RunKeepsSafe(s, before);
      StepKeepsSafe(Run(s, before), ops[|ops| - 1]);
    }
  }

  lemma FreshIsSafe(cap: nat, width: nat)
    requires cap >= 2 && width >= 1
    ensures Safe(Fresh(cap, width))
  {
    Modular.Small(0, cap);
  }

  // -------------------------------------------------------------- the theorems

  /** How often enqueue `n` has been handed out whole: the ledger's count. */
  function HandedOut(delivered: seq<Delivery>, n: nat): nat {
    if delivered == [] then 0
    else
      var last := delivered[|delivered| - 1];
      HandedOut(delivered[..|delivered| - 1], n)
      + if Counted(last) && Ordinal(last) == n then 1 else 0
  }

  /** Ordinals that only rise are each handed out at most once. */
  lemma {:induction false} OrderedOnce(delivered: seq<Delivery>, n: nat)
    requires InOrder(delivered)
    ensures HandedOut(delivered, n) <= 1
    ensures HandedOut(delivered, n) == 1 ==>
              exists d :: 0 <= d < |delivered| && Counted(delivered[d]) && Ordinal(delivered[d]) == n
  {
    if delivered != [] {
      OrderedOnce(delivered[..|delivered| - 1], n);
    }
  }

  /** A redelivery always has a cause: a forged tail or a second handle. */
  lemma RedeliveryHasACause(cap: nat, width: nat, ops: seq<Op>, n: nat)
    requires cap >= 2 && width >= 1 && ValidOps(Fresh(cap, width), ops)
    requires HandedOut(Run(Fresh(cap, width), ops).delivered, n) > 1
    ensures var s := Run(Fresh(cap, width), ops);
            s.tailForges > 0 || |s.producers| > 1 || |s.consumers| > 1
  {
    FreshIsSafe(cap, width);
    RunKeepsSafe(Fresh(cap, width), ops);
    if Solo(Run(Fresh(cap, width), ops)) {
      OrderedOnce(Run(Fresh(cap, width), ops).delivered, n);
    }
  }

  /** Without one, this side's enqueues come out whole in strictly increasing
      ordinal order, however often the producer lapped the consumer. */
  lemma DeliveriesAreInOrder(cap: nat, width: nat, ops: seq<Op>)
    requires cap >= 2 && width >= 1 && ValidOps(Fresh(cap, width), ops)
    requires Solo(Run(Fresh(cap, width), ops))
    ensures InOrder(Run(Fresh(cap, width), ops).delivered)
  {
    FreshIsSafe(cap, width);
    RunKeepsSafe(Fresh(cap, width), ops);
  }

  lemma {:induction false} SingleStoreIsAnOp(s: State, ops: seq<Op>, x: nat) returns (m: nat)
    requires ValidOps(s, ops) && s.stores == [] && x < |Run(s, ops).stores| && Run(s, ops).stores[x].Single?
    ensures m < |ops| && ops[m].StoreField? && ops[m].slot % s.cap == Run(s, ops).stores[x].slot
  {
    var before := Run(s, ops[..|ops| - 1]);
    m := |ops| - 1;
    if x < |before.stores| {
      StoresAreKept(before, ops[|ops| - 1]);
      m := SingleStoreIsAnOp(s, ops[..|ops| - 1], x);
    }
  }

  lemma StoresAreKept(s: State, op: Op)
    requires ValidOp(s, op)
    ensures |s.stores| <= |Step(s, op).stores| && Step(s, op).stores[..|s.stores|] == s.stores
  {
  }

  /** A torn delivery always has a cause: among the operations up to the one that
      delivered it, a peer's store of a single word of that very slot. */
  lemma TearHasACause(cap: nat, width: nat, ops: seq<Op>, k: nat, d: nat) returns (m: nat)
    requires cap >= 2 && width >= 1 && ValidOps(Fresh(cap, width), ops) && k <= |ops|
    requires d < |Run(Fresh(cap, width), ops[..k]).delivered|
    requires !Untorn(Run(Fresh(cap, width), ops[..k]).delivered[d].image)
    ensures m < k && ops[m].StoreField?
    ensures ops[m].slot % cap == Run(Fresh(cap, width), ops[..k]).delivered[d].slot
  {
    FreshIsSafe(cap, width);
    RunKeepsSafe(Fresh(cap, width), ops[..k]);
    var s := Run(Fresh(cap, width), ops[..k]);
    assert Tampered(s, s.delivered[d].slot);
    var x :| 0 <= x < |s.stores| && s.stores[x].Single? && s.stores[x].slot == s.delivered[d].slot;
    m := SingleStoreIsAnOp(Fresh(cap, width), ops[..k], x);
  }

  /** The whole of a slot came from one write of all of it: zeros, one enqueue into
      it or one peer store over it. In a slot one word wide a peer's store of that
      word is such a write too. */
  predicate OneWrite(s: State, d: Delivery) {
    |d.image| > 0 &&
    (var values := Values(d.image);
     match d.image[0].origin
     case Zeroed => values == seq(|values|, _ => 0)
     case Enqueued(n) => n < |s.writes| && s.writes[n] == Write(d.slot, values)
     case Peer(n) =>
       && n < |s.stores|
       && (s.stores[n] == Whole(d.slot, values) || (|values| == 1 && s.stores[n] == Single(d.slot, 0, values[0]))))
  }

  lemma SafeUntornIsOneWrite(s: State, d: nat)
    requires Safe(s) && d < |s.delivered| && Untorn(s.delivered[d].image)
    ensures OneWrite(s, s.delivered[d])
  {
    var at, image := s.delivered[d].slot, s.delivered[d].image;
    assert forall j :: 0 <= j < s.width ==> Sourced(s, at, j, image[j]) && image[j].origin == image[0].origin;
    if s.width > 1 { assert Sourced(s, at, 0, image[0]) && Sourced(s, at, 1, image[1]); }
    match image[0].origin
    case Zeroed => assert Values(image) == seq(s.width, _ => 0);
    case Enqueued(n) => assert s.writes[n].values == Values(image);
    case Peer(n) =>
      match s.stores[n]
      case Whole(_, values) => assert values == Values(image);
      case Single(_, _, _) => assert Sourced(s, at, 0, image[0]);
  }

  /** An untorn delivery is exactly the one write that stamped its slot. */
  lemma UntornIsOneWrite(cap: nat, width: nat, ops: seq<Op>, d: nat)
    requires cap >= 2 && width >= 1 && ValidOps(Fresh(cap, width), ops)
    requires d < |Run(Fresh(cap, width), ops).delivered|
    requires Untorn(Run(Fresh(cap, width), ops).delivered[d].image)
    ensures OneWrite(Run(Fresh(cap, width), ops), Run(Fresh(cap, width), ops).delivered[d])
  {
    FreshIsSafe(cap, width);
    RunKeepsSafe(Fresh(cap, width), ops);
    SafeUntornIsOneWrite(Run(Fresh(cap, width), ops), d);
  }
}
