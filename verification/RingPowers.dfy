/**
 What each thing a peer can do lets it do: a forged cursor decides what a handle
 sees, a stored word is what is read, a second handle starts over. These are the
 powers `RingSafety` is proved against, and the last lemma is a run that uses the
 hardest of them: a producer made to lap its consumer.
 */
module RingPowers {
  import opened Ring
  import opened RingSafety
  import RingImage
  import Modular

  /** A forged head alone decides whether a producer is refused, and moves nothing
      else. */
  lemma ForgedHeadDecides(s: State, word: nat, p: nat)
    requires p < |s.producers|
    ensures var t := Step(s, ForgeHead(word));
            && t.(head := s.head, headForges := s.headForges) == s
            && t.head == word && t.headForges == s.headForges + 1
            && (AppearsFull(t, p) <==> (s.producers[p] + 1) % s.cap == word % s.cap)
  {
    MaskedIsRemainder(word, s.cap);
    Modular.Small(s.producers[p], s.cap);
    NextIsMasked(s.producers[p], s.cap);
  }

  /** A forged tail alone decides whether a consumer sees anything waiting. */
  lemma ForgedTailDecides(s: State, word: nat, c: nat)
    requires c < |s.consumers|
    ensures var t := Step(s, ForgeTail(word));
            && t.(tail := s.tail, tailForges := s.tailForges) == s
            && t.tail == word && t.tailForges == s.tailForges + 1
            && (AppearsEmpty(t, c) <==> s.consumers[c] == word % s.cap)
  {
    MaskedIsRemainder(word, s.cap);
  }

  /** An enqueue, by whichever handle: refused exactly where the head stands one
      ahead of that handle, and otherwise written where that handle stood. */
  lemma EnqueueLands(s: State, p: nat, values: seq<nat>)
    requires p < |s.producers| && |values| == s.width
    ensures var t, at := Step(s, Enqueue(p, values)), s.producers[p];
            if (at + 1) % s.cap == s.head % s.cap then t == s.(refusals := s.refusals + 1)
            else
              && Values(t.slots[at]) == values && t.slots == s.slots[at := t.slots[at]]
              && t.writes == s.writes + [Write(at, values)] && t.refusals == s.refusals
              && t.producers == s.producers[p := (at + 1) % s.cap] && t.tail == (at + 1) % s.cap
              && t.consumers == s.consumers && t.head == s.head && t.stores == s.stores && t.delivered == s.delivered
  {
    Modular.Small(p, |s.producers|);
    MaskedIsRemainder(s.head, s.cap);
    Modular.Small(s.producers[p], s.cap);
    NextIsMasked(s.producers[p], s.cap);
  }

  /** A dequeue, by whichever handle: nothing where the tail stands at that handle,
      and otherwise the slot it stood at. */
  lemma DequeueReads(s: State, c: nat)
    requires c < |s.consumers|
    ensures var t, at := Step(s, Dequeue(c)), s.consumers[c];
            if at == s.tail % s.cap then t == s
            else
              && t.delivered == s.delivered + [Delivery(at, s.slots[at])]
              && t.consumers == s.consumers[c := (at + 1) % s.cap] && t.head == (at + 1) % s.cap
              && t.(delivered := s.delivered, consumers := s.consumers, head := s.head) == s
  {
    Modular.Small(c, |s.consumers|);
    MaskedIsRemainder(s.tail, s.cap);
    Modular.Small(s.consumers[c], s.cap);
    NextIsMasked(s.consumers[c], s.cap);
  }

  /** `n` dequeues one after another, each against the state the last one left. */
  function Dequeues(s: State, c: nat, n: nat): (t: State)
    requires c < |s.consumers|
    ensures |t.consumers| == |s.consumers|
  {
    if n == 0 then s else DequeueAt(Dequeues(s, c, n - 1), c)
  }

  lemma {:induction false} ReadsAreDequeues(s: State, c: nat, k: nat)
    requires c < |s.consumers| && k <= Waiting(s, c)
    ensures ReadAt(s, c, k) == Dequeues(s, c, k)
  {
    if k > 0 {
      ReadsAreDequeues(s, c, k - 1);
      ReadOneMore(s, c, k - 1);
    }
  }

  lemma {:induction false} PastTheLast(s: State, c: nat, n: nat)
    requires c < |s.consumers| && Waiting(s, c) <= n
    ensures Dequeues(s, c, n) == Dequeues(s, c, Waiting(s, c))
  {
    if n > Waiting(s, c) {
      PastTheLast(s, c, n - 1);
      ReadsAreDequeues(s, c, Waiting(s, c));
      RingImage.ReadAllIsEmpty(s, c);
    }
  }

  /** A drain of up to `limit` is that many dequeues, those past the last entry
      finding the ring empty. */
  lemma DrainIsDequeues(s: State, c: nat, limit: nat)
    requires c < |s.consumers|
    ensures DrainAt(s, c, limit) == Dequeues(s, c, limit)
  {
    ReadsAreDequeues(s, c, Min(limit, Waiting(s, c)));
    if Waiting(s, c) < limit { PastTheLast(s, c, limit); }
  }

  /** A peer's store of one word: a consumer at that slot is handed it, and every
      other word of the slot as it was. */
  lemma StoredWordIsRead(s: State, slot: nat, field: nat, value: nat, c: nat)
    requires c < |s.consumers| && s.consumers[c] == slot % s.cap && !AppearsEmpty(s, c)
    ensures var t := Step(Step(s, StoreField(slot, field, value)), Dequeue(c));
            && |t.delivered| == |s.delivered| + 1
            && Values(t.delivered[|s.delivered|].image) == Values(s.slots[slot % s.cap])[field % s.width := value]
  {
    Modular.Small(c, |s.consumers|);
    var t := Step(s, StoreField(slot, field, value));
    assert Values(t.slots[slot % s.cap]) == Values(s.slots[slot % s.cap])[field % s.width := value];
  }

  /** And a store of a whole slot is handed out whole. */
  lemma StoredSlotIsRead(s: State, slot: nat, values: seq<nat>, c: nat)
    requires c < |s.consumers| && s.consumers[c] == slot % s.cap && !AppearsEmpty(s, c) && |values| == s.width
    ensures var t := Step(Step(s, StoreSlot(slot, values)), Dequeue(c));
            |t.delivered| == |s.delivered| + 1 && Values(t.delivered[|s.delivered|].image) == values
  {
    Modular.Small(c, |s.consumers|);
    var t := Step(s, StoreSlot(slot, values));
    assert Values(t.slots[slot % s.cap]) == values;
  }

  /** Neither store reaches another slot, a cursor or a position. */
  lemma StoresReachOneSlot(s: State, op: Op)
    requires ValidOp(s, op) && (op.StoreSlot? || op.StoreField?)
    ensures var t, at := Step(s, op), op.slot % s.cap;
            && t.slots == s.slots[at := t.slots[at]] && |t.stores| == |s.stores| + 1
            && t.(slots := s.slots, stores := s.stores) == s
  {
  }

  /** A second handle stands at the first slot, whatever the others have done. */
  lemma SecondHandleStartsOver(s: State)
    ensures var t := Step(s, TakeProducer);
            t.producers == s.producers + [0] && t.(producers := s.producers) == s
    ensures var t := Step(s, TakeConsumer);
            t.consumers == s.consumers + [0] && t.(consumers := s.consumers) == s
  {
  }

  // ----------------------------------------------------------------------- a lap

  /** Enqueues, each behind a head forged to where the producer stands. */
  function Laps(values: seq<nat>, n: nat): (ops: seq<Op>)
    ensures |ops| == 2 * n
  {
    if n == 0 then [] else Laps(values, n - 1) + [ForgeHead(n - 1), Enqueue(0, values)]
  }

  predicate Lapped(s: State, values: seq<nat>, n: nat) {
    && |s.writes| == n && s.producers == [n % s.cap] && s.tail == n % s.cap
    && s.consumers == [0] && s.delivered == [] && s.tailForges == 0 && s.stores == []
    && (n > 0 ==> s.slots[(n - 1) % s.cap] == Stamp(values, Enqueued(n - 1)))
  }

  lemma {:induction false} LapsAreValid(s: State, values: seq<nat>, n: nat)
    requires |values| == s.width
    ensures ValidOps(s, Laps(values, n))
  {
    if n > 0 { LapsAreValid(s, values, n - 1); }
  }

  lemma RunTwo(s: State, ops: seq<Op>, a: Op, b: Op)
    requires ValidOps(s, ops) && ValidOp(s, a) && ValidOp(s, b)
    ensures ValidOps(s, ops + [a, b]) && Run(s, ops + [a, b]) == Step(Step(Run(s, ops), a), b)
  {
    assert (ops + [a, b])[..|ops| + 1] == ops + [a] && (ops + [a])[..|ops|] == ops;
  }

  /** Nothing the producer finds refuses it: the head it reads is its own place. */
  lemma OneLapOn(s: State, values: seq<nat>, n: nat)
    requires Lapped(s, values, n) && |values| == s.width
    ensures Lapped(Step(Step(s, ForgeHead(n)), Enqueue(0, values)), values, n + 1)
  {
    ForgedHeadDecides(s, n, 0);
    NextIsMasked(n, s.cap);
    assert (n + 1) % s.cap != n % s.cap by { Modular.Successor(n, s.cap); }
    Modular.Small(0, 1);
  }

  lemma {:induction false} LapsLap(cap: nat, width: nat, values: seq<nat>, n: nat)
    requires cap >= 2 && width >= 1 && |values| == width && ValidOps(Fresh(cap, width), Laps(values, n))
    ensures Lapped(Run(Fresh(cap, width), Laps(values, n)), values, n)
  {
    var start := Fresh(cap, width);
    if n == 0 {
      Modular.Small(0, cap);
    } else {
      LapsAreValid(start, values, n - 1);
      LapsLap(cap, width, values, n - 1);
      OneLapOn(Run(start, Laps(values, n - 1)), values, n - 1);
      RunTwo(start, Laps(values, n - 1), ForgeHead(n - 1), Enqueue(0, values));
    }
  }

  /** Once round and one more, the first slot holds the later write. */
  lemma LappedReads(s: State, values: seq<nat>)
    requires s.cap >= 2 && Lapped(s, values, s.cap + 1)
    ensures var t := Step(s, Dequeue(0));
            && Solo(t) && |t.delivered| == 1 && Counted(t.delivered[0]) && Ordinal(t.delivered[0]) == s.cap
  {
    assert s.cap % s.cap == 0 && (s.cap + 1) % s.cap == 1 by {
      Modular.AddMultiple(0, s.cap, 1);
      Modular.AddMultiple(1, s.cap, 1);
      Modular.Small(0, s.cap);
      Modular.Small(1, s.cap);
    }
    DequeueReads(s, 0);
    Modular.Small(1, s.cap);
  }

  /** For every ring: with one handle each and no forged tail, a run whose very
      first delivery is the enqueue a whole capacity after the first. */
  lemma {:induction false} LappingHappens(cap: nat, width: nat, values: seq<nat>)
    requires cap >= 2 && width >= 1 && |values| == width
    ensures var ops := Laps(values, cap + 1) + [Dequeue(0)];
            && ValidOps(Fresh(cap, width), ops)
            && var s := Run(Fresh(cap, width), ops);
               && Solo(s) && |s.delivered| == 1 && Counted(s.delivered[0]) && Ordinal(s.delivered[0]) == cap
  {
    var start, laps := Fresh(cap, width), Laps(values, cap + 1);
    LapsAreValid(start, values, cap + 1);
    LapsLap(cap, width, values, cap + 1);
    assert (laps + [Dequeue(0)])[..|laps|] == laps;
    LappedReads(Run(start, laps), values);
  }
}
