/** The ring as the two domains run it: words in shared memory, positions in
    private memory, every operation a handful of loads and stores. Each method
    is proved to be one step of the model in `Ring`. */
module RingImage {
  import opened Ring
  import opened RingSafety
  import opened RingFifo
  import opened Wrappers

  lemma TakesOne(s: State, c: nat, base: nat, taken: seq<seq<nat>>)
    requires c < |s.consumers| && !AppearsEmpty(s, c)
    requires base <= |s.delivered| && taken == DeliveredValues(s.delivered[base..])
    ensures |DequeueAt(s, c).delivered| == |s.delivered| + 1
    ensures taken + [Values(s.slots[s.consumers[c]])]
         == DeliveredValues(DequeueAt(s, c).delivered[base..])
  {
    var t := DequeueAt(s, c);
    assert t.delivered[base..] == s.delivered[base..] + [t.delivered[|s.delivered|]];
  }

  lemma ReadAllIsEmpty(s: State, c: nat)
    requires c < |s.consumers|
    ensures AppearsEmpty(ReadAt(s, c, Waiting(s, c)), c)
  {}

  lemma {:induction false} NeverHandedOut(history: seq<Delivery>, n: nat)
    requires forall d :: 0 <= d < |history| && Counted(history[d]) ==> Ordinal(history[d]) < n
    ensures HandedOut(history, n) == 0
  {
    if history != [] {
      assert Counted(history[|history| - 1]) ==> Ordinal(history[|history| - 1]) < n;
      NeverHandedOut(history[..|history| - 1], n);
    }
  }

  predicate OrdinalsBelow(delivered: seq<Delivery>, n: nat) {
    forall d :: 0 <= d < |delivered| ==>
      |delivered[d].image| > 0 && (Counted(delivered[d]) ==> Ordinal(delivered[d]) < n)
  }

  /** The multiplicity ledger beside the ring: how often each enqueue was handed
      out whole, and how many deliveries were torn or repeated. */
  class DeliveryLedger {
    var handedOut: seq<nat>
    var redeliveries: nat
    var torn: nat
    var accounted: nat
    ghost var history: seq<Delivery>

    ghost predicate Valid()
      reads this
    {
      && (forall n :: 0 <= n < |handedOut| ==> handedOut[n] == HandedOut(history, n))
      && (forall d :: 0 <= d < |history| && Counted(history[d]) ==> Ordinal(history[d]) < |handedOut|)
      && (redeliveries > 0 <==> exists n :: 0 <= n < |handedOut| && handedOut[n] > 1)
      && accounted == |history|
      && (torn > 0 <==> exists d :: 0 <= d < |history| && !Untorn(history[d].image))
    }

    constructor ()
      ensures Valid() && history == [] && handedOut == [] && redeliveries == 0 && torn == 0
    {
      handedOut, redeliveries, torn, accounted, history := [], 0, 0, 0, [];
    }

    /** An accepted enqueue opens its own count. */
    method Open()
      requires Valid()
      modifies this
      ensures Valid() && history == old(history) && handedOut == old(handedOut) + [0]
      ensures redeliveries == old(redeliveries) && torn == old(torn)
    {
      NeverHandedOut(history, |handedOut|);
      handedOut := handedOut + [0];
      assert forall n :: 0 <= n < |old(handedOut)| ==> handedOut[n] == old(handedOut)[n];
    }

    /** One delivery: a torn image is nobody's descriptor any more, and a zeroed
        or peer-written one never was this side's. */
    method Account(d: Delivery)
      requires Valid() && |d.image| > 0
      requires Counted(d) ==> Ordinal(d) < |handedOut|
      modifies this
      ensures Valid() && history == old(history) + [d] && |handedOut| == |old(handedOut)|
    {
      ghost var before := history;
      history, accounted := history + [d], accounted + 1;
      assert history[..|before|] == before;
      var i := 0;
      while i < |d.image| && d.image[i].origin == d.image[0].origin
        invariant 0 <= i <= |d.image|
        invariant forall j :: 0 <= j < i ==> d.image[j].origin == d.image[0].origin
      {
        i := i + 1;
      }
      if i < |d.image| {
        torn := torn + 1;
        assert !Untorn(history[|before|].image);
        return;
      }
      assert torn > 0 ==> exists k :: 0 <= k < |before| && !Untorn(history[k].image);
      if d.image[0].origin.Enqueued? {
        var n := d.image[0].origin.ordinal;
        var counts := handedOut;
        handedOut := counts[n := counts[n] + 1];
        if handedOut[n] > 1 {
          redeliveries := redeliveries + 1;
        }
        assert forall m :: 0 <= m < |counts| && m != n ==> handedOut[m] == counts[m];
        assert handedOut[n] == counts[n] + 1;
      }
    }

    /** Enter what one operation wrote and delivered. */
    method CatchUp(writes: nat, delivered: seq<Delivery>)
      requires Valid() && history <= delivered && |handedOut| <= writes
      requires OrdinalsBelow(delivered, writes)
      modifies this
      ensures Valid() && history == delivered && |handedOut| == writes
    {
      while |handedOut| < writes
        invariant Valid() && history == old(history) && |handedOut| <= writes
      {
        Open();
      }
      while accounted < |delivered|
        invariant Valid() && history <= delivered && |handedOut| == writes
        decreases |delivered| - accounted
      {
        Account(delivered[accounted]);
      }
    }
  }

  lemma StepGrows(s: State, op: Op)
    requires ValidOp(s, op)
    ensures s.delivered <= Step(s, op).delivered && |s.writes| <= |Step(s, op).writes|
  {}

  lemma RunIsAccountable(cap: nat, width: nat, ops: seq<Op>)
    requires cap >= 2 && width >= 1 && ValidOps(Fresh(cap, width), ops)
    ensures var s := Run(Fresh(cap, width), ops); OrdinalsBelow(s.delivered, |s.writes|)
  {
    FreshIsSafe(cap, width);
    RunKeepsSafe(Fresh(cap, width), ops);
    var s := Run(Fresh(cap, width), ops);
    assert forall d :: 0 <= d < |s.delivered| ==>
        Sourced(s, s.delivered[d].slot, 0, s.delivered[d].image[0]);
  }

  lemma RunHasCauses(cap: nat, width: nat, ops: seq<Op>)
    requires cap >= 2 && width >= 1 && ValidOps(Fresh(cap, width), ops)
    ensures var s := Run(Fresh(cap, width), ops);
            && (Solo(s) ==> forall n :: HandedOut(s.delivered, n) <= 1)
            && (forall d :: 0 <= d < |s.delivered| && !Untorn(s.delivered[d].image) ==>
                  Tampered(s, s.delivered[d].slot))
  {
    var s := Run(Fresh(cap, width), ops);
    FreshIsSafe(cap, width);
    RunKeepsSafe(Fresh(cap, width), ops);
    if Solo(s) {
      forall n: nat ensures HandedOut(s.delivered, n) <= 1 { OrderedOnce(s.delivered, n); }
    }
  }

  class SharedRing {
    const cap: nat
    const width: nat
    const words: array2<nat>     // one row a slot, shared
    var head: nat                // shared
    var tail: nat                // shared
    var producers: seq<nat>      // private, one a handle
    var consumers: seq<nat>
    var model: State             // what this side's history says the image holds

    ghost predicate Valid()
      reads this, words
    {
      && model.cap == cap && model.width == width
      && words.Length0 == cap && words.Length1 == width
      && head == model.head && tail == model.tail
      && producers == model.producers && consumers == model.consumers
      && (forall i, j :: 0 <= i < cap && 0 <= j < width ==> words[i, j] == model.slots[i][j].value)
    }

    constructor (cap: nat, width: nat)
      requires cap >= 2 && width >= 1
      ensures Valid() && fresh(words) && model == Fresh(cap, width)
    {
      this.cap, this.width := cap, width;
      words := new nat[cap, width]((_, _) => 0);
      head, tail := 0, 0;
      producers, consumers := [0], [0];
      model := Fresh(cap, width);
    }

    /** A slot is written a word at a time; there is no wider store. */
    method StoreWords(slot: nat, values: seq<nat>)
      requires slot < words.Length0 && |values| == words.Length1
      modifies words
      ensures forall i, j :: 0 <= i < words.Length0 && 0 <= j < words.Length1 ==>
                words[i, j] == if i == slot then values[j] else old(words[i, j])
    {
      var field := 0;
      while field < words.Length1
        invariant 0 <= field <= words.Length1
        invariant forall i, j :: 0 <= i < words.Length0 && 0 <= j < words.Length1 ==>
                    words[i, j] == if i == slot && j < field then values[j] else old(words[i, j])
      {
        words[slot, field] := values[field];
        field := field + 1;
      }
    }

    method LoadWords(slot: nat) returns (values: seq<nat>)
      requires slot < words.Length0
      ensures |values| == words.Length1
      ensures forall j :: 0 <= j < words.Length1 ==> values[j] == words[slot, j]
    {
      values := [];
      while |values| < words.Length1
        invariant |values| <= words.Length1
        invariant forall j :: 0 <= j < |values| ==> values[j] == words[slot, j]
      {
        values := values + [words[slot, |values|]];
      }
    }

    method TryEnqueue(side: nat, values: seq<nat>) returns (accepted: bool)
      requires Valid() && side < |producers| && |values| == width
      modifies this, words
      ensures Valid() && model == EnqueueAt(old(model), side, values)
      ensures accepted <==> !AppearsFull(old(model), side)
    {
      ghost var before := model;
      model := EnqueueAt(model, side, values);
      var next := Next(producers[side], cap);
      if next == Masked(head, cap) {
        return false;
      }
      StoreWords(producers[side], values);
      producers := producers[side := next];
      tail := next;
      accepted := true;
    }

    method TryDequeue(side: nat) returns (item: Option<seq<nat>>)
      requires Valid() && side < |consumers|
      modifies this
      ensures Valid() && model == DequeueAt(old(model), side)
      ensures item == if AppearsEmpty(old(model), side) then None
                      else Some(Values(old(model).slots[old(consumers)[side]]))
    {
      ghost var before := model;
      model := DequeueAt(model, side);
      if consumers[side] == Masked(tail, cap) {
        return None;
      }
      ghost var at := consumers[side];
      var values := LoadWords(consumers[side]);
      assert values == Values(before.slots[at]);
      consumers := consumers[side := Next(consumers[side], cap)];
      head := consumers[side];
      item := Some(values);
    }

    /** At most `limit` items, and no more than stood waiting at the start. */
    method DrainUpTo(side: nat, limit: nat) returns (taken: seq<seq<nat>>)
      requires Valid() && side < |consumers|
      modifies this
      ensures Valid() && model == DrainAt(old(model), side, limit)
      ensures |taken| == Min(limit, Waiting(old(model), side))
      ensures |old(model).delivered| <= |model.delivered|
      ensures taken == DeliveredValues(model.delivered[|old(model).delivered|..])
    {
      taken := [];
      ghost var start := model;
      while |taken| < limit
        invariant |taken| <= limit && |taken| <= Waiting(start, side)
        invariant Valid() && model == ReadAt(start, side, |taken|)
        invariant taken == DeliveredValues(model.delivered[|start.delivered|..])
      {
        ghost var before := model;
        if |taken| < Waiting(start, side) {
          ReadOneMore(start, side, |taken|);
          TakesOne(before, side, |start.delivered|, taken);
        } else {
          ReadAllIsEmpty(start, side);
        }
        var item := TryDequeue(side);
        if item.None? {
          break;
        }
        taken := taken + [item.value];
      }
    }

    /** The peer's reach: either cursor, a whole slot, or one word of one. */
    method PeerForges(op: Op)
      requires Valid() && (op.ForgeHead? || op.ForgeTail?)
      modifies this
      ensures Valid() && model == Step(old(model), op)
      ensures head == if op.ForgeHead? then op.word else old(head)
      ensures tail == if op.ForgeTail? then op.word else old(tail)
    {
      model := Step(model, op);
      match op {
        case ForgeHead(word) => head := word;
        case ForgeTail(word) => tail := word;
      }
    }

    method PeerStores(op: Op)
      requires Valid() && (op.StoreSlot? || op.StoreField?) && ValidOp(model, op)
      modifies this, words
      ensures Valid() && model == Step(old(model), op)
    {
      ghost var before := model;
      model := Step(model, op);
      match op {
        case StoreSlot(slot, values) => StoreWords(slot % cap, values);
        case StoreField(slot, field, value) => words[slot % cap, field % width] := value;
      }
    }

    method TakeHandle(op: Op)
      requires Valid() && (op.TakeProducer? || op.TakeConsumer?)
      modifies this
      ensures Valid() && model == Step(old(model), op)
    {
      model := Step(model, op);
      match op {
        case TakeProducer => producers := producers + [0];
        case TakeConsumer => consumers := consumers + [0];
      }
    }

    method Perform(op: Op)
      requires Valid() && ValidOp(model, op)
      modifies this, words
      ensures Valid() && model == Step(old(model), op)
    {
      match op {
        case Enqueue(side, values) => var _ := TryEnqueue(side % |producers|, values);
        case Dequeue(side) => var _ := TryDequeue(side % |consumers|);
        case Drain(side, limit) => var _ := DrainUpTo(side % |consumers|, limit);
        case ForgeHead(_) => PeerForges(op);
        case ForgeTail(_) => PeerForges(op);
        case StoreSlot(_, _) => PeerStores(op);
        case StoreField(_, _, _) => PeerStores(op);
        case TakeProducer => TakeHandle(op);
        case TakeConsumer => TakeHandle(op);
      }
    }

    /** Any stream of operations, the peer's interleaved with this side's. No
        enqueue is counted out twice without a forged tail or a second handle,
        and nothing is counted torn without a single-word store. */
    method Observe(ops: seq<Op>, ledger: DeliveryLedger)
      requires Valid() && model == Fresh(cap, width) && ValidOps(model, ops)
      requires ledger.Valid() && ledger.history == [] && ledger.handedOut == []
      modifies this, words, ledger
      ensures Valid() && model == Run(Fresh(cap, width), ops)
      ensures ledger.Valid() && ledger.history == model.delivered
      ensures ledger.redeliveries > 0 ==>
                model.tailForges > 0 || |producers| > 1 || |consumers| > 1
      ensures ledger.torn > 0 ==> exists k :: 0 <= k < |model.stores| && model.stores[k].Single?
    {
      ghost var start := model;
      var k := 0;
      while k < |ops|
        invariant 0 <= k <= |ops| && ValidOps(start, ops[..k])
        invariant Valid() && model == Run(start, ops[..k])
        invariant ledger.Valid() && ledger.history == model.delivered
        invariant |ledger.handedOut| == |model.writes|
      {
        StepGrows(model, ops[k]);
        Perform(ops[k]);
        assert ops[..k + 1][..k] == ops[..k];
        RunIsAccountable(cap, width, ops[..k + 1]);
        ledger.CatchUp(|model.writes|, model.delivered);
        k := k + 1;
      }
      assert ops[..k] == ops;
      RunHasCauses(cap, width, ops);
    }
  }
}
