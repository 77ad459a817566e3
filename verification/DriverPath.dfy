/**
 The receive path as the driver runs it: loops over allocations, completions and
 buffers, on the ring in shared memory and the pool owner's own arrays, and the two
 counts a run is judged by.
 */
module DriverPath {
  import R = Ring
  import S = RingSafety
  import P = PoolOwner
  import I = RingImage
  import F = RingFifo
  import opened Driver
  import opened Wrappers

  /** Descriptors taken name pool buffers, and a drain only adds to them. */
  lemma DrainNamesThePool(s: Receive, limit: nat)
    requires Settled(s) && S.Safe(s.ring)
    ensures DrainNames(s.ring, limit, |s.lends|)
  {
    S.DrainKeepsSafe(s.ring, 0, limit);
    var t := R.DrainAt(s.ring, 0, limit);
    SafeIsTraced(t);
    forall d | 0 <= d < |t.delivered| ensures Names(t.delivered[d], |s.lends|) {
      assert Published(t.writes[S.Ordinal(t.delivered[d])].values, |s.lends|);
      assert R.Values(t.delivered[d].image)[0] == t.delivered[d].image[0].value;
    }
  }

  /** A drain adds to what was delivered, and only descriptors of pool buffers. */
  predicate DrainNames(r: R.State, limit: nat, buffers: nat)
    requires 0 < |r.consumers|
  {
    var d := R.DrainAt(r, 0, limit).delivered;
    |r.delivered| <= |d| && d[..|r.delivered|] == r.delivered && NamesPool(d, buffers)
  }

  predicate Names(d: R.Delivery, buffers: nat) { |d.image| > 0 && d.image[0].value < buffers }

  predicate NamesPool(delivered: seq<R.Delivery>, buffers: nat) {
    forall d :: 0 <= d < |delivered| ==> Names(delivered[d], buffers)
  }

  predicate Tally(counts: seq<nat>, delivered: seq<R.Delivery>) {
    forall b :: 0 <= b < |counts| ==> counts[b] == Taken(delivered, b)
  }

  lemma NothingTaken(counts: seq<nat>, delivered: seq<R.Delivery>)
    requires delivered == [] && forall b :: 0 <= b < |counts| ==> counts[b] == 0
    ensures Tally(counts, delivered)
  {
  }

  /** What a drain hands out is the descriptors newly delivered. */
  method CountTaken(counts: seq<nat>, values: seq<seq<nat>>, ghost delivered: seq<R.Delivery>, ghost from: nat)
    returns (now: seq<nat>)
    requires from <= |delivered| && NamesPool(delivered, |counts|) && Tally(counts, delivered[..from])
    requires values == F.DeliveredValues(delivered[from..])
    ensures |now| == |counts| && Tally(now, delivered)
  {
    now := counts;
    var k := 0;
    while k < |values|
      invariant k <= |values| && |now| == |counts| && Tally(now, delivered[..from + k])
    {
      ghost var d := from + k;
      assert Names(delivered[d], |counts|) && delivered[..d + 1][..d] == delivered[..d];
      assert values[k] == R.Values(delivered[d].image);
      var buffer := values[k][0];
      now := now[buffer := now[buffer] + 1];
      k := k + 1;
    }
    assert delivered[..from + k] == delivered;
  }

  class ReceivePath {
    const ring: I.SharedRing
    const pool: P.PoolSide
    var posted: seq<Option<nat>>
    ghost var held: multiset<nat>
    var lends: seq<nat>
    var taken: seq<nat>

    ghost function Pool(): set<object> {
      {pool, pool.ledger, pool.ledger.indices, pool.ledger.outstanding, pool.lent}
    }

    ghost function Rings(): set<object> { {ring, ring.words} }

    ghost predicate Wired()
      reads this, Pool(), Rings()
    {
      ring.Valid() && pool.Valid()
    }

    ghost function Contents(): Receive
      requires Wired()
      reads this, Pool(), Rings()
    {
      Receive(ring.model, pool.Contents(), posted, held, lends)
    }

    /** `taken` counts what the forwarder took, by buffer. */
    ghost predicate Valid()
      reads this, Pool(), Rings()
    {
      && Wired() && Settled(Contents()) && |taken| == |lends|
      && Tally(taken, ring.model.delivered)
    }

    /** Over an untouched ring and a whole pool. */
    constructor (ring: I.SharedRing, pool: P.PoolSide, queue: nat)
      requires ring.Valid() && ring.cap >= 2 && ring.model == R.Fresh(ring.cap, 4) && queue >= 1
      requires pool.Valid() && pool.Contents() == P.Attach(pool.lent.Length)
      ensures this.ring == ring && this.pool == pool
      ensures Valid() && Contents() == Fresh(ring.cap, pool.lent.Length, queue)
    {
      this.ring, this.pool := ring, pool;
      posted := Unposted(queue);
      held := multiset{};
      lends := seq(pool.lent.Length, _ => 0);
      taken := seq(pool.lent.Length, _ => 0);
      new;
      NothingTaken(taken, ring.model.delivered);
    }

    /** One more buffer from the pool into a slot of the queue. */
    method Post(head: nat, buffer: nat, ghost s: Receive)
      requires Wired() && posted != [] && Contents() == s
      modifies `posted, `held
      ensures Wired() && Contents() == PostAt(s, head, buffer)
    {
      posted := posted[head % |posted| := Some(buffer)];
      held := held + multiset{buffer};
    }

    /** Post one more buffer, if the pool has one and the queue offers a slot. */
    method PostNext(heads: seq<nat>, k: nat) returns (more: bool)
      requires Wired() && Ready(Contents()) && k <= |heads|
      modifies `posted, `held, Pool()
      ensures Wired()
      ensures !more ==> Contents() == RefillFrom(old(Contents()), heads[k..])
      ensures more ==> k < |heads| && Ready(Contents())
      ensures more ==> RefillFrom(Contents(), heads[k + 1..]) == RefillFrom(old(Contents()), heads[k..])
    {
      RefillGoesOn(Contents(), heads, k);
      var token := pool.AllocBuffer();
      more := token.Some? && k < |heads|;
      if more {
        Post(heads[k], token.value, Contents());
      } else if token.Some? {
        pool.ReleaseBuffer(token.value, held + multiset{token.value});
      }
    }

    /** Post free buffers until the pool or the device's queue runs dry. */
    method RefillQueue(heads: seq<nat>)
      requires Wired() && Ready(Contents())
      modifies `posted, `held, Pool()
      ensures Wired() && Contents() == RefillFrom(old(Contents()), heads)
    {
      ghost var goal := RefillFrom(Contents(), heads);
      var k, more := 0, true;
      while more
        invariant k <= |heads| && Wired()
        invariant more ==> Ready(Contents()) && RefillFrom(Contents(), heads[k..]) == goal
        invariant !more ==> Contents() == goal
        decreases |heads| - k, more
      {
        more := PostNext(heads, k);
        if more { k := k + 1; }
      }
    }

    /** Lend the buffer to the forwarder, or keep it where there is no frame in it or
        no room for its descriptor. */
    method HandOn(buffer: nat, len: nat)
      requires Wired() && P.Split(pool.Contents(), held) && buffer in held && buffer < pool.lent.Length
      requires Quiet(ring.model)
      modifies Pool(), Rings()
      ensures Wired()
      ensures var before, lent := old(pool.Contents()), len > 0 && !R.AppearsFull(old(ring.model), 0);
              pool.Contents() == if lent then P.Lend(before, buffer) else P.Release(before, buffer)
      ensures ring.model == if len == 0 then old(ring.model)
                            else R.EnqueueAt(old(ring.model), 0, Descriptor(buffer, len))
    {
      P.LendKeepsSplit(pool.Contents(), held, buffer);
      var accepted := false;
      if len > 0 {
        accepted := pool.LendBuffer(ring, buffer, HEADER_LEN, len, TRANSMIT);
      }
      if !accepted {
        pool.ReleaseBuffer(buffer, held);
      }
    }

    /** Hand each completed frame on, or give its buffer back. */
    method CompleteOne(c: Completion)
      requires Wired() && Ready(Contents())
      modifies `posted, `held, Pool(), Rings()
      ensures Wired() && Contents() == Complete(old(Contents()), c)
    {
      var slot := c.slot % |posted|;
      if posted[slot].None? {
        return;
      }
      var buffer := posted[slot].value;
      P.LendKeepsSplit(pool.Contents(), held, buffer);
      HandOn(buffer, FrameLen(c.usedLen));
      posted := posted[slot := None];
      held := held - multiset{buffer};
    }

    method DrainCompletions(completions: seq<Completion>)
      requires Wired() && Ready(Contents())
      modifies `posted, `held, Pool(), Rings()
      ensures Wired() && Contents() == CompleteAll(old(Contents()), Upto(completions, |old(posted)|))
      ensures ring.model.delivered == old(ring.model.delivered)
    {
      var all := Upto(completions, |posted|);
      CompleteAllTakesNothing(Contents(), all);
      ghost var goal := CompleteAll(Contents(), all);
      var k := 0;
      while k < |all|
        invariant k <= |all| && Wired() && Ready(Contents()) && CompleteAll(Contents(), all[k..]) == goal
      {
        CompleteKeepsReady(Contents(), all[k]);
        assert all[k..][1..] == all[k + 1..];
        CompleteOne(all[k]);
        k := k + 1;
      }
    }

    /** The forwarder takes what was published, counting each buffer named. */
    method TakeFrames(limit: nat)
      requires Wired() && Ready(Contents()) && |taken| == |lends| && Tally(taken, ring.model.delivered)
      requires DrainNames(ring.model, limit, |lends|)
      modifies `taken, ring
      ensures Wired() && Contents() == Act(old(Contents()), Take(limit)) && |taken| == |lends|
      ensures Tally(taken, ring.model.delivered)
    {
      ghost var from := |ring.model.delivered|;
      var values := ring.DrainUpTo(0, limit);
      taken := CountTaken(taken, values, ring.model.delivered, from);
    }

    /** Count the lends an operation made from the flags either side of it. */
    method SettleLends(previous: seq<bool>)
      requires Wired() && |previous| == pool.lent.Length == |lends|
      modifies `lends
      ensures Wired() && Contents() == Settle(old(Contents()), previous)
    {
      ghost var before := lends;
      var b := 0;
      while b < |previous|
        invariant b <= |previous| == |lends|
        invariant forall i :: 0 <= i < |lends| ==>
                    lends[i] == before[i] + if i < b then Edge(previous[i], pool.lent[i]) else 0
      {
        if !previous[b] && pool.lent[b] {
          lends := lends[b := lends[b] + 1];
        }
        b := b + 1;
      }
      assert lends == Settle(old(Contents()), previous).lends;
    }

    method TakeBack(named: seq<nat>)
      requires Wired() && Ready(Contents())
      modifies Pool()
      ensures Wired() && Contents() == Act(old(Contents()), Reclaim(named))
    {
      var _ := pool.ReclaimReturned(Upto(named, P.DRAIN_LIMIT));
    }

    method Forged(word: nat)
      requires Wired() && Ready(Contents())
      modifies ring
      ensures Wired() && Contents() == Act(old(Contents()), ForgeHead(word))
      ensures ring.model.delivered == old(ring.model.delivered)
    {
      ring.PeerForges(R.ForgeHead(word));
    }

    /** The driver's own operations and the peers', all but a take. */
    method ActHere(op: Op)
      requires Wired() && Ready(Contents()) && !op.Take?
      modifies `posted, `held, Pool(), Rings()
      ensures Wired() && Contents() == Act(old(Contents()), op)
      ensures ring.model.delivered == old(ring.model.delivered)
    {
      match op {
        case Refill(heads) => RefillQueue(heads);
        case Drain(completions) => DrainCompletions(completions);
        case Reclaim(named) => TakeBack(named);
        case ForgeHead(word) => Forged(word);
      }
    }

    /** And those leave the count of takes right. */
    method ActQuietly(op: Op)
      requires Wired() && Ready(Contents()) && !op.Take? && Tally(taken, ring.model.delivered)
      modifies `posted, `held, Pool(), Rings()
      ensures Wired() && Contents() == Act(old(Contents()), op) && Tally(taken, ring.model.delivered)
    {
      ActHere(op);
    }

    method ActOn(op: Op)
      requires Wired() && Ready(Contents()) && |taken| == |lends| && Tally(taken, ring.model.delivered)
      requires op.Take? ==> DrainNames(ring.model, op.limit, |lends|)
      modifies `posted, `held, `taken, Pool(), Rings()
      ensures Wired() && Contents() == Act(old(Contents()), op)
      ensures |taken| == |lends| && Tally(taken, ring.model.delivered)
    {
      if op.Take? {
        TakeFrames(op.limit);
      } else {
        ActQuietly(op);
      }
    }

    /** One operation of the run: act, then count the lends it made. */
    method Perform(op: Op)
      requires Valid() && S.Safe(ring.model)
      modifies this, Pool(), Rings()
      ensures Valid() && S.Safe(ring.model) && Contents() == Step(old(Contents()), op)
    {
      var previous := pool.lent[..];
      StepIsActThenSettle(Contents(), op);
      if op.Take? { DrainNamesThePool(Contents(), op.limit); }
      ActOn(op);
      SettleLends(previous);
    }

    /** A whole run, at the end of which each buffer's count of takes is at most its
        count of lends. */
    method Observe(ops: seq<Op>)
      requires Valid() && S.Safe(ring.model)
      modifies this, Pool(), Rings()
      ensures Valid() && Contents() == Run(old(Contents()), ops)
      ensures forall b :: 0 <= b < |lends| ==> taken[b] <= lends[b]
    {
      ghost var start := Contents();
      var k := 0;
      while k < |ops|
        invariant k <= |ops| && Valid() && S.Safe(ring.model) && Contents() == Run(start, ops[..k])
      {
        RunThen(start, ops, k);
        Perform(ops[k]);
        k := k + 1;
      }
      assert ops[..k] == ops;
      WithinLends(Contents(), taken);
    }
  }

  lemma StepIsActThenSettle(s: Receive, op: Op)
    requires Settled(s) && S.Safe(s.ring)
    ensures var t := Act(s, op);
            && |t.owner.lent| == |t.lends| == |s.owner.lent| && S.Safe(t.ring)
            && Settle(t, s.owner.lent) == Step(s, op)
  {
    ActIsBooked(s, op);
    ActKeepsSafe(s, op);
  }

  lemma RunThen(s: Receive, ops: seq<Op>, k: nat)
    requires Settled(s) && k < |ops|
    ensures Run(s, ops[..k + 1]) == Step(Run(s, ops[..k]), ops[k])
  {
    assert ops[..k + 1][..k] == ops[..k];
  }

  lemma WithinLends(s: Receive, taken: seq<nat>)
    requires Settled(s) && S.Safe(s.ring) && |taken| == |s.lends| && Tally(taken, s.ring.delivered)
    ensures forall b :: 0 <= b < |taken| ==> taken[b] <= s.lends[b]
  {
    forall b | 0 <= b < |taken| ensures taken[b] <= s.lends[b] { AllTakenIsWritten(s.ring, b); }
  }

  /** What a refill does next: nothing is free, no slot is offered, or one more
      buffer is posted. */
  lemma RefillGoesOn(s: Receive, heads: seq<nat>, k: nat)
    requires Ready(s) && k <= |heads|
    ensures var (owner, token) := P.Alloc(s.owner);
            match token
            case None => RefillFrom(s, heads[k..]) == s && owner == s.owner
            case Some(buffer) =>
              && P.Split(owner, s.held + multiset{buffer})
              && if k == |heads| then RefillFrom(s, heads[k..]) == s.(owner := P.Release(owner, buffer))
                 else
                   var t := PostAt(s.(owner := owner), heads[k], buffer);
                   Ready(t) && RefillFrom(s, heads[k..]) == RefillFrom(t, heads[k + 1..])
  {
    P.AllocKeepsSplit(s.owner, s.held);
    if k < |heads| {
      assert heads[k..][1..] == heads[k + 1..];
      if P.Alloc(s.owner).1.Some? { PostKeepsReady(s, heads[k]); }
    }
  }

  /** Completions publish; only the forwarder takes. */
  lemma {:induction false} CompleteAllTakesNothing(s: Receive, completions: seq<Completion>)
    requires Ready(s)
    ensures CompleteAll(s, completions).ring.delivered == s.ring.delivered
    decreases |completions|
  {
    if completions != [] {
      CompleteKeepsReady(s, completions[0]);
      CompleteAllTakesNothing(Complete(s, completions[0]), completions[1..]);
    }
  }
}
