/**
 What one receive completion and one refill do, and where every descriptor the
 forwarder takes came from: a completion of that very buffer, with the length the
 device reported for it.
 */
module DriverLends {
  import Modular
  import R = Ring
  import RingPowers
  import S = RingSafety
  import opened Driver
  import F = FreeList
  import P = PoolOwner
  import opened Wrappers

  function Min(a: nat, b: nat): nat { if a < b then a else b }

  /** The descriptor for a buffer the device says it filled with `usedLen` bytes:
      header and frame together are that many, or the whole buffer. */
  predicate Carries(values: seq<nat>, buffer: nat, usedLen: nat) {
    && |values| == 4
    && values[0] == buffer && values[1] == HEADER_LEN && values[3] == TRANSMIT
    && HEADER_LEN < usedLen && HEADER_LEN + values[2] == Min(usedLen, P.BUFFER_SIZE)
  }

  /** Whether a completion is handed on: something is posted there, more than a
      header arrived and the head does not stand one ahead of the producer. */
  predicate HandedOn(s: Receive, c: Completion)
    requires Ready(s)
  {
    && s.posted[c.slot % |s.posted|].Some? && c.usedLen > HEADER_LEN
    && (s.ring.producers[0] + 1) % s.ring.cap != s.ring.head % s.ring.cap
  }

  lemma FullIsOneAhead(r: R.State)
    requires |r.producers| > 0
    ensures R.AppearsFull(r, 0) <==> (r.producers[0] + 1) % r.cap == r.head % r.cap
  {
    S.MaskedIsRemainder(r.head, r.cap);
    S.NextIsMasked(r.producers[0], r.cap);
    Modular.Small(r.producers[0], r.cap);
  }

  /** A completion publishes exactly one descriptor, the posted buffer's with the
      device's length, or none. */
  lemma CompletionPublishes(s: Receive, c: Completion)
    requires Ready(s)
    ensures var t, n := Complete(s, c), |s.ring.writes|;
            if HandedOn(s, c) then
              && |t.ring.writes| == n + 1 && t.ring.writes[..n] == s.ring.writes
              && Carries(t.ring.writes[n].values, s.posted[c.slot % |s.posted|].value, c.usedLen)
            else t.ring.writes == s.ring.writes
  {
    FullIsOneAhead(s.ring);
    FrameIsWithinTheBuffer(c.usedLen);
  }

  /** And the buffer changes hands once: to the peer if it was handed on, to the
      top of the free stack if not. An empty slot changes nothing. */
  lemma CompletionSettlesTheBuffer(s: Receive, c: Completion)
    requires Ready(s)
    ensures var t, k := Complete(s, c), c.slot % |s.posted|;
            if s.posted[k].None? then t == s
            else
              var b := s.posted[k].value;
              && t.posted == s.posted[k := None] && t.held == s.held - multiset{b} && b < |s.owner.lent|
              && t.owner.lent == (if HandedOn(s, c) then s.owner.lent[b := true] else s.owner.lent)
              && t.owner.ledger.free == if HandedOn(s, c) then s.owner.ledger.free else s.owner.ledger.free + [b]
  {
    FullIsOneAhead(s.ring);
    FrameIsWithinTheBuffer(c.usedLen);
    var k := c.slot % |s.posted|;
    if s.posted[k].Some? {
      P.LendKeepsSplit(s.owner, s.held, s.posted[k].value);
      P.ReleaseIsAccepted(s.owner, s.held, s.posted[k].value);
    }
  }

  // ------------------------------------------------------------------- a refill

  /** The last of the heads to name queue slot `k`. */
  function LastHead(heads: seq<nat>, queue: nat, k: nat): (at: Option<nat>)
    requires queue > 0
    ensures at.Some? ==> at.value < |heads| && heads[at.value] % queue == k
    ensures at.Some? ==> forall i :: at.value < i < |heads| ==> heads[i] % queue != k
    ensures at.None? ==> forall i :: 0 <= i < |heads| ==> heads[i] % queue != k
  {
    if heads == [] then None
    else if heads[|heads| - 1] % queue == k then Some(|heads| - 1)
    else LastHead(heads[..|heads| - 1], queue, k)
  }

  lemma LastHeadAfter(heads: seq<nat>, queue: nat, k: nat)
    requires queue > 0 && heads != []
    ensures LastHead(heads, queue, k) ==
            match LastHead(heads[1..], queue, k)
            case Some(i) => Some(i + 1)
            case None => if heads[0] % queue == k then Some(0) else None
  {
    var at, later := LastHead(heads, queue, k), LastHead(heads[1..], queue, k);
    if later.Some? {
      assert heads[later.value + 1] == heads[1..][later.value];
    }
    if at.Some? && at.value > 0 {
      assert heads[at.value] == heads[1..][at.value - 1];
    }
  }

  /** Out of heads or out of buffers, a refill leaves everything where it was. */
  lemma RefillEnds(s: Receive, heads: seq<nat>)
    requires Ready(s) && (heads == [] || s.owner.ledger.free == [])
    ensures var t := RefillFrom(s, heads);
            t.owner.ledger.free == s.owner.ledger.free && t.held == s.held && t.posted == s.posted
  {
    var (owner, token) := P.Alloc(s.owner);
    if token.Some? {
      assert token.value in F.Out(owner.ledger);
      assert s.owner.ledger.free == owner.ledger.free + [token.value];
    }
  }

  /** Otherwise the top free buffer goes to the first head's slot. */
  lemma RefillGoesOn(s: Receive, heads: seq<nat>) returns (next: Receive)
    requires Ready(s) && heads != [] && s.owner.ledger.free != []
    ensures Ready(next) && RefillFrom(s, heads) == RefillFrom(next, heads[1..])
    ensures var free := s.owner.ledger.free;
            var top := free[|free| - 1];
            && next.owner.ledger.free == free[..|free| - 1] && next.held == s.held + multiset{top}
            && next.posted == s.posted[heads[0] % |s.posted| := Some(top)]
  {
    var (owner, token) := P.Alloc(s.owner);
    PostKeepsReady(s, heads[0]);
    next := PostAt(s.(owner := owner), heads[0], token.value);
  }

  lemma Shorter(free: seq<nat>, kept: nat)
    requires kept < |free|
    ensures free[..|free| - 1][..kept] == free[..kept]
  {
  }

  lemma {:induction false} RefillLeaves(s: Receive, heads: seq<nat>)
    requires Ready(s)
    ensures var free := s.owner.ledger.free;
            RefillFrom(s, heads).owner.ledger.free == free[..|free| - Min(|heads|, |free|)]
    decreases |heads|
  {
    var free := s.owner.ledger.free;
    if heads == [] || free == [] {
      RefillEnds(s, heads);
      assert free[..|free|] == free;
    } else {
      var next := RefillGoesOn(s, heads);
      RefillLeaves(next, heads[1..]);
      Shorter(free, |free| - Min(|heads|, |free|));
    }
  }

  lemma Gained(free: seq<nat>, kept: nat, before: multiset<nat>, after: multiset<nat>, lent: multiset<nat>)
    requires kept <= |free| && multiset(free) + before + lent == multiset(free[..kept]) + after + lent
    ensures after == before + multiset(free[kept..])
  {
    assert free == free[..kept] + free[kept..];
    assert after == (multiset(free[..kept]) + after + lent) - multiset(free[..kept]) - lent;
    assert before + multiset(free[kept..]) == (multiset(free) + before + lent) - multiset(free[..kept]) - lent;
  }

  /** Whatever leaves the free stack, while nothing is lent or returned, is held. */
  lemma HandsMoved(o: P.Owner, held: multiset<nat>, p: P.Owner, now: multiset<nat>, kept: nat)
    requires P.Split(o, held) && P.Split(p, now) && o.lent == p.lent
    requires kept <= |o.ledger.free| && p.ledger.free == o.ledger.free[..kept]
    ensures now == held + multiset(o.ledger.free[kept..])
  {
    P.ThreeHands(o, held);
    P.ThreeHands(p, now);
    Gained(o.ledger.free, kept, held, now, multiset(P.Lent(o)));
  }

  /** A refill takes buffers off the top of the free stack, one for each head the
      queue offers while both last, and holds exactly those. */
  lemma {:induction false} RefillTakesTheTop(s: Receive, heads: seq<nat>, t: Receive)
    requires Ready(s) && t == RefillFrom(s, heads)
    ensures var free := s.owner.ledger.free;
            var kept := |free| - Min(|heads|, |free|);
            t.owner.ledger.free == free[..kept] && t.held == s.held + multiset(free[kept..])
  {
    RefillLeaves(s, heads);
    RefillIsBooked(s, heads);
    var free := s.owner.ledger.free;
    HandsMoved(s.owner, s.held, t.owner, t.held, |free| - Min(|heads|, |free|));
  }

  /** What slot `k` holds once buffers are served to the heads from the top of the
      stack down: that of the last head naming it, or what it held before. */
  function Served(heads: seq<nat>, free: seq<nat>, queue: nat, k: nat, was: Option<nat>): Option<nat>
    requires queue > 0
  {
    match LastHead(heads[..Min(|heads|, |free|)], queue, k)
    case None => was
    case Some(i) => Some(free[|free| - 1 - i])
  }

  lemma ServedNext(heads: seq<nat>, free: seq<nat>, queue: nat, k: nat, was: Option<nat>)
    requires queue > 0 && heads != [] && free != []
    ensures var top := if heads[0] % queue == k then Some(free[|free| - 1]) else was;
            Served(heads, free, queue, k, was) == Served(heads[1..], free[..|free| - 1], queue, k, top)
  {
    var n := Min(|heads|, |free|);
    assert heads[..n][1..] == heads[1..][..n - 1];
    LastHeadAfter(heads[..n], queue, k);
  }

  lemma {:induction false} RefillPosts(s: Receive, heads: seq<nat>, k: nat)
    requires Ready(s) && k < |s.posted|
    ensures var t := RefillFrom(s, heads);
            && |t.posted| == |s.posted|
            && t.posted[k] == Served(heads, s.owner.ledger.free, |s.posted|, k, s.posted[k])
    decreases |heads|
  {
    var free := s.owner.ledger.free;
    if heads == [] || free == [] {
      RefillEnds(s, heads);
    } else {
      var next := RefillGoesOn(s, heads);
      RefillPosts(next, heads[1..], k);
      ServedNext(heads, free, |s.posted|, k, s.posted[k]);
    }
  }

  // ----------------------------------------------------- the other operations

  /** A reclaim looks at the first `DRAIN_LIMIT` returns and takes back exactly the
      lent buffers among them; nothing posted, held or published moves. */
  lemma ReclaimReturns(s: Receive, named: seq<nat>)
    requires Ready(s)
    ensures var t, first := Act(s, Reclaim(named)), named[..Min(|named|, P.DRAIN_LIMIT)];
            && P.Lent(t.owner) == P.Lent(s.owner) - P.Elements(first)
            && t.(owner := s.owner) == s
  {
    assert Upto(named, P.DRAIN_LIMIT) == named[..Min(|named|, P.DRAIN_LIMIT)];
    P.ReclaimKeepsSplit(s.owner, s.held, Upto(named, P.DRAIN_LIMIT));
  }

  /** A take is that many dequeues of the ring's one consumer, a forge its head. */
  lemma PeerActs(s: Receive, limit: nat, word: nat)
    requires Ready(s)
    ensures Act(s, Take(limit)) == s.(ring := RingPowers.Dequeues(s.ring, 0, limit))
    ensures Act(s, ForgeHead(word)).ring.head == word
    ensures var t := Act(s, ForgeHead(word));
            t.(ring := t.ring.(head := s.ring.head, headForges := s.ring.headForges)) == s
  {
    RingPowers.DrainIsDequeues(s.ring, 0, limit);
    RingPowers.ForgedHeadDecides(s.ring, word, 0);
  }

  // ------------------------------------------------- where descriptors come from

  lemma {:induction false} CompleteAllKeepsReady(s: Receive, completions: seq<Completion>)
    requires Ready(s)
    ensures Ready(CompleteAll(s, completions))
    decreases |completions|
  {
    if completions != [] {
      CompleteKeepsReady(s, completions[0]);
      CompleteAllKeepsReady(Complete(s, completions[0]), completions[1..]);
    }
  }

  /** The path as completion `j` of a drain finds it. */
  function Before(s: Receive, completions: seq<Completion>, j: nat): (mid: Receive)
    requires Ready(s) && j <= |completions|
    ensures Ready(mid)
  {
    CompleteAllKeepsReady(s, completions[..j]);
    CompleteAll(s, completions[..j])
  }

  lemma {:induction false} CompleteAllSplits(s: Receive, first: seq<Completion>, c: Completion)
    requires Ready(s) && Ready(CompleteAll(s, first))
    ensures CompleteAll(s, first + [c]) == Complete(CompleteAll(s, first), c)
    decreases |first|
  {
    if first == [] {
      assert [c][1..] == [];
    } else {
      CompleteKeepsReady(s, first[0]);
      CompleteAllSplits(Complete(s, first[0]), first[1..], c);
      assert (first + [c])[1..] == first[1..] + [c];
    }
  }

  lemma OneMoreCompletion(s: Receive, completions: seq<Completion>, j: nat)
    requires Ready(s) && j < |completions|
    ensures Before(s, completions, j + 1) == Complete(Before(s, completions, j), completions[j])
  {
    CompleteAllKeepsReady(s, completions[..j]);
    CompleteAllSplits(s, completions[..j], completions[j]);
    assert completions[..j + 1] == completions[..j] + [completions[j]];
  }

  /** Completion `j` of the drain is what `values` describes: it was handed on,
      and the buffer and length are those it found. */
  predicate Describes(s: Receive, completions: seq<Completion>, j: nat, values: seq<nat>)
    requires Ready(s)
  {
    && j < |completions|
    && var mid, c := Before(s, completions, j), completions[j];
       HandedOn(mid, c) && Carries(values, mid.posted[c.slot % |mid.posted|].value, c.usedLen)
  }

  /** Every write a drain makes is one of its completions'. */
  lemma {:induction false} DrainDescribes(s: Receive, completions: seq<Completion>, m: nat, n: nat) returns (j: nat)
    requires Ready(s) && m <= |completions|
    requires |s.ring.writes| <= n < |Before(s, completions, m).ring.writes|
    ensures Describes(s, completions, j, Before(s, completions, m).ring.writes[n].values)
  {
    assert completions[..0] == [];
    OneMoreCompletion(s, completions, m - 1);
    var mid := Before(s, completions, m - 1);
    CompletionPublishes(mid, completions[m - 1]);
    if n < |mid.ring.writes| {
      j := DrainDescribes(s, completions, m - 1, n);
      assert Before(s, completions, m).ring.writes[n] == mid.ring.writes[n];
    } else {
      j := m - 1;
    }
  }

  /** Completion `j` of operation `k` of a run is what `values` describes. */
  predicate CameFrom(s: Receive, ops: seq<Op>, k: nat, j: nat, values: seq<nat>)
    requires Settled(s)
  {
    && k < |ops| && ops[k].Drain?
    && var before := Run(s, ops[..k]);
       Describes(before, Upto(ops[k].completions, |before.posted|), j, values)
  }

  lemma QuietActsWriteNothing(s: Receive, op: Op)
    requires Ready(s) && !op.Drain?
    ensures Act(s, op).ring.writes == s.ring.writes
  {
    match op
    case Refill(heads) => RefillIsBooked(s, heads);
    case Reclaim(_) =>
    case ForgeHead(_) =>
    case Take(limit) => DrainWritesNothing(s.ring, limit);
  }

  lemma {:induction false} DrainWritesNothing(r: R.State, limit: nat)
    requires 0 < |r.consumers|
    ensures R.DrainAt(r, 0, limit).writes == r.writes
  {
  }

  lemma {:induction false} DrainKeepsWrites(s: Receive, completions: seq<Completion>, m: nat)
    requires Ready(s) && m <= |completions|
    ensures s.ring.writes <= Before(s, completions, m).ring.writes
  {
    assert completions[..0] == [];
    if m > 0 {
      DrainKeepsWrites(s, completions, m - 1);
      OneMoreCompletion(s, completions, m - 1);
      CompletionPublishes(Before(s, completions, m - 1), completions[m - 1]);
    }
  }

  /** One operation: what was written stays, and anything more came from a drain. */
  lemma ActWrites(s: Receive, op: Op, n: nat) returns (j: nat)
    requires Ready(s)
    ensures s.ring.writes <= Act(s, op).ring.writes
    ensures |s.ring.writes| <= n < |Act(s, op).ring.writes| ==>
              && op.Drain?
              && Describes(s, Upto(op.completions, |s.posted|), j, Act(s, op).ring.writes[n].values)
  {
    j := 0;
    if op.Drain? {
      var completions := Upto(op.completions, |s.posted|);
      assert completions[..|completions|] == completions;
      DrainKeepsWrites(s, completions, |completions|);
      if |s.ring.writes| <= n < |Act(s, op).ring.writes| {
        j := DrainDescribes(s, completions, |completions|, n);
      }
    } else {
      QuietActsWriteNothing(s, op);
    }
  }

  lemma LastAct(s: Receive, ops: seq<Op>)
    requires Settled(s) && ops != []
    ensures Run(s, ops).ring == Act(Run(s, ops[..|ops| - 1]), ops[|ops| - 1]).ring
  {
  }

  lemma CameFromEarlier(s: Receive, ops: seq<Op>, m: nat, k: nat, j: nat, values: seq<nat>)
    requires Settled(s) && m <= |ops| && CameFrom(s, ops[..m], k, j, values)
    ensures CameFrom(s, ops, k, j, values)
  {
    assert ops[..m][..k] == ops[..k];
  }

  /** Over every run: each write came from a completion. */
  lemma {:induction false} WriteCameFrom(s: Receive, ops: seq<Op>, n: nat) returns (k: nat, j: nat)
    requires Settled(s) && |s.ring.writes| <= n < |Run(s, ops).ring.writes|
    ensures CameFrom(s, ops, k, j, Run(s, ops).ring.writes[n].values)
  {
    var last := |ops| - 1;
    LastAct(s, ops);
    var before := Run(s, ops[..last]);
    j := ActWrites(before, ops[last], n);
    if n < |before.ring.writes| {
      k, j := WriteCameFrom(s, ops[..last], n);
      CameFromEarlier(s, ops, last, k, j, before.ring.writes[n].values);
    } else {
      k := last;
    }
  }

  /** So does each descriptor taken: whatever the forwarder is handed names the
      buffer some completion found posted, with the length the device gave it. */
  lemma TakenCameFrom(slots: nat, buffers: nat, queue: nat, ops: seq<Op>, d: nat) returns (k: nat, j: nat)
    requires slots >= 2 && queue >= 1
    requires d < |Run(Fresh(slots, buffers, queue), ops).ring.delivered|
    ensures CameFrom(Fresh(slots, buffers, queue), ops, k, j,
                     R.Values(Run(Fresh(slots, buffers, queue), ops).ring.delivered[d].image))
  {
    var start := Fresh(slots, buffers, queue);
    var s := Run(start, ops);
    S.FreshIsSafe(slots, 4);
    RunKeepsSafe(start, ops);
    SafeIsTraced(s.ring);
    k, j := WriteCameFrom(start, ops, S.Ordinal(s.ring.delivered[d]));
  }
}
