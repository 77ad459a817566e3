/**
 The receive side of a driver: buffers allocated from the pool, posted to the
 device, lent to the forwarder over the `rx` ring, and taken back when the far
 driver returns them. The device chooses which posted slot completes and with
 what length, the forwarder forges the ring's head, and the far driver returns
 indices of its choosing.

 The claim is that no buffer ever has two owners: for every buffer, in every
 run, the descriptors the forwarder has taken naming it never outnumber the
 times the pool owner lent it. That needs both halves: the ring hands out no
 descriptor twice, and an index is never lent again before it has come back.
 */
module Driver {
  import R = Ring
  import S = RingSafety
  import opened FreeList
  import opened Wrappers
  import opened PoolOwner

  const HEADER_LEN: nat := 12
  const TRANSMIT: nat := 0

  /** `posted` is what this path gave the device, by queue slot; `held` is every
      token it has not given up, so the posted ones and any displaced from an
      occupied slot and leaked; `lends` counts, per buffer, the rising edges of
      its lent flag from one operation to the next. */
  datatype Receive = Receive(
    ring: R.State,
    owner: Owner,
    posted: seq<Option<nat>>,
    held: multiset<nat>,
    lends: seq<nat>)

  datatype Completion = Completion(slot: nat, usedLen: nat)

  datatype Op =
    | Refill(heads: seq<nat>)
    | Drain(completions: seq<Completion>)
    | Reclaim(named: seq<nat>)
    | ForgeHead(word: nat)
    | Take(limit: nat)

  // --------------------------------------------------------------- operations

  /** Post one allocated buffer; what it displaces is leaked. */
  function PostAt(s: Receive, head: nat, buffer: nat): (t: Receive)
    requires s.posted != []
  {
    var k := head % |s.posted|;
    s.(posted := s.posted[k := Some(buffer)], held := s.held + multiset{buffer})
  }

  /** `heads` are the queue slots the device's queue offers before it is full. */
  function RefillFrom(s: Receive, heads: seq<nat>): (t: Receive)
    requires Partition(s.owner.ledger) && s.posted != []
    decreases |heads|
  {
    var (owner, token) := Alloc(s.owner);
    if token.None? then s
    else if heads == [] then s.(owner := PoolOwner.Release(owner, token.value))
    else RefillFrom(PostAt(s.(owner := owner), heads[0], token.value), heads[1..])
  }

  /** The device's length, clamped to the buffer, less the header. */
  function FrameLen(usedLen: nat): nat {
    var len := if usedLen < BUFFER_SIZE then usedLen else BUFFER_SIZE;
    if len < HEADER_LEN then 0 else len - HEADER_LEN
  }

  /** The frame is what the device wrote after the header, never past the buffer,
      and empty exactly for a runt. */
  lemma FrameIsWithinTheBuffer(usedLen: nat)
    ensures HEADER_LEN + FrameLen(usedLen) <= BUFFER_SIZE
    ensures HEADER_LEN <= usedLen <= BUFFER_SIZE ==> HEADER_LEN + FrameLen(usedLen) == usedLen
    ensures usedLen >= BUFFER_SIZE ==> HEADER_LEN + FrameLen(usedLen) == BUFFER_SIZE
    ensures FrameLen(usedLen) == 0 <==> usedLen <= HEADER_LEN
  {
  }

  function Descriptor(buffer: nat, len: nat): seq<nat> { [buffer, HEADER_LEN, len, TRANSMIT] }

  /** The ring as this domain and the forwarder leave it: one handle each, no
      forged tail, no slot written by anyone but this driver. */
  predicate Quiet(r: R.State) { S.Solo(r) && r.stores == [] && r.width == 4 }

  /** What is posted is in hand, and in one slot only. */
  predicate Posted(s: Receive) {
    && s.posted != []
    && (forall k :: 0 <= k < |s.posted| && s.posted[k].Some? ==> s.posted[k].value in s.held)
    && (forall j, k :: 0 <= j < k < |s.posted| && s.posted[j].Some? && s.posted[k].Some? ==>
          s.posted[j].value != s.posted[k].value)
  }

  predicate Ready(s: Receive) {
    && Posted(s) && Quiet(s.ring) && |s.owner.lent| == |s.lends|
    && Split(s.owner, s.held)
  }

  /** One completion: nothing posted there, a runt, a full ring, or a lend. */
  function Complete(s: Receive, c: Completion): (t: Receive)
    requires Ready(s)
  {
    var k := c.slot % |s.posted|;
    if s.posted[k].None? then s
    else
      var buffer, len := s.posted[k].value, FrameLen(c.usedLen);
      var freed := s.(posted := s.posted[k := None], held := s.held - multiset{buffer});
      LendKeepsSplit(s.owner, s.held, buffer);
      if len == 0 then freed.(owner := PoolOwner.Release(s.owner, buffer))
      else
        var ring := R.EnqueueAt(s.ring, 0, Descriptor(buffer, len));
        if R.AppearsFull(s.ring, 0) then freed.(ring := ring, owner := PoolOwner.Release(s.owner, buffer))
        else freed.(ring := ring, owner := Lend(s.owner, buffer))
  }

  lemma EmptySlotKeepsPosted(s: Receive, t: Receive, k: nat)
    requires Posted(s) && k < |s.posted| && s.posted[k].Some?
    requires t.posted == s.posted[k := None] && t.held == s.held - multiset{s.posted[k].value}
    ensures Posted(t)
  {
  }

  lemma CompleteKeepsReady(s: Receive, c: Completion)
    requires Ready(s)
    ensures Ready(Complete(s, c))
  {
    var k, t := c.slot % |s.posted|, Complete(s, c);
    if s.posted[k].Some? {
      LendKeepsSplit(s.owner, s.held, s.posted[k].value);
      ReleaseIsAccepted(s.owner, s.held, s.posted[k].value);
      EmptySlotKeepsPosted(s, t, k);
    }
  }

  function CompleteAll(s: Receive, completions: seq<Completion>): (t: Receive)
    requires Ready(s)
    decreases |completions|
  {
    if completions == [] then s
    else CompleteKeepsReady(s, completions[0]); CompleteAll(Complete(s, completions[0]), completions[1..])
  }

  function Upto<T>(items: seq<T>, limit: nat): seq<T> { if |items| <= limit then items else items[..limit] }

  /** At most a queue's worth of completions is looked at in one drain, and at
      most `DRAIN_LIMIT` returns in one reclaim. */
  function Act(s: Receive, op: Op): (t: Receive)
    requires Ready(s)
  {
    match op
    case Refill(heads) => RefillFrom(s, heads)
    case Drain(completions) => CompleteAll(s, Upto(completions, |s.posted|))
    case Reclaim(named) => s.(owner := Reclaimed(s.owner, Upto(named, DRAIN_LIMIT)))
    case ForgeHead(word) => s.(ring := R.Step(s.ring, R.ForgeHead(word)))
    case Take(limit) => s.(ring := R.DrainAt(s.ring, 0, limit))
  }

  // ------------------------------------------------------------------ the books

  /** A published descriptor names a pool buffer and a span inside it that starts
      after the header and is not empty, to be transmitted. */
  predicate Published(values: seq<nat>, buffers: nat) {
    && |values| == 4
    && values[0] < buffers
    && values[1] == HEADER_LEN && values[2] > 0 && values[1] + values[2] <= BUFFER_SIZE
    && values[3] == TRANSMIT
  }

  predicate AllPublished(writes: seq<R.Write>, buffers: nat) {
    forall n :: 0 <= n < |writes| ==> Published(writes[n].values, buffers)
  }

  /** How many of the writes name a buffer. */
  function Naming(writes: seq<R.Write>, b: nat): nat {
    if writes == [] then 0
    else
      var last := writes[|writes| - 1].values;
      Naming(writes[..|writes| - 1], b) + if |last| > 0 && last[0] == b then 1 else 0
  }

  function Edge(before: bool, now: bool): nat { if !before && now then 1 else 0 }

  /** Within an operation that began with the flags `lent`: every descriptor
      naming a buffer is a counted lend or the one rising edge not yet counted. */
  predicate Booked(s: Receive, lent: seq<bool>) {
    && |lent| == |s.owner.lent| == |s.lends| && AllPublished(s.ring.writes, |lent|)
    && (forall b :: 0 <= b < |lent| ==>
          Naming(s.ring.writes, b) == s.lends[b] + Edge(lent[b], s.owner.lent[b]))
  }

  predicate NoneFell(s: Receive, lent: seq<bool>) {
    |lent| == |s.owner.lent| && forall b :: 0 <= b < |lent| ==> (lent[b] ==> s.owner.lent[b])
  }

  lemma OneMoreNamed(writes: seq<R.Write>, w: R.Write, b: nat)
    requires |w.values| == 4
    ensures Naming(writes + [w], b) == Naming(writes, b) + if w.values[0] == b then 1 else 0
  {
    assert (writes + [w])[..|writes|] == writes;
  }

  /** A lend is one more descriptor and one more rising edge, of one buffer. */
  lemma LendIsBooked(s: Receive, t: Receive, lent: seq<bool>, w: R.Write)
    requires Booked(s, lent) && NoneFell(s, lent)
    requires t.lends == s.lends && Published(w.values, |lent|)
    requires t.ring.writes == s.ring.writes + [w] && !s.owner.lent[w.values[0]]
    requires t.owner.lent == s.owner.lent[w.values[0] := true]
    ensures Booked(t, lent) && NoneFell(t, lent)
  {
    forall b | 0 <= b < |lent|
      ensures Naming(t.ring.writes, b) == t.lends[b] + Edge(lent[b], t.owner.lent[b])
    {
      OneMoreNamed(s.ring.writes, w, b);
    }
  }

  lemma CompleteIsBooked(s: Receive, c: Completion, lent: seq<bool>)
    requires Ready(s) && Booked(s, lent) && NoneFell(s, lent)
    ensures Booked(Complete(s, c), lent) && NoneFell(Complete(s, c), lent)
  {
    var t, k, len := Complete(s, c), c.slot % |s.posted|, FrameLen(c.usedLen);
    if s.posted[k].Some? && len > 0 && !R.AppearsFull(s.ring, 0) {
      var buffer := s.posted[k].value;
      LendKeepsSplit(s.owner, s.held, buffer);
      LendIsBooked(s, t, lent, R.Write(s.ring.producers[0], Descriptor(buffer, len)));
    }
  }

  lemma {:induction false} CompleteAllIsBooked(s: Receive, completions: seq<Completion>, lent: seq<bool>)
    requires Ready(s) && Booked(s, lent) && NoneFell(s, lent)
    ensures var t := CompleteAll(s, completions); Ready(t) && Booked(t, lent)
    decreases |completions|
  {
    if completions != [] {
      CompleteKeepsReady(s, completions[0]);
      CompleteIsBooked(s, completions[0], lent);
      CompleteAllIsBooked(Complete(s, completions[0]), completions[1..], lent);
    }
  }

  /** A buffer just allocated can be posted, or released again. */
  lemma PostKeepsReady(s: Receive, head: nat)
    requires Ready(s) && Alloc(s.owner).1.Some?
    ensures var (owner, token) := Alloc(s.owner);
            && Ready(PostAt(s.(owner := owner), head, token.value))
            && Ready(s.(owner := PoolOwner.Release(owner, token.value)))
            && owner.lent == s.owner.lent && PoolOwner.Release(owner, token.value).lent == s.owner.lent
  {
    var (owner, token) := Alloc(s.owner);
    AllocKeepsSplit(s.owner, s.held);
    var held := s.held + multiset{token.value};
    ReleaseIsAccepted(owner, held, token.value);
    assert held - multiset{token.value} == s.held;
  }

  lemma {:induction false} RefillIsBooked(s: Receive, heads: seq<nat>)
    requires Ready(s)
    ensures var t := RefillFrom(s, heads);
            Ready(t) && t.ring == s.ring && t.lends == s.lends && t.owner.lent == s.owner.lent
    decreases |heads|
  {
    var (owner, token) := Alloc(s.owner);
    if token.Some? {
      PostKeepsReady(s, if heads == [] then 0 else heads[0]);
      if heads != [] { RefillIsBooked(PostAt(s.(owner := owner), heads[0], token.value), heads[1..]); }
    }
  }

  lemma ReclaimIsBooked(s: Receive, named: seq<nat>)
    requires Ready(s) && Booked(s, s.owner.lent)
    ensures var t := s.(owner := Reclaimed(s.owner, named)); Ready(t) && Booked(t, s.owner.lent)
  {
    ReclaimKeepsSplit(s.owner, s.held, named);
    var t := s.(owner := Reclaimed(s.owner, named));
    forall b | 0 <= b < |s.owner.lent| ensures Edge(s.owner.lent[b], t.owner.lent[b]) == 0 {
      assert b in Lent(t.owner) ==> b in Lent(s.owner);
    }
  }

  lemma ActIsBooked(s: Receive, op: Op)
    requires Ready(s) && Booked(s, s.owner.lent)
    ensures Ready(Act(s, op)) && Booked(Act(s, op), s.owner.lent)
  {
    match op
    case Refill(heads) => RefillIsBooked(s, heads);
    case Drain(completions) => CompleteAllIsBooked(s, Upto(completions, |s.posted|), s.owner.lent);
    case Reclaim(named) => ReclaimIsBooked(s, Upto(named, DRAIN_LIMIT));
    case ForgeHead(_) =>
    case Take(_) =>
  }

  // ------------------------------------------------------------ the ring is safe

  lemma {:induction false} CompleteAllKeepsSafe(s: Receive, completions: seq<Completion>)
    requires Ready(s) && S.Safe(s.ring)
    ensures S.Safe(CompleteAll(s, completions).ring)
    decreases |completions|
  {
    if completions != [] {
      var c := completions[0];
      CompleteKeepsReady(s, c);
      CompleteKeepsSafe(s, c);
      CompleteAllKeepsSafe(Complete(s, c), completions[1..]);
    }
  }

  lemma CompleteKeepsSafe(s: Receive, c: Completion)
    requires Ready(s) && S.Safe(s.ring)
    ensures S.Safe(Complete(s, c).ring)
  {
    var k := c.slot % |s.posted|;
    if s.posted[k].Some? {
      S.EnqueueKeepsSafe(s.ring, 0, Descriptor(s.posted[k].value, FrameLen(c.usedLen)));
    }
  }

  lemma ActKeepsSafe(s: Receive, op: Op)
    requires Ready(s) && S.Safe(s.ring)
    ensures S.Safe(Act(s, op).ring)
  {
    match op
    case Refill(heads) => RefillIsBooked(s, heads);
    case Drain(completions) => CompleteAllKeepsSafe(s, Upto(completions, |s.posted|));
    case Reclaim(_) =>
    case ForgeHead(word) => S.ForgeKeepsSafe(s.ring, R.ForgeHead(word));
    case Take(limit) => S.DrainKeepsSafe(s.ring, 0, limit);
  }

  // ----------------------------------------------------------------------- runs

  /** The lends an operation made, counted from the flags either side of it. */
  function Settle(t: Receive, lent: seq<bool>): (u: Receive)
    requires |lent| == |t.owner.lent| == |t.lends|
  {
    t.(lends := seq(|lent|, b requires 0 <= b < |lent| => t.lends[b] + Edge(lent[b], t.owner.lent[b])))
  }

  predicate Settled(s: Receive) { Ready(s) && Booked(s, s.owner.lent) }

  function Step(s: Receive, op: Op): (t: Receive)
    requires Settled(s)
    ensures Settled(t) && |t.lends| == |s.lends|
  {
    ActIsBooked(s, op);
    Settle(Act(s, op), s.owner.lent)
  }

  function Unposted(n: nat): seq<Option<nat>> { seq(n, _ => None) }

  /** A ring of `slots`, a pool of `buffers`, a queue of `queue`: in the source
      128, 64 and 16. */
  function Fresh(slots: nat, buffers: nat, queue: nat): (s: Receive)
    requires slots >= 2 && queue >= 1
    ensures Settled(s) && |s.lends| == buffers
  {
    Receive(R.Fresh(slots, 4), Attach(buffers), Unposted(queue), multiset{}, seq(buffers, _ => 0))
  }

  function Run(s: Receive, ops: seq<Op>): (t: Receive)
    requires Settled(s)
    ensures Settled(t) && |t.lends| == |s.lends|
  {
    if ops == [] then s else Step(Run(s, ops[..|ops| - 1]), ops[|ops| - 1])
  }

  lemma {:induction false} RunKeepsSafe(s: Receive, ops: seq<Op>)
    requires Settled(s) && S.Safe(s.ring)
    ensures S.Safe(Run(s, ops).ring)
  {
    if ops != [] {
      RunKeepsSafe(s, ops[..|ops| - 1]);
      ActKeepsSafe(Run(s, ops[..|ops| - 1]), ops[|ops| - 1]);
    }
  }

  // --------------------------------------------------- takes never exceed lends

  /** How many of the descriptors taken name a buffer. */
  function Taken(delivered: seq<R.Delivery>, b: nat): nat {
    if delivered == [] then 0
    else
      var image := delivered[|delivered| - 1].image;
      Taken(delivered[..|delivered| - 1], b) + if |image| > 0 && image[0].value == b then 1 else 0
  }

  /** Each descriptor taken is one write's, and no write's twice. */
  predicate Traced(delivered: seq<R.Delivery>, writes: seq<R.Write>) {
    && (forall d :: 0 <= d < |delivered| ==>
          && S.Counted(delivered[d]) && S.Ordinal(delivered[d]) < |writes|
          && R.Values(delivered[d].image) == writes[S.Ordinal(delivered[d])].values)
    && S.InOrder(delivered)
  }

  lemma SafeIsTraced(r: R.State)
    requires S.Safe(r) && Quiet(r)
    ensures Traced(r.delivered, r.writes)
  {
    forall d | 0 <= d < |r.delivered|
      ensures S.Counted(r.delivered[d]) && S.Ordinal(r.delivered[d]) < |r.writes|
      ensures R.Values(r.delivered[d].image) == r.writes[S.Ordinal(r.delivered[d])].values
    {
      assert S.Counted(r.delivered[d]);
      assert forall j :: 0 <= j < r.width ==> S.Sourced(r, r.delivered[d].slot, j, r.delivered[d].image[j]);
    }
  }

  lemma {:induction false} NamingGrows(writes: seq<R.Write>, m: nat, n: nat, b: nat)
    requires m <= n <= |writes|
    ensures Naming(writes[..m], b) <= Naming(writes[..n], b)
  {
    if m < n {
      NamingGrows(writes, m, n - 1, b);
      assert writes[..n][..n - 1] == writes[..n - 1];
    }
  }

  lemma OneMoreTaken(delivered: seq<R.Delivery>, k: nat, b: nat)
    requires k < |delivered| && |delivered[k].image| > 0
    ensures Taken(delivered[..k + 1], b)
         == Taken(delivered[..k], b) + if delivered[k].image[0].value == b then 1 else 0
  {
    assert delivered[..k + 1][..k] == delivered[..k];
  }

  lemma NextWriteNames(writes: seq<R.Write>, n: nat, b: nat)
    requires n < |writes| && |writes[n].values| > 0
    ensures Naming(writes[..n + 1], b) == Naming(writes[..n], b) + if writes[n].values[0] == b then 1 else 0
  {
    assert writes[..n + 1][..n] == writes[..n];
  }

  /** The first write past the one the last of `k` deliveries was. */
  function Past(delivered: seq<R.Delivery>, k: nat): nat
    requires k <= |delivered| && (k > 0 ==> S.Counted(delivered[k - 1]))
  {
    if k == 0 then 0 else S.Ordinal(delivered[k - 1]) + 1
  }

  /** Rising ordinals make the descriptors taken a selection of the writes. */
  lemma {:induction false} TakenIsWritten(delivered: seq<R.Delivery>, writes: seq<R.Write>, k: nat, b: nat)
    requires Traced(delivered, writes) && k <= |delivered|
    ensures Past(delivered, k) <= |writes| && Taken(delivered[..k], b) <= Naming(writes[..Past(delivered, k)], b)
  {
    if k > 0 {
      var d, n := delivered[k - 1], S.Ordinal(delivered[k - 1]);
      TakenIsWritten(delivered, writes, k - 1, b);
      NamingGrows(writes, Past(delivered, k - 1), n, b);
      assert R.Values(d.image)[0] == d.image[0].value;
      OneMoreTaken(delivered, k - 1, b);
      NextWriteNames(writes, n, b);
    }
  }

  lemma AllTakenIsWritten(r: R.State, b: nat)
    requires S.Safe(r) && Quiet(r)
    ensures Taken(r.delivered, b) <= Naming(r.writes, b)
  {
    SafeIsTraced(r);
    var d, w := r.delivered, r.writes;
    TakenIsWritten(d, w, |d|, b);
    NamingGrows(w, Past(d, |d|), |w|, b);
    assert d[..|d|] == d && w[..|w|] == w;
  }

  /** For every buffer, in every run: the descriptors taken naming it never
      outnumber its lends. */
  lemma TakesNeverExceedLends(slots: nat, buffers: nat, queue: nat, ops: seq<Op>, b: nat)
    requires slots >= 2 && queue >= 1 && b < buffers
    ensures var s := Run(Fresh(slots, buffers, queue), ops);
            |s.lends| == buffers && Taken(s.ring.delivered, b) <= s.lends[b]
  {
    var s := Run(Fresh(slots, buffers, queue), ops);
    S.FreshIsSafe(slots, 4);
    RunKeepsSafe(Fresh(slots, buffers, queue), ops);
    AllTakenIsWritten(s.ring, b);
  }

  /** And every descriptor taken names a span inside a pool buffer, whatever
      length the device reported. */
  lemma TakesAreInBounds(slots: nat, buffers: nat, queue: nat, ops: seq<Op>, d: nat)
    requires slots >= 2 && queue >= 1
    requires d < |Run(Fresh(slots, buffers, queue), ops).ring.delivered|
    ensures Published(R.Values(Run(Fresh(slots, buffers, queue), ops).ring.delivered[d].image), buffers)
  {
    S.FreshIsSafe(slots, 4);
    RunKeepsSafe(Fresh(slots, buffers, queue), ops);
    SafeIsTraced(Run(Fresh(slots, buffers, queue), ops).ring);
  }

  /** No two hands on one buffer: free, held by the driver and lent partition the
      pool after every run. */
  lemma BuffersArePartitioned(slots: nat, buffers: nat, queue: nat, ops: seq<Op>)
    requires slots >= 2 && queue >= 1
    ensures var s := Run(Fresh(slots, buffers, queue), ops);
            multiset(s.owner.ledger.free) + s.held + multiset(Lent(s.owner)) == multiset(Range(buffers))
  {
    var s := Run(Fresh(slots, buffers, queue), ops);
    ThreeHands(s.owner, s.held);
  }
}
