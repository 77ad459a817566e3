/**
 The domain a packet pool belongs to. A buffer is free, held by this domain as a
 token, or lent to a peer as a bare index, and the peer's returns name any index
 it likes. The ledger of `FreeList` cannot tell a held index from a lent one, so
 the owner keeps a lent flag per index and accepts a return only where it is up.
 */
module PoolOwner {
  import opened FreeList
  import opened Wrappers
  import R = Ring
  import RingFifo
  import RingImage

  const POOL_BUFFERS: nat := 64
  const BUFFER_SIZE: nat := 2048
  const DRAIN_LIMIT: nat := 128
  const U64_MAX: nat := 0xffff_ffff_ffff_ffff

  datatype Owner = Owner(ledger: Ledger, lent: seq<bool>, notLent: nat, refused: nat)

  function Lent(o: Owner): set<nat> { set i | 0 <= i < |o.lent| && o.lent[i] }

  /** Saturating, so that a flood never reads as a small number. */
  function Bump(counter: nat): nat { if counter < U64_MAX then counter + 1 else counter }

  /** What is outstanding is held here or lent out: each index one of the two,
      and in one hand only. */
  predicate Split(o: Owner, held: multiset<nat>) {
    && |o.lent| == |o.ledger.outstanding|
    && Partition(o.ledger)
    && held + multiset(Lent(o)) == multiset(Out(o.ledger))
  }

  function Attach(n: nat): (o: Owner)
    ensures Split(o, multiset{})
    ensures |o.lent| == n && Lent(o) == {}
  {
    Owner(Full(n), seq(n, _ => false), 0, 0)
  }

  // ------------------------------------------------------- the three partitions

  /** Free, held and lent cover the pool, every index exactly once. */
  lemma ThreeHands(o: Owner, held: multiset<nat>)
    requires Split(o, held)
    ensures multiset(o.ledger.free) + held + multiset(Lent(o)) == multiset(Range(|o.lent|))
  {
    var l := o.ledger;
    assert In(l) + Out(l) == Range(|o.lent|);
    assert multiset(Range(|o.lent|)) == multiset(In(l)) + multiset(Out(l));
  }

  lemma HeldIsOutstanding(o: Owner, held: multiset<nat>, index: nat)
    requires Split(o, held) && index in held
    ensures index in Out(o.ledger) && index !in Lent(o) && held[index] == 1
  {
    var both := held + multiset(Lent(o));
    assert both[index] == held[index] + multiset(Lent(o))[index];
    assert multiset(Out(o.ledger))[index] <= 1;
  }

  lemma LentIsOutstanding(o: Owner, held: multiset<nat>, index: nat)
    requires Split(o, held) && index in Lent(o)
    ensures index in Out(o.ledger) && index !in held
  {
    var both := held + multiset(Lent(o));
    assert both[index] == held[index] + multiset(Lent(o))[index];
    assert multiset(Out(o.ledger))[index] <= 1;
  }

  // ----------------------------------------------------------------- operations

  function Alloc(o: Owner): (r: (Owner, Option<nat>))
    requires Partition(o.ledger)
  {
    var (ledger, token) := Pop(o.ledger);
    (o.(ledger := ledger), token)
  }

  /** An allocated buffer is in the pool and in nobody's hands, and moves into
      this domain's. */
  lemma AllocKeepsSplit(o: Owner, held: multiset<nat>)
    requires Split(o, held)
    ensures var (t, token) := Alloc(o);
            match token
            case None => t == o && held + multiset(Lent(o)) == multiset(Range(|o.lent|))
            case Some(index) =>
              && index < |o.lent| && index !in held && index !in Lent(o)
              && Lent(t) == Lent(o) && |t.lent| == |o.lent|
              && Split(t, held + multiset{index})
  {
    var (t, token) := Alloc(o);
    if token.Some? {
      assert token.value !in multiset(Out(o.ledger));
      assert token.value !in held + multiset(Lent(o));
      assert multiset(Out(t.ledger)) == multiset(Out(o.ledger)) + multiset{token.value};
    } else {
      ThreeHands(o, held);
    }
  }

  /** A held token's return is never refused. */
  function Release(o: Owner, index: nat): (t: Owner)
    requires Partition(o.ledger)
  {
    o.(ledger := Accept(o.ledger, index).0)
  }

  lemma ReleaseIsAccepted(o: Owner, held: multiset<nat>, index: nat)
    requires Split(o, held) && index in held
    ensures Accept(o.ledger, index).1 == Accepted
    ensures Split(Release(o, index), held - multiset{index})
    ensures Lent(Release(o, index)) == Lent(o)
  {
    HeldIsOutstanding(o, held, index);
    var t := Release(o, index);
    assert multiset(Out(t.ledger)) == multiset(Out(o.ledger)) - multiset{index};
  }

  /** The index crossed onto a ring. */
  function Lend(o: Owner, index: nat): (t: Owner)
    requires index < |o.lent|
  {
    o.(lent := o.lent[index := true])
  }

  lemma LendKeepsSplit(o: Owner, held: multiset<nat>, index: nat)
    requires Split(o, held) && index in held
    ensures index < |o.lent| && index !in Lent(o)
    ensures Split(Lend(o, index), held - multiset{index})
    ensures Lent(Lend(o, index)) == Lent(o) + {index}
  {
    HeldIsOutstanding(o, held, index);
    var t := Lend(o, index);
    assert Lent(t) == Lent(o) + {index};
    assert multiset(Lent(t)) == multiset(Lent(o)) + multiset{index};
  }

  /** Any number may come back; only a lent one is taken. */
  function ReclaimOne(o: Owner, index: nat): (t: Owner)
    requires Partition(o.ledger)
    ensures Partition(t.ledger) && |t.lent| == |o.lent|
  {
    if index >= |o.lent| || !o.lent[index] then o.(notLent := Bump(o.notLent))
    else
      var (ledger, outcome) := Accept(o.ledger, index);
      if outcome.Accepted? then o.(ledger := ledger, lent := o.lent[index := false])
      else o.(refused := Bump(o.refused))
  }

  /** Only a lent index comes back, the ledger never refuses one, and no hand
      but the peer's loses anything. */
  lemma ReclaimOneKeepsSplit(o: Owner, held: multiset<nat>, index: nat)
    requires Split(o, held)
    ensures var t := ReclaimOne(o, index);
            && Split(t, held) && Lent(t) == Lent(o) - {index} && t.refused == o.refused
  {
    var t := ReclaimOne(o, index);
    if index in Lent(o) {
      LentIsOutstanding(o, held, index);
      assert Lent(t) == Lent(o) - {index};
      assert multiset(Lent(t)) == multiset(Lent(o)) - multiset{index};
      assert multiset(Out(t.ledger)) == multiset(Out(o.ledger)) - multiset{index};
    } else {
      assert Lent(o) == Lent(o) - {index};
    }
  }

  function Reclaimed(o: Owner, named: seq<nat>): (t: Owner)
    requires Partition(o.ledger)
    ensures Partition(t.ledger) && |t.lent| == |o.lent|
    decreases |named|
  {
    if named == [] then o else Reclaimed(ReclaimOne(o, named[0]), named[1..])
  }

  lemma ReclaimNext(o: Owner, named: seq<nat>, k: nat)
    requires Partition(o.ledger) && k < |named|
    ensures Reclaimed(o, named[k..]) == Reclaimed(ReclaimOne(o, named[k]), named[k + 1..])
  {
    assert named[k..][1..] == named[k + 1..];
  }

  function Elements(named: seq<nat>): set<nat> { set i | i in named }

  /** However often and however wildly the peer names buffers, exactly the lent
      ones among them come back. */
  lemma {:induction false} ReclaimKeepsSplit(o: Owner, held: multiset<nat>, named: seq<nat>)
    requires Split(o, held)
    ensures var t := Reclaimed(o, named);
            && Split(t, held) && Lent(t) == Lent(o) - Elements(named) && t.refused == o.refused
    decreases |named|
  {
    if named != [] {
      ReclaimOneKeepsSplit(o, held, named[0]);
      ReclaimKeepsSplit(ReclaimOne(o, named[0]), held, named[1..]);
      assert named == [named[0]] + named[1..];
      assert Elements(named) == {named[0]} + Elements(named[1..]);
    }
  }

  function Saturated(counter: nat): nat { if counter < U64_MAX then counter else U64_MAX }

  lemma ReclaimOneCounts(o: Owner, held: multiset<nat>, index: nat)
    requires Split(o, held)
    ensures var t := ReclaimOne(o, index);
            && |Lent(t)| <= |Lent(o)|
            && (index in Lent(o) ==> t.notLent == o.notLent && |Lent(o)| == |Lent(t)| + 1)
            && (index !in Lent(o) ==> t.notLent == Bump(o.notLent) && |Lent(o)| == |Lent(t)|)
  {
    ReclaimOneKeepsSplit(o, held, index);
    if index in Lent(o) {
      LentIsOutstanding(o, held, index);
    } else {
      assert Lent(o) - {index} == Lent(o);
    }
  }

  /** Of `n` indices named, those by which the lent ones shrank came back and the
      counter rose by the rest. */
  predicate Counts(lent: nat, counter: nat, n: nat, left: nat, now: nat) {
    left <= lent <= left + n && now == Saturated(counter + n - (lent - left))
  }

  lemma OneMoreCounts(lent: nat, counter: nat, n: nat, left: nat, now: nat, came: bool)
    requires counter <= U64_MAX && (came ==> lent > 0)
    requires if came then Counts(lent - 1, counter, n, left, now) else Counts(lent, Bump(counter), n, left, now)
    ensures Counts(lent, counter, n + 1, left, now)
  {
  }

  /** Every index the peer named either came back or is counted as not lent. */
  lemma {:induction false} ReclaimCountsTheRest(o: Owner, held: multiset<nat>, named: seq<nat>)
    requires Split(o, held) && o.notLent <= U64_MAX
    ensures var t := Reclaimed(o, named); Counts(|Lent(o)|, o.notLent, |named|, |Lent(t)|, t.notLent)
    decreases |named|
  {
    if named != [] {
      var next, t := ReclaimOne(o, named[0]), Reclaimed(o, named);
      ReclaimOneCounts(o, held, named[0]);
      ReclaimOneKeepsSplit(o, held, named[0]);
      ReclaimCountsTheRest(next, held, named[1..]);
      OneMoreCounts(|Lent(o)|, o.notLent, |named| - 1, |Lent(t)|, t.notLent, named[0] in Lent(o));
    }
  }

  // ------------------------------------------------------------------ addresses

  function BufferAddress(base: nat, index: nat): (address: nat) { base + index * BUFFER_SIZE }

  /** Whether byte `k` is one of the `len` bytes at `at`. */
  predicate Covers(at: nat, len: nat, k: nat) { at <= k < at + len }

  /** A pool buffer's range lies inside the pool, and two buffers share no byte. */
  lemma BuffersAreContainedAndDisjoint(base: nat, n: nat, a: nat, b: nat)
    requires a < n && b < n
    ensures base <= BufferAddress(base, a) && BufferAddress(base, a) + BUFFER_SIZE <= base + n * BUFFER_SIZE
    ensures (exists k: nat ::
               Covers(BufferAddress(base, a), BUFFER_SIZE, k) && Covers(BufferAddress(base, b), BUFFER_SIZE, k))
            <==> a == b
  {
    if a == b { assert Covers(BufferAddress(base, a), BUFFER_SIZE, BufferAddress(base, a)); }
  }

  datatype Span = Span(buffer: nat, offset: nat, len: nat)

  /** The bounds check a peer's descriptor passes. The source adds in a word wide
      enough that the sum cannot wrap. */
  predicate InBounds(d: Span) {
    d.buffer < POOL_BUFFERS && d.offset + d.len <= BUFFER_SIZE
  }

  /** A span passes exactly when the buffer it names is in the pool and every
      byte it names lies in that buffer; an empty one must still start there. */
  lemma InBoundsIsContainment(base: nat, d: Span)
    ensures var at := BufferAddress(base, d.buffer);
            InBounds(d) <==>
              && d.buffer < POOL_BUFFERS && d.offset <= BUFFER_SIZE
              && forall k: nat :: Covers(at + d.offset, d.len, k) ==> Covers(at, BUFFER_SIZE, k)
  {
    if d.buffer < POOL_BUFFERS && d.offset <= BUFFER_SIZE < d.offset + d.len {
      var at := BufferAddress(base, d.buffer);
      assert Covers(at + d.offset, d.len, at + BUFFER_SIZE) && !Covers(at, BUFFER_SIZE, at + BUFFER_SIZE);
    }
  }

  // ------------------------------------------------------------------------ runs

  /** `ringFull` is free, since a forged cursor can make a ring appear either way. */
  datatype Op =
    | AllocOne
    | LendHeld(position: nat, ringFull: bool)
    | ReleaseHeld(position: nat)
    | ReclaimAll(named: seq<nat>)

  datatype Domain = Domain(owner: Owner, held: seq<nat>)

  predicate Inv(s: Domain) {
    Split(s.owner, multiset(s.held)) && s.owner.refused == 0
  }

  function Without(held: seq<nat>, k: nat): (rest: seq<nat>)
    requires k < |held|
    ensures multiset(rest) == multiset(held) - multiset{held[k]}
  {
    assert held == held[..k] + [held[k]] + held[k + 1..];
    held[..k] + held[k + 1..]
  }

  function Step(s: Domain, op: Op): (t: Domain)
    requires Inv(s)
  {
    match op
    case AllocOne =>
      var (owner, token) := Alloc(s.owner);
      Domain(owner, s.held + if token.Some? then [token.value] else [])
    case LendHeld(position, ringFull) =>
      if s.held == [] then s
      else
        var k := position % |s.held|;
        LendKeepsSplit(s.owner, multiset(s.held), s.held[k]);
        if ringFull then Domain(s.owner, Without(s.held, k) + [s.held[k]])
        else Domain(Lend(s.owner, s.held[k]), Without(s.held, k))
    case ReleaseHeld(position) =>
      if s.held == [] then s
      else var k := position % |s.held|; Domain(Release(s.owner, s.held[k]), Without(s.held, k))
    case ReclaimAll(named) => s.(owner := Reclaimed(s.owner, named))
  }

  /** An allocation moves the top of the free stack into hand. */
  lemma AllocMovesTheTop(s: Domain)
    requires Inv(s)
    ensures var t, free := Step(s, AllocOne), s.owner.ledger.free;
            if free == [] then t == s
            else t.held == s.held + [free[|free| - 1]] && t.owner.lent == s.owner.lent
  {
  }

  /** A lend moves one token out, unless the ring appears full. */
  lemma LendMovesOne(s: Domain, position: nat, ringFull: bool)
    requires Inv(s)
    ensures var t, hand := Step(s, LendHeld(position, ringFull)), multiset(s.held);
            if s.held == [] then t == s
            else if ringFull then multiset(t.held) == hand && t.owner == s.owner
            else
              var index := s.held[position % |s.held|];
              multiset(t.held) == hand - multiset{index} && Lent(t.owner) == Lent(s.owner) + {index}
  {
    if s.held != [] { LendKeepsSplit(s.owner, multiset(s.held), s.held[position % |s.held|]); }
  }

  /** A release moves one token to the top of the free stack. */
  lemma ReleaseMovesOne(s: Domain, position: nat)
    requires Inv(s)
    ensures var t := Step(s, ReleaseHeld(position));
            if s.held == [] then t == s
            else
              var index := s.held[position % |s.held|];
              && multiset(t.held) == multiset(s.held) - multiset{index} && t.owner.lent == s.owner.lent
              && t.owner.ledger.free == s.owner.ledger.free + [index]
  {
    if s.held != [] { ReleaseIsAccepted(s.owner, multiset(s.held), s.held[position % |s.held|]); }
  }

  /** A reclaim moves the lent ones named, and no token. */
  lemma ReclaimMovesTheLent(s: Domain, named: seq<nat>)
    requires Inv(s)
    ensures var t := Step(s, ReclaimAll(named));
            t.held == s.held && Lent(t.owner) == Lent(s.owner) - Elements(named)
  {
    ReclaimKeepsSplit(s.owner, multiset(s.held), named);
  }

  lemma StepKeepsInv(s: Domain, op: Op)
    requires Inv(s)
    ensures Inv(Step(s, op)) && |Step(s, op).owner.lent| == |s.owner.lent|
  {
    var t := Step(s, op);
    match op
    case AllocOne => AllocKeepsSplit(s.owner, multiset(s.held));
    case LendHeld(position, ringFull) =>
      if s.held != [] {
        var k := position % |s.held|;
        LendKeepsSplit(s.owner, multiset(s.held), s.held[k]);
        assert ringFull ==> multiset(t.held) == multiset(s.held);
      }
    case ReleaseHeld(position) =>
      if s.held != [] {
        ReleaseIsAccepted(s.owner, multiset(s.held), s.held[position % |s.held|]);
      }
    case ReclaimAll(named) => ReclaimKeepsSplit(s.owner, multiset(s.held), named);
  }

  function Run(n: nat, ops: seq<Op>): (s: Domain)
    ensures Inv(s) && |s.owner.lent| == n
  {
    if ops == [] then Domain(Attach(n), [])
    else
      var s := Run(n, ops[..|ops| - 1]);
      StepKeepsInv(s, ops[|ops| - 1]);
      Step(s, ops[|ops| - 1])
  }

  /** In every run, under arbitrary returns: free, held and lent partition the
      pool, and a lent buffer's return is never refused. */
  lemma RunPartitionsThePool(n: nat, ops: seq<Op>)
    ensures var s := Run(n, ops);
            && multiset(s.owner.ledger.free) + multiset(s.held) + multiset(Lent(s.owner)) == multiset(Range(n))
            && s.owner.refused == 0
  {
    var s := Run(n, ops);
    ThreeHands(s.owner, multiset(s.held));
  }

  /** So a buffer handed out is held by nobody already. */
  lemma AllocIsNeverHeld(n: nat, ops: seq<Op>)
    ensures var s := Run(n, ops);
            var token := Alloc(s.owner).1;
            token.Some? ==> token.value < n && token.value !in s.held && token.value !in Lent(s.owner)
  {
    var s := Run(n, ops);
    AllocKeepsSplit(s.owner, multiset(s.held));
    var token := Alloc(s.owner).1;
    if token.Some? {
      assert token.value !in multiset(s.held);
    }
  }

  /** Hand every token back and drain: what comes out is the pool less what is
      lent, each index once. */
  lemma FinalDrain(n: nat, ops: seq<Op>)
    ensures var s := Run(n, ops);
            multiset(TopDown(ReleaseAll(s.owner, s.held).ledger.free)) == multiset(Range(n) - Lent(s.owner))
  {
    var s := Run(n, ops);
    ReleaseAllReturnsAll(s.owner, s.held);
    var t := ReleaseAll(s.owner, s.held);
    TopDownIsAll(t.ledger.free);
    NothingHeld(t);
  }

  lemma NothingHeld(o: Owner)
    requires Split(o, multiset{})
    ensures multiset(o.ledger.free) == multiset(Range(|o.lent|) - Lent(o))
  {
    var n := |o.lent|;
    assert multiset(Lent(o)) == multiset(Out(o.ledger));
    assert Lent(o) == Out(o.ledger) by {
      assert forall i :: i in Lent(o) <==> i in multiset(Lent(o));
      assert forall i :: i in Out(o.ledger) <==> i in multiset(Out(o.ledger));
    }
    assert In(o.ledger) == Range(n) - Out(o.ledger);
  }

  function ReleaseAll(o: Owner, held: seq<nat>): (t: Owner)
    requires Partition(o.ledger)
    ensures Partition(t.ledger)
    decreases |held|
  {
    if held == [] then o else ReleaseAll(Release(o, held[0]), held[1..])
  }

  lemma {:induction false} ReleaseAllReturnsAll(o: Owner, held: seq<nat>)
    requires Split(o, multiset(held))
    ensures var t := ReleaseAll(o, held);
            Split(t, multiset{}) && Lent(t) == Lent(o) && |t.lent| == |o.lent|
    decreases |held|
  {
    if held != [] {
      assert held == [held[0]] + held[1..];
      assert held[0] in multiset(held);
      ReleaseIsAccepted(o, multiset(held), held[0]);
      assert multiset(held[1..]) == multiset(held) - multiset{held[0]};
      ReleaseAllReturnsAll(Release(o, held[0]), held[1..]);
    }
  }

  // ----------------------------------------------------------- the owner itself

  class PoolSide {
    const ledger: Pool
    const lent: array<bool>
    var notLent: nat
    var refused: nat

    ghost function Contents(): Owner
      reads this, ledger, ledger.indices, ledger.outstanding, lent
      requires ledger.top <= ledger.indices.Length
    {
      Owner(ledger.Contents(), lent[..], notLent, refused)
    }

    ghost predicate Valid()
      reads this, ledger, ledger.indices, ledger.outstanding, lent
    {
      && ledger.Valid() && lent.Length == ledger.outstanding.Length
      && lent != ledger.outstanding && lent as object != ledger.indices as object
    }

    constructor (n: nat)
      ensures Valid() && Contents() == Attach(n)
      ensures fresh(ledger) && fresh(ledger.indices) && fresh(ledger.outstanding) && fresh(lent)
    {
      ledger := new Pool(n);
      lent := new bool[n](_ => false);
      notLent, refused := 0, 0;
      new;
      assert lent[..] == Attach(n).lent;
    }

    method AllocBuffer() returns (token: Option<nat>)
      requires Valid()
      modifies ledger, ledger.outstanding
      ensures Valid() && (Contents(), token) == Alloc(old(Contents()))
    {
      token := ledger.Take();
    }

    /** The source stops the domain if the ledger refuses; it never does. */
    method ReleaseBuffer(index: nat, ghost held: multiset<nat>)
      requires Valid() && Split(Contents(), held) && index in held
      modifies ledger, ledger.indices, ledger.outstanding
      ensures Valid() && Contents() == Release(old(Contents()), index)
    {
      ReleaseIsAccepted(Contents(), held, index);
      var outcome := ledger.Return(index);
      assert outcome == Accepted;
    }

    method Mark(index: nat)
      requires Valid() && index < lent.Length
      modifies lent
      ensures Valid() && Contents() == Lend(old(Contents()), index)
    {
      lent[index] := true;
    }

    /** Publish a descriptor of the buffer, and mark it lent only if the ring took
        it. */
    method LendBuffer(ring: RingImage.SharedRing, index: nat, offset: nat, len: nat, verdict: nat)
      returns (accepted: bool)
      requires Valid() && index < lent.Length
      requires ring.Valid() && ring.width == 4 && ring.producers != []
      modifies lent, ring, ring.words
      ensures Valid() && ring.Valid() && accepted == !R.AppearsFull(old(ring.model), 0)
      ensures ring.model == R.EnqueueAt(old(ring.model), 0, [index, offset, len, verdict])
      ensures Contents() == if accepted then Lend(old(Contents()), index) else old(Contents())
    {
      accepted := ring.TryEnqueue(0, [index, offset, len, verdict]);
      if accepted {
        Mark(index);
      }
    }

    method ReclaimBuffer(index: nat) returns (accepted: bool)
      requires Valid()
      modifies this, ledger, ledger.indices, ledger.outstanding, lent
      ensures Valid() && Contents() == ReclaimOne(old(Contents()), index)
      ensures |Lent(Contents())| + (if accepted then 1 else 0) == |Lent(old(Contents()))|
    {
      ghost var before := Contents();
      if index >= lent.Length || !lent[index] {
        notLent := Bump(notLent);
        return false;
      }
      var outcome := ledger.Return(index);
      accepted := outcome.Accepted?;
      if accepted {
        lent[index] := false;
        assert Lent(before) == Lent(Contents()) + {index};
      } else {
        refused := Bump(refused);
      }
    }

    /** The `k`-th of the indices named; the rest remain. */
    method ReclaimNamed(named: seq<nat>, k: nat) returns (accepted: bool)
      requires Valid() && k < |named|
      modifies this, ledger, ledger.indices, ledger.outstanding, lent
      ensures Valid() && Reclaimed(Contents(), named[k + 1..]) == old(Reclaimed(Contents(), named[k..]))
      ensures |Lent(Contents())| + (if accepted then 1 else 0) == |Lent(old(Contents()))|
    {
      ReclaimNext(Contents(), named, k);
      accepted := ReclaimBuffer(named[k]);
    }

    method ReclaimReturned(named: seq<nat>) returns (reclaimed: nat)
      requires Valid()
      modifies this, ledger, ledger.indices, ledger.outstanding, lent
      ensures Valid() && Contents() == Reclaimed(old(Contents()), named)
      ensures reclaimed <= |named|
      ensures |Lent(Contents())| + reclaimed == |Lent(old(Contents()))|
    {
      reclaimed := 0;
      var k := 0;
      while k < |named|
        invariant 0 <= k <= |named| && reclaimed <= k
        invariant Valid() && Reclaimed(Contents(), named[k..]) == Reclaimed(old(Contents()), named)
        invariant |Lent(Contents())| + reclaimed == |Lent(old(Contents()))|
      {
        var accepted := ReclaimNamed(named, k);
        if accepted { reclaimed := reclaimed + 1; }
        k := k + 1;
      }
    }

    /** Drain the return ring, at most `DRAIN_LIMIT` descriptors of it, and take back
        what they name: the first word of each, whatever the peer put there. */
    method Reclaim(free: RingImage.SharedRing) returns (reclaimed: nat)
      requires Valid() && free.Valid() && free.width == 4 && free.consumers != []
      modifies this, ledger, ledger.indices, ledger.outstanding, lent, free
      ensures Valid() && free.Valid() && free.model == R.DrainAt(old(free.model), 0, DRAIN_LIMIT)
      ensures |old(free.model).delivered| <= |free.model.delivered| <= |old(free.model).delivered| + DRAIN_LIMIT
      ensures var named := Named(free.model.delivered[|old(free.model).delivered|..]);
              Contents() == Reclaimed(old(Contents()), named) && reclaimed <= |named| <= DRAIN_LIMIT
      ensures |Lent(Contents())| + reclaimed == |Lent(old(Contents()))|
    {
      ghost var before := free.model.delivered;
      var taken := free.DrainUpTo(0, DRAIN_LIMIT);
      FirstWords(free.model.delivered[|before|..], taken);
      reclaimed := ReclaimReturned(Words(taken));
    }
  }

  /** The buffer each descriptor names. */
  function Named(delivered: seq<R.Delivery>): (named: seq<nat>)
    ensures |named| == |delivered|
    ensures forall d :: 0 <= d < |named| ==>
              named[d] == if |delivered[d].image| > 0 then delivered[d].image[0].value else 0
  {
    seq(|delivered|, d requires 0 <= d < |delivered| =>
        if |delivered[d].image| > 0 then delivered[d].image[0].value else 0)
  }

  function Words(taken: seq<seq<nat>>): (named: seq<nat>)
    ensures |named| == |taken| && forall d :: 0 <= d < |named| ==> named[d] == if |taken[d]| > 0 then taken[d][0] else 0
  {
    seq(|taken|, d requires 0 <= d < |taken| => if |taken[d]| > 0 then taken[d][0] else 0)
  }

  lemma FirstWords(delivered: seq<R.Delivery>, taken: seq<seq<nat>>)
    requires taken == RingFifo.DeliveredValues(delivered)
    ensures Words(taken) == Named(delivered)
  {
  }

  lemma RunThen(n: nat, ops: seq<Op>, k: nat)
    requires k < |ops|
    ensures Run(n, ops[..k + 1]) == Step(Run(n, ops[..k]), ops[k])
  {
    assert ops[..k + 1][..k] == ops[..k];
  }

  // One operation over the owner in memory and the tokens in hand. A lend the ring
  // refuses gives its token back.

  method AllocInto(side: PoolSide, held: seq<nat>) returns (now: seq<nat>)
    requires side.Valid() && Inv(Domain(side.Contents(), held))
    modifies side.ledger, side.ledger.outstanding
    ensures side.Valid() && Domain(side.Contents(), now) == Step(Domain(old(side.Contents()), held), AllocOne)
  {
    var token := side.AllocBuffer();
    now := if token.Some? then held + [token.value] else held;
  }

  method LendFrom(side: PoolSide, held: seq<nat>, position: nat, ringFull: bool) returns (now: seq<nat>)
    requires side.Valid() && Inv(Domain(side.Contents(), held)) && held != []
    modifies side.lent
    ensures side.Valid()
    ensures Domain(side.Contents(), now) == Step(Domain(old(side.Contents()), held), LendHeld(position, ringFull))
  {
    var k := position % |held|;
    LendKeepsSplit(side.Contents(), multiset(held), held[k]);
    if !ringFull { side.Mark(held[k]); }
    now := Without(held, k) + if ringFull then [held[k]] else [];
  }

  method ReleaseFrom(side: PoolSide, held: seq<nat>, position: nat) returns (now: seq<nat>)
    requires side.Valid() && Inv(Domain(side.Contents(), held)) && held != []
    modifies side.ledger, side.ledger.indices, side.ledger.outstanding
    ensures side.Valid()
    ensures Domain(side.Contents(), now) == Step(Domain(old(side.Contents()), held), ReleaseHeld(position))
  {
    var k := position % |held|;
    side.ReleaseBuffer(held[k], multiset(held));
    now := Without(held, k);
  }

  method Perform(side: PoolSide, held: seq<nat>, op: Op) returns (now: seq<nat>)
    requires side.Valid() && Inv(Domain(side.Contents(), held))
    modifies side, side.ledger, side.ledger.indices, side.ledger.outstanding, side.lent
    ensures side.Valid() && Domain(side.Contents(), now) == Step(Domain(old(side.Contents()), held), op)
  {
    now := held;
    if op.ReclaimAll? {
      var _ := side.ReclaimReturned(op.named);
    } else if op.AllocOne? {
      now := AllocInto(side, held);
    } else if held == [] {
      return;
    } else if op.LendHeld? {
      now := LendFrom(side, held, op.position, op.ringFull);
    } else {
      now := ReleaseFrom(side, held, op.position);
    }
  }

  /** A whole run, closed by handing back every token and draining the ledger:
      the pool less what is still lent comes out, each index once. */
  method Observe(n: nat, ops: seq<Op>) returns (drained: seq<nat>)
    ensures multiset(drained) == multiset(Range(n) - Lent(Run(n, ops).owner))
  {
    var side := new PoolSide(n);
    var held: seq<nat>, k := [], 0;
    while k < |ops|
      invariant 0 <= k <= |ops| && side.Valid()
      invariant fresh(side.ledger) && fresh(side.ledger.indices) && fresh(side.ledger.outstanding) && fresh(side.lent)
      invariant Domain(side.Contents(), held) == Run(n, ops[..k])
    {
      RunThen(n, ops, k);
      held := Perform(side, held, ops[k]);
      k := k + 1;
    }
    assert ops[..k] == ops;
    FinalDrain(n, ops);
    ReturnTokens(side, held);
    drained := side.ledger.TakeAll();
  }

  lemma OneTokenBack(o: Owner, held: seq<nat>, k: nat)
    requires k < |held| && Split(o, multiset(held[k..]))
    ensures held[k] in multiset(held[k..])
    ensures Split(Release(o, held[k]), multiset(held[k + 1..]))
    ensures ReleaseAll(o, held[k..]) == ReleaseAll(Release(o, held[k]), held[k + 1..])
  {
    var rest := multiset(held[k..]);
    assert held[k..] == [held[k]] + held[k + 1..];
    assert multiset(held[k + 1..]) == rest - multiset{held[k]};
    ReleaseIsAccepted(o, rest, held[k]);
  }

  method ReturnTokens(side: PoolSide, held: seq<nat>)
    requires side.Valid() && Split(side.Contents(), multiset(held))
    modifies side.ledger, side.ledger.indices, side.ledger.outstanding
    ensures side.Valid() && side.Contents() == ReleaseAll(old(side.Contents()), held)
  {
    ghost var goal := ReleaseAll(side.Contents(), held);
    var k := 0;
    assert held[0..] == held;
    while k < |held|
      invariant 0 <= k <= |held| && side.Valid() && Split(side.Contents(), multiset(held[k..]))
      invariant ReleaseAll(side.Contents(), held[k..]) == goal
    {
      OneTokenBack(side.Contents(), held, k);
      side.ReleaseBuffer(held[k], multiset(held[k..]));
      k := k + 1;
    }
  }
}
