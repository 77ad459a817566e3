/**
 The ownership ledger of a buffer pool: a LIFO stack of free indices and an
 outstanding flag per index. A peer returns whatever numbers it likes, and tokens
 may go stale, so every return is checked by identity.
 */
module FreeList {
  import opened Wrappers

  datatype ReturnError = OutOfRange(index: nat) | NotOutstanding(index: nat) | ListFull(index: nat)
  datatype Outcome = Accepted | Refused(error: ReturnError)

  datatype Ledger = Ledger(free: seq<nat>, outstanding: seq<bool>)

  function Out(l: Ledger): set<nat> { set i | 0 <= i < |l.outstanding| && l.outstanding[i] }

  function In(l: Ledger): set<nat> { set i | 0 <= i < |l.outstanding| && !l.outstanding[i] }

  /** The free stack holds each index that is not outstanding exactly once, and
      nothing else. */
  predicate Partition(l: Ledger) {
    multiset(l.free) == multiset(In(l))
  }

  function Range(n: nat): (r: set<nat>)
    ensures forall i: nat :: i in r <==> i < n
    ensures |r| == n
  {
    if n == 0 then {} else Range(n - 1) + {n - 1}
  }

  /** Free plus outstanding always covers the pool exactly. */
  lemma Conservation(l: Ledger)
    requires Partition(l)
    ensures |l.free| + |Out(l)| == |l.outstanding|
  {
    assert In(l) + Out(l) == Range(|l.outstanding|);
    assert |multiset(l.free)| == |l.free|;
    assert |multiset(In(l))| == |In(l)|;
  }

  /** While an index is out the stack is short of full, so fullness is never what
      refuses its return. */
  lemma ListFullIsUnreachable(l: Ledger, index: nat)
    requires Partition(l) && index < |l.outstanding| && l.outstanding[index]
    ensures |l.free| < |l.outstanding|
  {
    Conservation(l);
    assert index in Out(l);
  }

  /** What is free is in the pool and not outstanding. */
  lemma FreeIsIn(l: Ledger, k: nat)
    requires Partition(l) && k < |l.free|
    ensures l.free[k] < |l.outstanding| && !l.outstanding[l.free[k]]
  {
    assert l.free[k] in multiset(l.free);
    assert l.free[k] in In(l);
  }

  // --------------------------------------------------------------- operations

  function UpTo(n: nat): (s: seq<nat>)
    ensures |s| == n && forall i :: 0 <= i < n ==> s[i] == i
  {
    seq(n, i => i)
  }

  lemma OneIn<T>(s: set<T>, x: T)
    requires x !in s
    ensures multiset(s + {x}) == multiset(s) + multiset{x}
  {
  }

  lemma UpToGrows(n: nat)
    ensures multiset(UpTo(n + 1)) == multiset(UpTo(n)) + multiset{n}
  {
    assert UpTo(n + 1) == UpTo(n) + [n];
  }

  lemma {:induction false} UpToIsRange(n: nat)
    ensures multiset(UpTo(n)) == multiset(Range(n))
  {
    if n > 0 {
      var last: nat := n - 1;
      UpToIsRange(last);
      UpToGrows(last);
      OneIn(Range(last), last);
    }
  }

  function Full(n: nat): (l: Ledger)
    ensures |l.outstanding| == n && Out(l) == {}
    ensures Partition(l)
  {
    var l := Ledger(UpTo(n), seq(n, _ => false));
    assert In(l) == Range(n);
    UpToIsRange(n);
    l
  }

  lemma OneOut<T>(a: multiset<T>, b: multiset<T>, x: T)
    requires a + multiset{x} == b + multiset{x}
    ensures a == b
  {
    assert a == (a + multiset{x}) - multiset{x};
  }

  function Pop(l: Ledger): (r: (Ledger, Option<nat>))
    requires Partition(l)
    ensures Partition(r.0) && |r.0.outstanding| == |l.outstanding|
    ensures r.1.None? <==> l.free == []
    ensures r.1.Some? ==> r.1.value < |l.outstanding| && r.1.value !in Out(l)
    ensures r.1.Some? ==> Out(r.0) == Out(l) + {r.1.value}
  {
    if l.free == [] then (l, None)
    else
      var index, rest := l.free[|l.free| - 1], l.free[..|l.free| - 1];
      FreeIsIn(l, |l.free| - 1);
      var t := Ledger(rest, l.outstanding[index := true]);
      assert l.free == rest + [index];
      assert In(l) == In(t) + {index};
      assert multiset(In(l)) == multiset(In(t)) + multiset{index};
      OneOut(multiset(rest), multiset(In(t)), index);
      (t, Some(index))
  }

  /** A refusal leaves the ledger as it was. */
  function Accept(l: Ledger, index: nat): (r: (Ledger, Outcome))
    requires Partition(l)
    ensures Partition(r.0) && |r.0.outstanding| == |l.outstanding|
    ensures r.1.Accepted? <==> index in Out(l)
    ensures r.1.Accepted? ==> Out(r.0) == Out(l) - {index} && r.0.free == l.free + [index]
    ensures r.1.Refused? ==> r.0 == l
    ensures r.1.Refused? ==> r.1.error == if index >= |l.outstanding| then OutOfRange(index) else NotOutstanding(index)
  {
    if index >= |l.outstanding| then (l, Refused(OutOfRange(index)))
    else if !l.outstanding[index] then (l, Refused(NotOutstanding(index)))
    else
      ListFullIsUnreachable(l, index);
      if |l.free| == |l.outstanding| then (l, Refused(ListFull(index)))
      else
        var t := Ledger(l.free + [index], l.outstanding[index := false]);
        assert In(t) == In(l) + {index};
        assert multiset(In(t)) == multiset(In(l)) + multiset{index};
        (t, Accepted)
  }

  lemma AcceptPushes(l: Ledger, index: nat)
    requires Partition(l) && index < |l.outstanding| && l.outstanding[index]
    ensures Accept(l, index) == (Ledger(l.free + [index], l.outstanding[index := false]), Accepted)
    ensures |l.free| < |l.outstanding|
  {
    ListFullIsUnreachable(l, index);
  }

  // ------------------------------------------------- runs with stale tokens

  datatype Op = PopOne | PushHeld(position: nat) | Reclaim(index: nat)

  /** The ledger beside a list of tokens, which a reclaim does not shorten: so some
      tokens may be stale. */
  datatype State = State(ledger: Ledger, held: seq<nat>)

  predicate Inv(s: State) {
    && Partition(s.ledger)
    && (forall k :: 0 <= k < |s.held| ==> s.held[k] < |s.ledger.outstanding|)
    && (forall i :: i in Out(s.ledger) ==> i in s.held)
  }

  function Step(s: State, op: Op): (t: State)
    requires Partition(s.ledger)
    ensures Partition(t.ledger) && |t.ledger.outstanding| == |s.ledger.outstanding|
  {
    match op
    case PopOne =>
      var (ledger, token) := Pop(s.ledger);
      State(ledger, s.held + if token.Some? then [token.value] else [])
    case PushHeld(position) =>
      if s.held == [] then s
      else
        var k := position % |s.held|;
        State(Accept(s.ledger, s.held[k]).0, s.held[..k] + s.held[k + 1..])
    case Reclaim(index) => s.(ledger := Accept(s.ledger, index).0)
  }

  function Run(n: nat, ops: seq<Op>): (s: State)
    ensures Partition(s.ledger) && |s.ledger.outstanding| == n
  {
    if ops == [] then State(Full(n), []) else Step(Run(n, ops[..|ops| - 1]), ops[|ops| - 1])
  }

  /** What each operation moves: the top of the free stack into hand, one token out
      of hand and, if it was outstanding, back; or only the index named, back. */
  lemma StepMovesOne(s: State, op: Op)
    requires Partition(s.ledger)
    ensures var t, free := Step(s, op), s.ledger.free;
            match op
            case PopOne =>
              if free == [] then t == s
              else
                var top := free[|free| - 1];
                && t.held == s.held + [top] && t.ledger.free == free[..|free| - 1]
                && Out(t.ledger) == Out(s.ledger) + {top}
            case PushHeld(position) =>
              if s.held == [] then t == s
              else
                var k := position % |s.held|;
                t.held == s.held[..k] + s.held[k + 1..] && Out(t.ledger) == Out(s.ledger) - {s.held[k]}
            case Reclaim(index) => t.held == s.held && Out(t.ledger) == Out(s.ledger) - {index}
  {
  }

  lemma StepKeepsInv(s: State, op: Op)
    requires Inv(s)
    ensures Inv(Step(s, op))
  {
    var t := Step(s, op);
    match op
    case PopOne =>
      assert forall i :: i in s.held ==> i in t.held;
      var token := Pop(s.ledger).1;
      if token.Some? { assert t.held[|s.held|] == token.value; }
    case PushHeld(position) =>
      if s.held != [] {
        var k := position % |s.held|;
        assert s.held == s.held[..k] + [s.held[k]] + s.held[k + 1..];
        assert forall i :: i in s.held ==> i == s.held[k] || i in t.held;
      }
    case Reclaim(_) =>
  }

  lemma {:induction false} RunKeepsInv(n: nat, ops: seq<Op>)
    ensures Inv(Run(n, ops))
  {
    if ops != [] {
      RunKeepsInv(n, ops[..|ops| - 1]);
      StepKeepsInv(Run(n, ops[..|ops| - 1]), ops[|ops| - 1]);
    }
  }

  /** Return every token in hand, first to last. */
  function PushAll(l: Ledger, held: seq<nat>): (t: Ledger)
    requires Partition(l)
    ensures Partition(t) && |t.outstanding| == |l.outstanding|
    decreases |held|
  {
    if held == [] then l else PushAll(Accept(l, held[0]).0, held[1..])
  }

  lemma {:induction false} PushAllReturnsAll(l: Ledger, held: seq<nat>)
    requires Partition(l) && forall i :: i in Out(l) ==> i in held
    ensures Out(PushAll(l, held)) == {}
    decreases |held|
  {
    if held != [] {
      var next := Accept(l, held[0]).0;
      assert held == [held[0]] + held[1..];
      PushAllReturnsAll(next, held[1..]);
    }
  }

  /** Pop until the ledger refuses: the free stack from its top down. */
  function TopDown(free: seq<nat>): (drained: seq<nat>) {
    if free == [] then [] else [free[|free| - 1]] + TopDown(free[..|free| - 1])
  }

  lemma {:induction false} TopDownIsAll(free: seq<nat>)
    ensures multiset(TopDown(free)) == multiset(free)
  {
    if free != [] {
      TopDownIsAll(free[..|free| - 1]);
      assert free == free[..|free| - 1] + [free[|free| - 1]];
    }
  }

  lemma TopComesNext(free: seq<nat>, top: nat, drained: seq<nat>)
    requires 0 < top <= |free|
    ensures drained + TopDown(free[..top]) == drained + [free[top - 1]] + TopDown(free[..top - 1])
  {
    assert free[..top][..top - 1] == free[..top - 1];
  }

  lemma AllIn(l: Ledger)
    requires Partition(l) && Out(l) == {}
    ensures multiset(l.free) == multiset(Range(|l.outstanding|))
  {
    assert In(l) + Out(l) == Range(|l.outstanding|);
  }

  /** Whatever run of pops, stale pushes and arbitrary reclaims came before:
      hand every token back and drain, and every pool index comes out exactly
      once. */
  lemma FinalDrainIsThePool(n: nat, ops: seq<Op>)
    ensures var s := Run(n, ops);
            multiset(TopDown(PushAll(s.ledger, s.held).free)) == multiset(Range(n))
  {
    RunKeepsInv(n, ops);
    var s := Run(n, ops);
    PushAllReturnsAll(s.ledger, s.held);
    AllIn(PushAll(s.ledger, s.held));
    TopDownIsAll(PushAll(s.ledger, s.held).free);
  }

  // ---------------------------------------------------------- the ledger itself

  class Pool {
    const indices: array<nat>
    const outstanding: array<bool>
    var top: nat

    ghost function Contents(): Ledger
      reads this, indices, outstanding
      requires top <= indices.Length
    {
      Ledger(indices[..top], outstanding[..])
    }

    ghost predicate Valid()
      reads this, indices, outstanding
    {
      && indices.Length == outstanding.Length && top <= indices.Length
      && indices as object != outstanding as object
      && Partition(Contents())
    }

    constructor (n: nat)
      ensures Valid() && fresh(indices) && fresh(outstanding)
      ensures Contents() == Full(n)
    {
      indices := new nat[n];
      outstanding := new bool[n](_ => false);
      top := n;
      new;
      var index := 0;
      while index < n
        modifies indices
        invariant 0 <= index <= n
        invariant forall k :: 0 <= k < index ==> indices[k] == k
      {
        indices[index] := index;
        index := index + 1;
      }
      assert indices[..top] == Full(n).free;
      assert outstanding[..] == Full(n).outstanding;
    }

    method Take() returns (token: Option<nat>)
      requires Valid()
      modifies this, outstanding
      ensures old(top) > 0 ==> top == old(top) - 1 && token == Some(indices[top])
      ensures Valid() && (Contents(), token) == Pop(old(Contents()))
    {
      ghost var before := Contents();
      if top == 0 {
        return None;
      }
      top := top - 1;
      var index := indices[top];
      FreeIsIn(before, top);
      assert index == before.free[|before.free| - 1];
      outstanding[index] := true;
      token := Some(index);
      assert Contents() == Pop(before).0;
    }

    /** Both a held token and a peer's bare index come back through here. */
    method Return(index: nat) returns (outcome: Outcome)
      requires Valid()
      modifies this, indices, outstanding
      ensures Valid() && (Contents(), outcome) == Accept(old(Contents()), index)
    {
      ghost var before := Contents();
      if index >= indices.Length {
        return Refused(OutOfRange(index));
      }
      if !outstanding[index] {
        return Refused(NotOutstanding(index));
      }
      AcceptPushes(before, index);
      if top == indices.Length {
        return Refused(ListFull(index));
      }
      outstanding[index] := false;
      indices[top] := index;
      top := top + 1;
      outcome := Accepted;
      assert indices[..top] == before.free + [index];
      assert outstanding[..] == before.outstanding[index := false];
    }

    /** The closing check, first half: hand every token back. */
    method ReturnAll(held: seq<nat>)
      requires Valid()
      modifies this, indices, outstanding
      ensures Valid() && Contents() == PushAll(old(Contents()), held)
    {
      ghost var goal := PushAll(Contents(), held);
      var k := 0;
      while k < |held|
        invariant 0 <= k <= |held| && Valid()
        invariant PushAll(Contents(), held[k..]) == goal
      {
        var _ := Return(held[k]);
        assert held[k..][1..] == held[k + 1..];
        k := k + 1;
      }
    }

    /** The second half: pop until the ledger refuses. */
    method TakeAll() returns (drained: seq<nat>)
      requires Valid()
      modifies this, outstanding
      ensures Valid() && top == 0 && drained == TopDown(old(Contents()).free)
    {
      ghost var start := indices[..top];
      drained := [];
      while top > 0
        invariant Valid() && top <= |start| && indices[..top] == start[..top]
        invariant drained + TopDown(start[..top]) == TopDown(start)
      {
        TopComesNext(start, top, drained);
        ghost var before := top;
        var token := Take();
        assert token.value == start[before - 1];
        drained := drained + [token.value];
      }
    }
  }

  lemma RunThen(n: nat, ops: seq<Op>, k: nat)
    requires k < |ops|
    ensures Run(n, ops[..k + 1]) == Step(Run(n, ops[..k]), ops[k])
  {
    assert ops[..k + 1][..k] == ops[..k];
  }

  method Perform(pool: Pool, held: seq<nat>, op: Op) returns (now: seq<nat>)
    requires pool.Valid()
    modifies pool, pool.indices, pool.outstanding
    ensures pool.Valid() && State(pool.Contents(), now) == Step(State(old(pool.Contents()), held), op)
  {
    now := held;
    match op {
      case PopOne =>
        var token := pool.Take();
        if token.Some? { now := held + [token.value]; }
      case PushHeld(position) =>
        if held != [] {
          var at := position % |held|;
          var _ := pool.Return(held[at]);
          now := held[..at] + held[at + 1..];
        }
      case Reclaim(index) =>
        var _ := pool.Return(index);
    }
  }

  /** A whole run over the ledger in memory, closed by handing back every token
      in hand and popping until the ledger refuses. */
  method Observe(n: nat, ops: seq<Op>) returns (drained: seq<nat>)
    ensures multiset(drained) == multiset(Range(n))
  {
    var pool := new Pool(n);
    var held: seq<nat>, k := [], 0;
    while k < |ops|
      invariant 0 <= k <= |ops| && pool.Valid() && fresh(pool.indices) && fresh(pool.outstanding)
      invariant State(pool.Contents(), held) == Run(n, ops[..k])
    {
      RunThen(n, ops, k);
      held := Perform(pool, held, ops[k]);
      k := k + 1;
    }
    assert ops[..k] == ops;
    FinalDrainIsThePool(n, ops);
    drained := Close(pool, held);
  }

  /** The closing check: every token back, then everything out. */
  method Close(pool: Pool, held: seq<nat>) returns (drained: seq<nat>)
    requires pool.Valid()
    modifies pool, pool.indices, pool.outstanding
    ensures drained == TopDown(PushAll(old(pool.Contents()), held).free)
  {
    pool.ReturnAll(held);
    drained := pool.TakeAll();
  }
}
