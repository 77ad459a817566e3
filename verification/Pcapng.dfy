/**
 A stream of self-framed pcapng blocks (section 3.1 of draft-ietf-opsawg-pcapng):
 each carries its own length after its type and again at its end, and those lengths
 are all that separates one from the next.
 */
module Pcapng {
  import opened Wrappers

  const BLOCK_FRAMING_LEN: nat := 12
  const ALIGNMENT: nat := 4

  type Octet = b: nat | b < 256

  function LittleEndian(bytes: seq<Octet>): nat {
    if bytes == [] then 0 else bytes[0] + 0x100 * LittleEndian(bytes[1..])
  }

  /** A little-endian Block Total Length, where its four octets lie inside. */
  function TotalLengthAt(bytes: seq<Octet>, at: nat): Option<nat> {
    if at + 4 > |bytes| then None else Some(LittleEndian(bytes[at..at + 4]))
  }

  /** A block frames itself. */
  predicate Framed(block: seq<Octet>) {
    && |block| >= BLOCK_FRAMING_LEN && |block| % ALIGNMENT == 0
    && TotalLengthAt(block, 4) == Some(|block|)
    && TotalLengthAt(block, |block| - 4) == Some(|block|)
  }

  datatype Fault =
    | NoLength(at: nat) | CannotFrame(at: nat, total: nat) | Unaligned(at: nat, total: nat)
    | PastTheEnd(at: nat, total: nat) | TrailingDiffers(at: nat)

  datatype Outcome = Walked(blocks: seq<seq<Octet>>) | Stopped(fault: Fault)

  /** What stops a walk at the front of what is left, `at` octets in. */
  function FrontFault(rest: seq<Octet>, at: nat): Option<Fault> {
    var total := TotalLengthAt(rest, 4);
    if total.None? then Some(NoLength(at))
    else if total.value < BLOCK_FRAMING_LEN then Some(CannotFrame(at, total.value))
    else if total.value % ALIGNMENT != 0 then Some(Unaligned(at, total.value))
    else if total.value > |rest| then Some(PastTheEnd(at, total.value))
    else if TotalLengthAt(rest, total.value - 4) != total then Some(TrailingDiffers(at))
    else None
  }

  function FrontLength(rest: seq<Octet>, at: nat): (total: nat)
    requires FrontFault(rest, at).None?
    ensures BLOCK_FRAMING_LEN <= total <= |rest|
  {
    TotalLengthAt(rest, 4).value
  }

  function Ahead(block: seq<Octet>, outcome: Outcome): Outcome {
    match outcome case Walked(blocks) => Walked([block] + blocks) case Stopped(_) => outcome
  }

  /** The walk by leading lengths. */
  function Walk(rest: seq<Octet>, at: nat): Outcome
    decreases |rest|
  {
    if rest == [] then Walked([])
    else
      var fault := FrontFault(rest, at);
      if fault.Some? then Stopped(fault.value)
      else
        var total := FrontLength(rest, at);
        Ahead(rest[..total], Walk(rest[total..], at + total))
  }

  function Concat(blocks: seq<seq<Octet>>): seq<Octet> {
    if blocks == [] then [] else blocks[0] + Concat(blocks[1..])
  }

  predicate AllFramed(blocks: seq<seq<Octet>>) {
    forall i :: 0 <= i < |blocks| ==> Framed(blocks[i])
  }

  /** The four octets of a length, lowest first. */
  function Octets4(bytes: seq<Octet>, at: nat): nat
    requires at + 4 <= |bytes|
  {
    var a: nat, b: nat, c: nat, d: nat := bytes[at], bytes[at + 1], bytes[at + 2], bytes[at + 3];
    a + 0x100 * b + 0x1_0000 * c + 0x100_0000 * d
  }

  lemma LengthIsTheSum(bytes: seq<Octet>, at: nat)
    requires at + 4 <= |bytes|
    ensures TotalLengthAt(bytes, at) == Some(Octets4(bytes, at))
  {
    var a, b := bytes[at + 2..at + 4], bytes[at + 3..at + 4];
    assert b[1..] == [] && LittleEndian(b) == bytes[at + 3];
    assert a[1..] == b && LittleEndian(a) == bytes[at + 2] + 0x100 * LittleEndian(b);
    assert bytes[at..at + 4][1..][1..] == a;
    assert LittleEndian(bytes[at..at + 4][1..]) == bytes[at + 1] + 0x100 * LittleEndian(a);
  }

  // ------------------------------------------------------------------ one block

  lemma LengthInFront(block: seq<Octet>, tail: seq<Octet>, at: nat)
    requires at + 4 <= |block|
    ensures TotalLengthAt(block + tail, at) == TotalLengthAt(block, at)
  {
    assert (block + tail)[at..at + 4] == block[at..at + 4];
  }

  /** The front of what is left is a block exactly when the walk passes it. */
  lemma FrontIsABlock(block: seq<Octet>, tail: seq<Octet>, at: nat)
    requires Framed(block)
    ensures FrontFault(block + tail, at).None? && FrontLength(block + tail, at) == |block|
  {
    LengthInFront(block, tail, 4);
    LengthInFront(block, tail, |block| - 4);
  }

  lemma FrontFrames(rest: seq<Octet>, at: nat)
    requires FrontFault(rest, at).None?
    ensures Framed(rest[..FrontLength(rest, at)])
  {
    var total := FrontLength(rest, at);
    assert rest == rest[..total] + rest[total..];
    LengthInFront(rest[..total], rest[total..], 4);
    LengthInFront(rest[..total], rest[total..], total - 4);
  }

  // ---------------------------------------------------------------- whole streams

  /** A framed block in front is passed whole. */
  lemma WalkPasses(block: seq<Octet>, tail: seq<Octet>, at: nat)
    requires Framed(block)
    ensures Walk(block + tail, at) == Ahead(block, Walk(tail, at + |block|))
  {
    FrontIsABlock(block, tail, at);
    assert (block + tail)[..|block|] == block && (block + tail)[|block|..] == tail;
  }

  /** A walk that passes what is framed and accepts what is empty. */
  ghost predicate Passes(walk: (seq<Octet>, nat) -> Outcome) {
    && (forall at: nat :: walk([], at) == Walked([]))
    && (forall block: seq<Octet>, tail: seq<Octet>, at: nat ::
          Framed(block) ==> walk(block + tail, at) == Ahead(block, walk(tail, at + |block|)))
  }

  lemma {:induction false} PassesAll(walk: (seq<Octet>, nat) -> Outcome, blocks: seq<seq<Octet>>, at: nat)
    requires Passes(walk) && AllFramed(blocks)
    ensures walk(Concat(blocks), at) == Walked(blocks)
    decreases |blocks|
  {
    if blocks != [] {
      PassesAll(walk, blocks[1..], at + |blocks[0]|);
      assert blocks == [blocks[0]] + blocks[1..];
    }
  }

  /** Walking a concatenation recovers exactly the blocks written. */
  lemma {:induction false} WalkRecovers(blocks: seq<seq<Octet>>, at: nat)
    requires AllFramed(blocks)
    ensures Walk(Concat(blocks), at) == Walked(blocks)
  {
    forall block: seq<Octet>, tail: seq<Octet>, at: nat | Framed(block)
      ensures Walk(block + tail, at) == Ahead(block, Walk(tail, at + |block|))
    {
      WalkPasses(block, tail, at);
    }
    PassesAll(Walk, blocks, at);
  }

  /** What an outcome says of a stream: where it is a list of blocks, those are
      framed and make up the stream. */
  predicate Decomposes(outcome: Outcome, stream: seq<Octet>) {
    outcome.Walked? ==> AllFramed(outcome.blocks) && Concat(outcome.blocks) == stream
  }

  lemma OneMoreInFront(block: seq<Octet>, rest: Outcome, tail: seq<Octet>)
    requires Framed(block) && Decomposes(rest, tail)
    ensures Decomposes(Ahead(block, rest), block + tail)
  {
    if rest.Walked? { assert ([block] + rest.blocks)[1..] == rest.blocks; }
  }

  /** The walk stops here, or passes one block. */
  lemma FrontSplits(stream: seq<Octet>, at: nat) returns (passed: bool, block: seq<Octet>, tail: seq<Octet>)
    ensures !passed ==> Decomposes(Walk(stream, at), stream)
    ensures !passed ==> stream == [] || FrontFault(stream, at).Some?
    ensures passed ==> Framed(block) && stream == block + tail && |tail| < |stream|
    ensures passed ==> Walk(stream, at) == Ahead(block, Walk(tail, at + |block|))
  {
    passed, block, tail := stream != [] && FrontFault(stream, at).None?, [], [];
    if passed {
      FrontFrames(stream, at);
      var total := FrontLength(stream, at);
      block, tail := stream[..total], stream[total..];
    }
  }

  /** A stream the walk accepts is the concatenation of the framed blocks it
      found. */
  lemma {:induction false} WalkDecomposes(stream: seq<Octet>, at: nat, outcome: Outcome)
    requires outcome == Walk(stream, at)
    ensures Decomposes(outcome, stream)
    decreases |stream|
  {
    var passed, block, tail := FrontSplits(stream, at);
    if passed {
      var rest := Walk(tail, at + |block|);
      WalkDecomposes(tail, at + |block|, rest);
      OneMoreInFront(block, rest, tail);
    }
  }

  /** So a stream is accepted exactly when it is a run of framed blocks. */
  lemma AcceptedIffFramed(stream: seq<Octet>)
    ensures Walk(stream, 0).Walked? <==> exists blocks :: AllFramed(blocks) && Concat(blocks) == stream
  {
    if Walk(stream, 0).Walked? { WalkDecomposes(stream, 0, Walk(stream, 0)); }
    forall blocks | AllFramed(blocks) && Concat(blocks) == stream ensures Walk(stream, 0).Walked? {
      WalkRecovers(blocks, 0);
    }
  }

  /** What a fault says of the front it is raised at. */
  predicate Means(f: Fault, rest: seq<Octet>) {
    match f
    case NoLength(_) => |rest| < 8
    case CannotFrame(_, total) => |rest| >= 8 && total == Octets4(rest, 4) && total < BLOCK_FRAMING_LEN
    case Unaligned(_, total) =>
      |rest| >= 8 && total == Octets4(rest, 4) && BLOCK_FRAMING_LEN <= total && total % ALIGNMENT != 0
    case PastTheEnd(_, total) =>
      |rest| >= 8 && BLOCK_FRAMING_LEN <= total == Octets4(rest, 4) && total % ALIGNMENT == 0 && |rest| < total
    case TrailingDiffers(_) =>
      && |rest| >= 8 && BLOCK_FRAMING_LEN <= Octets4(rest, 4) <= |rest| && Octets4(rest, 4) % ALIGNMENT == 0
      && Octets4(rest, Octets4(rest, 4) - 4) != Octets4(rest, 4)
  }

  lemma FrontFaultMeans(rest: seq<Octet>, at: nat)
    requires FrontFault(rest, at).Some?
    ensures FrontFault(rest, at).value.at == at && Means(FrontFault(rest, at).value, rest)
  {
    if |rest| >= 8 {
      LengthIsTheSum(rest, 4);
      var total := Octets4(rest, 4);
      if BLOCK_FRAMING_LEN <= total <= |rest| { LengthIsTheSum(rest, total - 4); }
    }
  }

  lemma OneMoreBlock(block: seq<Octet>, blocks: seq<seq<Octet>>, rest: seq<Octet>, tail: seq<Octet>)
    requires Framed(block) && AllFramed(blocks) && Concat(blocks) + rest == tail
    ensures AllFramed([block] + blocks) && Concat([block] + blocks) == block + Concat(blocks)
    ensures Concat([block] + blocks) + rest == block + tail
  {
    assert ([block] + blocks)[1..] == blocks;
  }

  /** A walk that stops has passed framed blocks up to the offset it names, and the
      fault is what is wrong there. */
  lemma {:induction false} StopsAtTheFault(stream: seq<Octet>, at: nat)
    returns (blocks: seq<seq<Octet>>, rest: seq<Octet>)
    requires Walk(stream, at).Stopped?
    ensures AllFramed(blocks) && Concat(blocks) + rest == stream && rest != []
    ensures Walk(stream, at).fault.at == at + |Concat(blocks)| && Means(Walk(stream, at).fault, rest)
    decreases |stream|
  {
    var passed, block, tail := FrontSplits(stream, at);
    if passed {
      blocks, rest := StopsAtTheFault(tail, at + |block|);
      OneMoreBlock(block, blocks, rest, tail);
      blocks := [block] + blocks;
    } else {
      blocks, rest := [], stream;
      FrontFaultMeans(stream, at);
    }
  }

  /** And in one way only. */
  lemma DecompositionIsUnique(a: seq<seq<Octet>>, b: seq<seq<Octet>>)
    requires AllFramed(a) && AllFramed(b) && Concat(a) == Concat(b)
    ensures a == b
  {
    WalkRecovers(a, 0);
    WalkRecovers(b, 0);
  }

  // ---------------------------------------------------------------- walking back

  /** The length of the block that ends what is left, where its trailing length
      frames a block that begins with it. */
  function BackLength(rest: seq<Octet>): (total: Option<nat>)
    ensures total.Some? ==> BLOCK_FRAMING_LEN <= total.value <= |rest|
  {
    if |rest| < 4 then None
    else
      var total := TotalLengthAt(rest, |rest| - 4).value;
      if total < BLOCK_FRAMING_LEN || total % ALIGNMENT != 0 || total > |rest| then None
      else if TotalLengthAt(rest[|rest| - total..], 4) != Some(total) then None
      else Some(total)
  }

  function Behind(before: Option<seq<seq<Octet>>>, block: seq<Octet>): Option<seq<seq<Octet>>> {
    if before.None? then None else Some(before.value + [block])
  }

  /** The walk from the end by trailing lengths. */
  function WalkBack(rest: seq<Octet>): Option<seq<seq<Octet>>>
    decreases |rest|
  {
    if rest == [] then Some([])
    else
      var total := BackLength(rest);
      if total.None? then None
      else
        var cut := |rest| - total.value;
        Behind(WalkBack(rest[..cut]), rest[cut..])
  }

  lemma LengthBehind(head: seq<Octet>, block: seq<Octet>, at: nat)
    requires at + 4 <= |block|
    ensures TotalLengthAt(head + block, |head| + at) == TotalLengthAt(block, at)
  {
    assert (head + block)[|head| + at..|head| + at + 4] == block[at..at + 4];
  }

  lemma BackIsABlock(head: seq<Octet>, block: seq<Octet>)
    requires Framed(block)
    ensures BackLength(head + block) == Some(|block|)
  {
    LengthBehind(head, block, |block| - 4);
    assert (head + block)[|head|..] == block;
  }

  lemma BackFrames(rest: seq<Octet>)
    requires BackLength(rest).Some?
    ensures Framed(rest[|rest| - BackLength(rest).value..])
  {
    var cut := |rest| - BackLength(rest).value;
    assert rest == rest[..cut] + rest[cut..];
    LengthBehind(rest[..cut], rest[cut..], BackLength(rest).value - 4);
  }

  lemma {:induction false} ConcatLast(blocks: seq<seq<Octet>>, last: seq<Octet>)
    ensures Concat(blocks + [last]) == Concat(blocks) + last
  {
    if blocks == [] {
      assert Concat([last]) == last + Concat([]);
    } else {
      ConcatLast(blocks[1..], last);
      assert (blocks + [last])[1..] == blocks[1..] + [last];
    }
  }

  /** Walking back visits the same boundaries. */
  lemma {:induction false} WalkBackRecovers(blocks: seq<seq<Octet>>)
    requires AllFramed(blocks)
    ensures WalkBack(Concat(blocks)) == Some(blocks)
    decreases |blocks|
  {
    if blocks != [] {
      var before, last := blocks[..|blocks| - 1], blocks[|blocks| - 1];
      var head := Concat(before);
      assert blocks == before + [last];
      ConcatLast(before, last);
      BackIsABlock(head, last);
      assert (head + last)[|head|..] == last && (head + last)[..|head|] == head;
      assert WalkBack(head + last) == Behind(WalkBack(head), last);
      WalkBackRecovers(before);
    }
  }

  lemma {:induction false} WalkBackDecomposes(stream: seq<Octet>)
    requires WalkBack(stream).Some?
    ensures AllFramed(WalkBack(stream).value) && Concat(WalkBack(stream).value) == stream
    decreases |stream|
  {
    if stream != [] {
      var cut := |stream| - BackLength(stream).value;
      var head, last := stream[..cut], stream[cut..];
      assert WalkBack(stream) == Behind(WalkBack(head), last);
      WalkBackDecomposes(head);
      BackFrames(stream);
      ConcatLast(WalkBack(head).value, last);
      assert stream == head + last;
    }
  }

  /** The two walks agree on every stream. */
  lemma BothWaysAgree(stream: seq<Octet>)
    ensures Walk(stream, 0).Walked? <==> WalkBack(stream).Some?
    ensures Walk(stream, 0).Walked? ==> WalkBack(stream) == Some(Walk(stream, 0).blocks)
  {
    if Walk(stream, 0).Walked? {
      WalkDecomposes(stream, 0, Walk(stream, 0));
      WalkBackRecovers(Walk(stream, 0).blocks);
    }
    if WalkBack(stream).Some? {
      WalkBackDecomposes(stream);
      WalkRecovers(WalkBack(stream).value, 0);
    }
  }

  // -------------------------------------------------------------------- the loop

  lemma AheadOfAll(done: seq<seq<Octet>>, block: seq<Octet>, outcome: Outcome)
    ensures AheadAll(done + [block], outcome) == AheadAll(done, Ahead(block, outcome))
  {
    if outcome.Walked? { assert done + [block] + outcome.blocks == done + ([block] + outcome.blocks); }
  }

  function AheadAll(done: seq<seq<Octet>>, outcome: Outcome): Outcome {
    match outcome case Walked(blocks) => Walked(done + blocks) case Stopped(_) => outcome
  }

  /** Where the loop stands: what it has seen, ahead of the walk of what is left. */
  predicate Midway(stream: seq<Octet>, at: nat, blocks: seq<seq<Octet>>, goal: Outcome) {
    at <= |stream| && AheadAll(blocks, Walk(stream[at..], at)) == goal
  }

  lemma StopsHere(stream: seq<Octet>, at: nat, rest: seq<Octet>, blocks: seq<seq<Octet>>, goal: Outcome)
    requires at < |stream| && rest == stream[at..] && Midway(stream, at, blocks, goal) && FrontFault(rest, at).Some?
    ensures goal == Stopped(FrontFault(rest, at).value)
  {
  }

  lemma PassesHere(stream: seq<Octet>, at: nat, rest: seq<Octet>, blocks: seq<seq<Octet>>, goal: Outcome)
    requires at < |stream| && rest == stream[at..] && Midway(stream, at, blocks, goal) && FrontFault(rest, at).None?
    ensures var total := FrontLength(rest, at); Midway(stream, at + total, blocks + [rest[..total]], goal)
  {
    var total := FrontLength(rest, at);
    assert rest[total..] == stream[at + total..];
    AheadOfAll(blocks, rest[..total], Walk(rest[total..], at + total));
  }

  /** The loop's body: a fault, or the next position and one block more. */
  method NextBlock(stream: seq<Octet>, at: nat, blocks: seq<seq<Octet>>, ghost goal: Outcome)
    returns (fault: Option<Fault>, next: nat, seen: seq<seq<Octet>>)
    requires at < |stream| && Midway(stream, at, blocks, goal)
    ensures fault.Some? ==> goal == Stopped(fault.value)
    ensures fault.None? ==> at < next <= |stream| && |seen| == |blocks| + 1 && Midway(stream, next, seen, goal)
  {
    var rest := stream[at..];
    fault, next, seen := FrontFault(rest, at), at, blocks;
    if fault.Some? {
      StopsHere(stream, at, rest, blocks, goal);
    } else {
      PassesHere(stream, at, rest, blocks, goal);
      var total := FrontLength(rest, at);
      next, seen := at + total, blocks + [rest[..total]];
    }
  }

  lemma LoopStarts(stream: seq<Octet>)
    ensures Midway(stream, 0, [], Walk(stream, 0))
  {
    assert stream[0..] == stream;
    if Walk(stream, 0).Walked? { assert [] + Walk(stream, 0).blocks == Walk(stream, 0).blocks; }
  }

  lemma LoopEnds(stream: seq<Octet>, blocks: seq<seq<Octet>>, goal: Outcome)
    requires Midway(stream, |stream|, blocks, goal)
    ensures goal == Walked(blocks)
  {
  }

  method WalkFrom(stream: seq<Octet>, ghost goal: Outcome) returns (outcome: Outcome, seen: nat)
    requires Midway(stream, 0, [], goal)
    ensures outcome == goal && (outcome.Walked? ==> seen == |outcome.blocks|)
  {
    var at: nat, blocks := 0, [];
    while at < |stream|
      invariant at <= |stream| && Midway(stream, at, blocks, goal)
    {
      var fault;
      fault, at, blocks := NextBlock(stream, at, blocks, goal);
      if fault.Some? {
        return Stopped(fault.value), |blocks|;
      }
    }
    LoopEnds(stream, blocks, goal);
    outcome, seen := Walked(blocks), |blocks|;
  }

  /** The walk as a loop that advances through the stream and counts what it has
      seen. */
  method WalkStream(stream: seq<Octet>) returns (outcome: Outcome, seen: nat)
    ensures outcome == Walk(stream, 0)
    ensures outcome.Walked? ==> seen == |outcome.blocks|
  {
    LoopStarts(stream);
    outcome, seen := WalkFrom(stream, Walk(stream, 0));
  }
}
