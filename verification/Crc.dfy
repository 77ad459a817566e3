/**
 The CRC-32 of section 8 of RFC 1952, polynomial reflected, bit by bit and by
 table. A step is linear and can be undone, and four bytes act as one 32-bit
 word XORed in before thirty-two steps; everything else follows from those.

 A word is its bits, least significant first, so a shift right drops the first
 bit and the bytes of a little-endian word are its bits in order.
 */
module Crc {

  type Word = w: seq<bool> | |w| == 32 witness seq(32, _ => false)
  type Octet = b: seq<bool> | |b| == 8 witness seq(8, _ => false)

  function Zeros(n: nat): (w: seq<bool>)
    ensures |w| == n && forall i :: 0 <= i < n ==> !w[i]
  {
    seq(n, _ => false)
  }

  function AllOnes(): (w: Word)
    ensures forall i :: 0 <= i < 32 ==> w[i]
  {
    seq(32, _ => true)
  }

  /** 0xEDB8_8320. */
  const POLYNOMIAL: Word :=
    [false, false, false, false, false, true, false, false,
     true, true, false, false, false, false, false, true,
     false, false, false, true, true, true, false, true,
     true, false, true, true, false, true, true, true]

  function Xor(a: Word, b: Word): (w: Word)
    ensures forall i :: 0 <= i < 32 ==> w[i] == (a[i] != b[i])
  {
    seq(|a|, i requires 0 <= i < |a| && |a| == |b| => a[i] != b[i])
  }

  function ShiftRight(r: Word): (w: Word) { r[1..] + [false] }

  function Step(r: Word): Word {
    if !r[0] then ShiftRight(r) else Xor(ShiftRight(r), POLYNOMIAL)
  }

  function Steps(r: Word, n: nat): Word
    decreases n
  {
    if n == 0 then r else Steps(Step(r), n - 1)
  }

  function Extend(byte: Octet): Word { byte + Zeros(24) }

  function Feed(r: Word, byte: Octet): Word { Steps(Xor(r, Extend(byte)), 8) }

  /** The remainder after a message, from any starting remainder. */
  function Remainder(r: Word, bytes: seq<Octet>): Word
    decreases |bytes|
  {
    if bytes == [] then r else Remainder(Feed(r, bytes[0]), bytes[1..])
  }

  function Crc32(bytes: seq<Octet>): Word { Xor(Remainder(AllOnes(), bytes), AllOnes()) }

  // ---------------------------------------------------------------- one bit step

  lemma StepIsLinear(a: Word, b: Word)
    ensures Step(Xor(a, b)) == Xor(Step(a), Step(b))
  {
  }

  function Unstep(s: Word): Word {
    if !s[31] then [false] + s[..31] else [true] + Xor(s, POLYNOMIAL)[..31]
  }

  /** The polynomial's top bit records the bit a step shifts out. */
  lemma StepIsUndone(r: Word)
    ensures Unstep(Step(r)) == r
  {
    var s := Step(r);
    assert POLYNOMIAL[31] && s[31] == r[0];
    assert forall i :: 0 <= i < 31 ==> ShiftRight(r)[i] == r[i + 1];
  }

  lemma {:induction false} StepsAreLinear(a: Word, b: Word, n: nat)
    ensures Steps(Xor(a, b), n) == Xor(Steps(a, n), Steps(b, n))
    decreases n
  {
    if n > 0 {
      StepIsLinear(a, b);
      StepsAreLinear(Step(a), Step(b), n - 1);
    }
  }

  lemma {:induction false} StepsAreInjective(a: Word, b: Word, n: nat)
    requires Steps(a, n) == Steps(b, n)
    ensures a == b
    decreases n
  {
    if n > 0 {
      StepsAreInjective(Step(a), Step(b), n - 1);
      StepIsUndone(a);
      StepIsUndone(b);
    }
  }

  /** Clear low bits are only shifted away. */
  lemma {:induction false} StepsShift(z: seq<bool>, n: nat)
    requires |z| + n == 32
    ensures Steps(Zeros(n) + z, n) == z + Zeros(n)
    decreases n
  {
    if n == 0 {
      assert Zeros(0) + z == z == z + Zeros(0);
    } else {
      assert Step(Zeros(n) + z) == Zeros(n - 1) + (z + [false]);
      StepsShift(z + [false], n - 1);
      assert z + [false] + Zeros(n - 1) == z + Zeros(n);
    }
  }

  // ------------------------------------------------------------ bytes as one word

  function Bits(bytes: seq<Octet>): (bits: seq<bool>)
    ensures |bits| == 8 * |bytes|
  {
    if bytes == [] then [] else bytes[0] + Bits(bytes[1..])
  }

  /** Up to four bytes as a little-endian word. */
  function Pack(bytes: seq<Octet>): Word
    requires |bytes| <= 4
  {
    Bits(bytes) + Zeros(32 - 8 * |bytes|)
  }

  lemma XorRegroups(a: Word, b: Word, c: Word)
    ensures Xor(a, Xor(b, c)) == Xor(Xor(a, b), c)
  {
  }

  /** The remainder a bit at a time. */
  function FeedBit(r: Word, bit: bool): Word { Step(Xor(r, [bit] + Zeros(31))) }

  function BitRemainder(r: Word, bits: seq<bool>): Word
    decreases |bits|
  {
    if bits == [] then r else BitRemainder(FeedBit(r, bits[0]), bits[1..])
  }

  /** Up to thirty-two bits act as one word XORed in before a step each. */
  lemma {:induction false} BitsActAsOneWord(r: Word, bits: seq<bool>)
    requires |bits| <= 32
    ensures BitRemainder(r, bits) == Steps(Xor(r, bits + Zeros(32 - |bits|)), |bits|)
    decreases |bits|
  {
    if bits == [] {
      assert Xor(r, bits + Zeros(32)) == r;
    } else {
      var first, rest := [bits[0]] + Zeros(31), bits[1..] + Zeros(32 - |bits|);
      var word: Word := [false] + rest;
      assert bits + Zeros(32 - |bits|) == Xor(first, word);
      XorRegroups(r, first, word);
      StepIsLinear(Xor(r, first), word);
      assert Step(word) == rest + [false] == bits[1..] + Zeros(32 - |bits[1..]|);
      BitsActAsOneWord(FeedBit(r, bits[0]), bits[1..]);
    }
  }

  lemma {:induction false} BitsJoin(r: Word, a: seq<bool>, b: seq<bool>)
    ensures BitRemainder(r, a + b) == BitRemainder(BitRemainder(r, a), b)
    decreases |a|
  {
    if a == [] {
      assert a + b == b;
    } else {
      assert (a + b)[1..] == a[1..] + b;
      BitsJoin(FeedBit(r, a[0]), a[1..], b);
    }
  }

  /** A byte at a time is its bits at a time. */
  lemma {:induction false} RemainderByBits(r: Word, bytes: seq<Octet>)
    ensures Remainder(r, bytes) == BitRemainder(r, Bits(bytes))
    decreases |bytes|
  {
    if bytes != [] {
      BitsActAsOneWord(r, bytes[0]);
      BitsJoin(r, bytes[0], Bits(bytes[1..]));
      RemainderByBits(Feed(r, bytes[0]), bytes[1..]);
    }
  }

  /** So up to four bytes act as one word XORed in before eight steps each. */
  lemma {:induction false} BytesActAsOneWord(r: Word, bytes: seq<Octet>)
    requires |bytes| <= 4
    ensures Remainder(r, bytes) == Steps(Xor(r, Pack(bytes)), 8 * |bytes|)
  {
    RemainderByBits(r, bytes);
    PackedBits(r, bytes, Bits(bytes));
  }

  lemma {:induction false} PackedBits(r: Word, bytes: seq<Octet>, bits: seq<bool>)
    requires |bytes| <= 4 && bits == Bits(bytes)
    ensures BitRemainder(r, bits) == Steps(Xor(r, Pack(bytes)), 8 * |bytes|)
  {
    BitsActAsOneWord(r, bits);
  }

  lemma {:induction false} BitsOfJoined(a: seq<Octet>, b: seq<Octet>)
    ensures Bits(a + b) == Bits(a) + Bits(b)
    decreases |a|
  {
    if a == [] {
      assert a + b == b;
    } else {
      assert (a + b)[1..] == a[1..] + b;
      BitsOfJoined(a[1..], b);
    }
  }

  lemma {:induction false} BitsAreInjective(a: seq<Octet>, b: seq<Octet>)
    requires |a| == |b| && Bits(a) == Bits(b)
    ensures a == b
  {
    if a != [] {
      assert a[0] == Bits(a)[..8] && b[0] == Bits(b)[..8];
      assert Bits(a[1..]) == Bits(a)[8..] && Bits(b[1..]) == Bits(b)[8..];
      BitsAreInjective(a[1..], b[1..]);
      assert a == [a[0]] + a[1..] && b == [b[0]] + b[1..];
    }
  }

  lemma XorCancels(r: Word, a: Word, b: Word)
    requires Xor(r, a) == Xor(r, b)
    ensures a == b
  {
    forall i | 0 <= i < 32 ensures a[i] == b[i] { assert Xor(r, a)[i] == Xor(r, b)[i]; }
  }

  lemma {:induction false} RemainderJoins(r: Word, a: seq<Octet>, b: seq<Octet>)
    ensures Remainder(r, a + b) == Remainder(Remainder(r, a), b)
    decreases |a|
  {
    if a == [] {
      assert a + b == b;
    } else {
      assert (a + b)[1..] == a[1..] + b;
      RemainderJoins(Feed(r, a[0]), a[1..], b);
    }
  }

  /** What follows keeps two remainders apart. */
  lemma {:induction false} BitRemainderIsInjective(r: Word, s: Word, bits: seq<bool>)
    requires BitRemainder(r, bits) == BitRemainder(s, bits)
    ensures r == s
    decreases |bits|
  {
    if bits != [] {
      var first := [bits[0]] + Zeros(31);
      BitRemainderIsInjective(FeedBit(r, bits[0]), FeedBit(s, bits[0]), bits[1..]);
      StepIsUndone(Xor(r, first));
      StepIsUndone(Xor(s, first));
      XorCommutes(r, first);
      XorCommutes(s, first);
      XorCancels(first, r, s);
    }
  }

  lemma XorCommutes(a: Word, b: Word)
    ensures Xor(a, b) == Xor(b, a)
  {
  }

  // ----------------------------------------------------------------- the theorems

  lemma WordsDiffer(r: Word, x: seq<bool>, y: seq<bool>)
    requires |x| == |y| <= 32 && x != y
    ensures BitRemainder(r, x) != BitRemainder(r, y)
  {
    var pad := Zeros(32 - |x|);
    assert x == (x + pad)[..|x|] && y == (y + pad)[..|x|];
    if BitRemainder(r, x) == BitRemainder(r, y) {
      BitsActAsOneWord(r, x);
      BitsActAsOneWord(r, y);
      StepsAreInjective(Xor(r, x + pad), Xor(r, y + pad), |x|);
      XorCancels(r, x + pad, y + pad);
    }
  }

  lemma BurstsDiffer(r: Word, before: seq<bool>, x: seq<bool>, y: seq<bool>, after: seq<bool>)
    requires |x| == |y| <= 32 && x != y
    ensures BitRemainder(r, before + x + after) != BitRemainder(r, before + y + after)
  {
    var s := BitRemainder(r, before);
    BitsJoin(r, before + x, after);
    BitsJoin(r, before, x);
    BitsJoin(r, before + y, after);
    BitsJoin(r, before, y);
    WordsDiffer(s, x, y);
    if BitRemainder(r, before + x + after) == BitRemainder(r, before + y + after) {
      BitRemainderIsInjective(BitRemainder(s, x), BitRemainder(s, y), after);
    }
  }

  /** Every burst of up to thirty-two bits is detected, wherever it begins: messages
      whose bits differ only within such a stretch have different checksums. */
  lemma BitBurstsAreDetected(
    m: seq<Octet>, n: seq<Octet>, before: seq<bool>, x: seq<bool>, y: seq<bool>, after: seq<bool>)
    requires Bits(m) == before + x + after && Bits(n) == before + y + after
    requires |x| == |y| <= 32 && x != y
    ensures Crc32(m) != Crc32(n)
  {
    RemainderByBits(AllOnes(), m);
    RemainderByBits(AllOnes(), n);
    BurstsDiffer(AllOnes(), before, x, y, after);
    XorCommutes(Remainder(AllOnes(), m), AllOnes());
    XorCommutes(Remainder(AllOnes(), n), AllOnes());
    if Crc32(m) == Crc32(n) { XorCancels(AllOnes(), Remainder(AllOnes(), m), Remainder(AllOnes(), n)); }
  }

  /** So messages that differ only within up to four consecutive bytes have
      different checksums. */
  lemma BurstsAreDetected(before: seq<Octet>, x: seq<Octet>, y: seq<Octet>, after: seq<Octet>)
    requires |x| == |y| <= 4 && x != y
    ensures Crc32(before + x + after) != Crc32(before + y + after)
  {
    BitsOfJoined(before + x, after);
    BitsOfJoined(before, x);
    BitsOfJoined(before + y, after);
    BitsOfJoined(before, y);
    if Bits(x) == Bits(y) { BitsAreInjective(x, y); }
    BitBurstsAreDetected(before + x + after, before + y + after, Bits(before), Bits(x), Bits(y), Bits(after));
  }

  /** A word's four bytes, least significant first. */
  function LittleEndian(w: Word): (bytes: seq<Octet>)
    ensures |bytes| == 4 && Pack(bytes) == w
  {
    var bytes: seq<Octet> := [w[..8], w[8..16], w[16..24], w[24..]];
    assert Bits(bytes[3..]) == w[24..];
    assert Bits(bytes[2..]) == w[16..24] + w[24..] == w[16..];
    assert Bits(bytes[1..]) == w[8..16] + w[16..] == w[8..];
    assert Bits(bytes) == w[..8] + w[8..] == w;
    bytes
  }

  function Residue(): Word { Xor(Steps(AllOnes(), 32), AllOnes()) }

  /** A message followed by its own checksum always leaves the same residue. */
  lemma ChecksummedLeavesTheResidue(message: seq<Octet>)
    ensures Crc32(message + LittleEndian(Crc32(message))) == Residue()
  {
    var r := Remainder(AllOnes(), message);
    var field := LittleEndian(Crc32(message));
    RemainderJoins(AllOnes(), message, field);
    BytesActAsOneWord(r, field);
    assert Xor(r, Xor(r, AllOnes())) == AllOnes();
  }

  /** And nothing else does: a field that leaves the residue is the checksum. */
  lemma OnlyTheChecksumLeavesIt(message: seq<Octet>, field: seq<Octet>)
    requires |field| == 4 && Crc32(message + field) == Residue()
    ensures field == LittleEndian(Crc32(message))
  {
    ChecksummedLeavesTheResidue(message);
    var good := LittleEndian(Crc32(message));
    assert message + field + [] == message + field && message + good + [] == message + good;
    if field != good {
      BurstsAreDetected(message, field, good, []);
      assert false;
    }
  }

  // ------------------------------------------------------------------- the loops

  /** Eight shifts a byte, as the checksum is written out. */
  method Bitwise(bytes: seq<Octet>) returns (crc: Word)
    ensures crc == Crc32(bytes)
  {
    var remainder := AllOnes();
    var k := 0;
    while k < |bytes|
      invariant k <= |bytes| && Remainder(remainder, bytes[k..]) == Remainder(AllOnes(), bytes)
    {
      ghost var before := remainder;
      remainder := Xor(remainder, Extend(bytes[k]));
      remainder := Shifted(remainder);
      assert bytes[k..][1..] == bytes[k + 1..];
      assert Remainder(before, bytes[k..]) == Remainder(Feed(before, bytes[k]), bytes[k + 1..]);
      k := k + 1;
    }
    crc := Xor(remainder, AllOnes());
  }

  method Shifted(r: Word) returns (s: Word)
    ensures s == Steps(r, 8)
  {
    s := r;
    var bit := 0;
    while bit < 8
      invariant bit <= 8 && Steps(s, 8 - bit) == Steps(r, 8)
    {
      if !s[0] {
        s := ShiftRight(s);
      } else {
        s := Xor(ShiftRight(s), POLYNOMIAL);
      }
      bit := bit + 1;
    }
  }

  // ------------------------------------------------------------------- the table

  function PowerOfTwo(n: nat): nat { if n == 0 then 1 else 2 * PowerOfTwo(n - 1) }

  function Value(bits: seq<bool>): (v: nat)
    ensures v < PowerOfTwo(|bits|)
  {
    if bits == [] then 0 else (if bits[0] then 1 else 0) + 2 * Value(bits[1..])
  }

  function BitsOf(v: nat, n: nat): (bits: seq<bool>)
    ensures |bits| == n
    decreases n
  {
    if n == 0 then [] else [v % 2 == 1] + BitsOf(v / 2, n - 1)
  }

  lemma {:induction false} BitsOfValue(bits: seq<bool>)
    ensures BitsOf(Value(bits), |bits|) == bits
  {
    if bits != [] {
      BitsOfValue(bits[1..]);
      var rest := Value(bits[1..]);
      assert Value(bits) == (if bits[0] then 1 else 0) + 2 * rest;
      assert Value(bits) / 2 == rest && (Value(bits) % 2 == 1) == bits[0];
    }
  }

  function Entry(v: nat): Word { Steps(Extend(BitsOf(v, 8)), 8) }

  predicate IsTable(table: seq<Word>) {
    |table| == 256 && forall v :: 0 <= v < 256 ==> table[v] == Entry(v)
  }

  method BuildTable() returns (table: seq<Word>)
    ensures IsTable(table)
  {
    table := [];
    while |table| < 256
      invariant |table| <= 256 && forall v :: 0 <= v < |table| ==> table[v] == Entry(v)
    {
      var entry := Shifted(Extend(BitsOf(|table|, 8)));
      table := table + [entry];
    }
  }

  /** One lookup is eight steps: the low byte picks the entry and the rest is only
      shifted. */
  lemma LookupIsEightSteps(r: Word, byte: Octet)
    ensures Feed(r, byte) == Xor(r[8..] + Zeros(8), Steps(Extend(Xor(r, Extend(byte))[..8]), 8))
  {
    var x := Xor(r, Extend(byte));
    var low, high := Extend(x[..8]), Zeros(8) + r[8..];
    assert x == Xor(high, low);
    StepsAreLinear(high, low, 8);
    StepsShift(r[8..], 8);
  }

  /** The table form computes the same checksum. */
  method ByTable(bytes: seq<Octet>, table: seq<Word>) returns (crc: Word)
    requires IsTable(table)
    ensures crc == Crc32(bytes)
  {
    var remainder := AllOnes();
    var k := 0;
    while k < |bytes|
      invariant k <= |bytes| && Remainder(remainder, bytes[k..]) == Remainder(AllOnes(), bytes)
    {
      ghost var before := remainder;
      var low := Xor(remainder, Extend(bytes[k]))[..8];
      var slot := Value(low);
      BitsOfValue(low);
      LookupIsEightSteps(remainder, bytes[k]);
      assert PowerOfTwo(8) == 256;
      remainder := Xor(remainder[8..] + Zeros(8), table[slot]);
      assert bytes[k..][1..] == bytes[k + 1..];
      assert Remainder(before, bytes[k..]) == Remainder(Feed(before, bytes[k]), bytes[k + 1..]);
      k := k + 1;
    }
    crc := Xor(remainder, AllOnes());
  }
}
