/**
 The Internet checksum's sum (section 1 of RFC 1071) of a header with its checksum
 field in place: sixteen-bit words added into a 32-bit accumulator, then folded to
 sixteen bits. The accumulator's width is explicit: an addition past it is an
 overflow, which is where the source would stop.
 */
module Checksum {
  import opened Wrappers

  const U16_MAX: nat := 0xffff
  const U32_MAX: nat := 0xffff_ffff

  type Octet = b: nat | b < 256

  function Words(bytes: seq<Octet>): nat { (|bytes| + 1) / 2 }

  /** A big-endian word, an odd last byte padded with zero. */
  function WordAt(bytes: seq<Octet>, k: nat): (w: nat)
    requires k < Words(bytes)
    ensures w <= U16_MAX
  {
    var high: nat, low: nat := bytes[2 * k], if 2 * k + 1 < |bytes| then bytes[2 * k + 1] else 0;
    256 * high + low
  }

  function Sum(bytes: seq<Octet>, n: nat): nat
    requires n <= Words(bytes)
  {
    if n == 0 then 0 else Sum(bytes, n - 1) + WordAt(bytes, n - 1)
  }

  function Total(bytes: seq<Octet>): nat { Sum(bytes, Words(bytes)) }

  /** One pass of the fold: the low half plus the high half. */
  function Pass(sum: nat): nat { sum % (U16_MAX + 1) + sum / (U16_MAX + 1) }

  function Reduce(sum: nat): nat
    decreases sum
  {
    if sum <= U16_MAX then sum else Reduce(Pass(sum))
  }

  // --------------------------------------------------------------- what the sum is

  lemma {:induction false} SumOfPadded(bytes: seq<Octet>, n: nat)
    requires |bytes| % 2 == 1 && n <= Words(bytes)
    ensures Words(bytes + [0]) == Words(bytes) && Sum(bytes + [0], n) == Sum(bytes, n)
    decreases n
  {
    if n > 0 { SumOfPadded(bytes, n - 1); }
  }

  /** A block of odd length sums as the block with a zero byte appended. */
  lemma OddIsPadded(bytes: seq<Octet>)
    requires |bytes| % 2 == 1
    ensures Total(bytes + [0]) == Total(bytes)
  {
    SumOfPadded(bytes, Words(bytes));
  }

  /** The bytes as one number, first byte highest. */
  function BigEndian(bytes: seq<Octet>): nat {
    if bytes == [] then 0 else 256 * BigEndian(bytes[..|bytes| - 1]) + bytes[|bytes| - 1]
  }

  lemma NextWord(bytes: seq<Octet>, n: nat)
    requires 0 < n && 2 * n <= |bytes|
    ensures BigEndian(bytes[..2 * n]) == (U16_MAX + 1) * BigEndian(bytes[..2 * (n - 1)]) + WordAt(bytes, n - 1)
  {
    var both, one := bytes[..2 * n], bytes[..2 * n - 1];
    assert both[..2 * n - 1] == one && one[..2 * n - 2] == bytes[..2 * (n - 1)];
  }

  /** Modulo 65535 the sum of an even block's words is the whole block read as one
      big-endian number. */
  lemma {:induction false} SumIsTheNumber(bytes: seq<Octet>, n: nat)
    requires 2 * n <= |bytes|
    ensures n <= Words(bytes) && Sum(bytes, n) % U16_MAX == BigEndian(bytes[..2 * n]) % U16_MAX
  {
    if n > 0 {
      SumIsTheNumber(bytes, n - 1);
      NextWord(bytes, n);
      AddWord(Sum(bytes, n - 1), BigEndian(bytes[..2 * (n - 1)]), WordAt(bytes, n - 1));
    } else {
      assert bytes[..0] == [];
    }
  }

  lemma AddWord(s: nat, b: nat, w: nat)
    requires s % U16_MAX == b % U16_MAX
    ensures (s + w) % U16_MAX == ((U16_MAX + 1) * b + w) % U16_MAX
  {
    assert (U16_MAX + 1) * b + w == (b + w) + b * U16_MAX;
    SameRemainder(b + w, b);
    assert s + w == (s % U16_MAX + w) + (s / U16_MAX) * U16_MAX;
    SameRemainder(s % U16_MAX + w, s / U16_MAX);
    assert b + w == (b % U16_MAX + w) + (b / U16_MAX) * U16_MAX;
    SameRemainder(b % U16_MAX + w, b / U16_MAX);
  }

  /** So the fold is that number's remainder: one word for the whole block. */
  lemma FoldIsTheNumber(bytes: seq<Octet>)
    requires |bytes| % 2 == 0
    ensures Reduce(Total(bytes)) % U16_MAX == BigEndian(bytes) % U16_MAX
  {
    FoldPreservesTheSum(Total(bytes));
    SumIsTheNumber(bytes, |bytes| / 2);
    assert bytes[..|bytes|] == bytes;
  }

  // ------------------------------------------------------------ what a fold leaves

  /** The one sixteen-bit word congruent to the sum modulo 65535, zero only for a
      zero sum. */
  function Residue(sum: nat): nat { if sum == 0 then 0 else (sum - 1) % U16_MAX + 1 }

  lemma PassKeepsResidue(sum: nat)
    requires sum > U16_MAX
    ensures Residue(Pass(sum)) == Residue(sum) && 0 < Pass(sum) < sum
  {
    var q, r := sum / (U16_MAX + 1), sum % (U16_MAX + 1);
    assert sum == q * (U16_MAX + 1) + r == (q + r) + q * U16_MAX;
    SameRemainder(q + r - 1, q);
  }

  lemma {:induction false} SameRemainder(a: nat, q: nat)
    ensures (a + q * U16_MAX) % U16_MAX == a % U16_MAX
  {
    if q > 0 {
      SameRemainder(a, q - 1);
      assert a + q * U16_MAX == (a + (q - 1) * U16_MAX) + U16_MAX;
    }
  }

  lemma {:induction false} ReduceIsResidue(sum: nat)
    ensures Reduce(sum) == Residue(sum)
    decreases sum
  {
    if sum > U16_MAX {
      PassKeepsResidue(sum);
      ReduceIsResidue(Pass(sum));
    }
  }

  /** The fold preserves the sum modulo 65535, and is zero only for a zero sum. */
  lemma FoldPreservesTheSum(sum: nat)
    ensures Reduce(sum) <= U16_MAX && Reduce(sum) % U16_MAX == sum % U16_MAX
    ensures Reduce(sum) == 0 <==> sum == 0
  {
    ReduceIsResidue(sum);
    if sum > 0 {
      var q, r := (sum - 1) / U16_MAX, (sum - 1) % U16_MAX;
      assert sum == (r + 1) + q * U16_MAX;
      SameRemainder(r + 1, q);
    }
  }

  // -------------------------------------------------------------------- the width

  lemma {:induction false} SumIsBounded(bytes: seq<Octet>, n: nat)
    requires n <= Words(bytes)
    ensures Sum(bytes, n) <= n * U16_MAX
  {
    if n > 0 { SumIsBounded(bytes, n - 1); }
  }

  lemma {:induction false} SumGrows(bytes: seq<Octet>, m: nat, n: nat)
    requires m <= n <= Words(bytes)
    ensures Sum(bytes, m) <= Sum(bytes, n)
  {
    if m < n { SumGrows(bytes, m, n - 1); }
  }

  /** 65537 words fit the accumulator whatever they are. */
  lemma SumFits(bytes: seq<Octet>)
    requires Words(bytes) <= 65537
    ensures Total(bytes) <= U32_MAX
  {
    SumIsBounded(bytes, Words(bytes));
  }

  function AllOnes(n: nat): (bytes: seq<Octet>)
    ensures |bytes| == n && forall i :: 0 <= i < n ==> bytes[i] == 255
  {
    seq(n, _ => 255)
  }

  /** And 65538 need not. */
  lemma {:induction false} OnesSum(words: nat, n: nat)
    requires n <= words
    ensures Words(AllOnes(2 * words)) == words && Sum(AllOnes(2 * words), n) == n * U16_MAX
    decreases n
  {
    if n > 0 {
      OnesSum(words, n - 1);
      assert WordAt(AllOnes(2 * words), n - 1) == U16_MAX;
    }
  }

  lemma OneWordMoreMayOverflow()
    ensures exists bytes: seq<Octet> :: Words(bytes) == 65538 && Total(bytes) > U32_MAX
  {
    OnesSum(65538, 65538);
  }

  /** The fold as written: `None` is an accumulator overflow. */
  method Fold(bytes: seq<Octet>) returns (folded: Option<nat>)
    ensures folded == if Total(bytes) <= U32_MAX then Some(Reduce(Total(bytes))) else None
  {
    var sum: nat, k: nat := 0, 0;
    while k < Words(bytes)
      invariant k <= Words(bytes) && sum == Sum(bytes, k) && sum <= U32_MAX
    {
      SumGrows(bytes, k + 1, Words(bytes));
      if sum + WordAt(bytes, k) > U32_MAX {
        return None;
      }
      sum := sum + WordAt(bytes, k);
      k := k + 1;
    }
    while sum > U16_MAX
      invariant Reduce(sum) == Reduce(Total(bytes))
      decreases sum
    {
      PassKeepsResidue(sum);
      sum := Pass(sum);
    }
    return Some(sum);
  }

  // ------------------------------------------------------------- the checksum field

  function Filled(bytes: seq<Octet>, at: nat, field: nat): (t: seq<Octet>)
    requires 2 * at + 1 < |bytes| && field <= U16_MAX
    ensures |t| == |bytes|
  {
    bytes[2 * at := field / 256][2 * at + 1 := field % 256]
  }

  lemma {:induction false} FilledSum(bytes: seq<Octet>, at: nat, field: nat, n: nat)
    requires 2 * at + 1 < |bytes| && field <= U16_MAX && n <= Words(bytes)
    requires bytes[2 * at] == 0 && bytes[2 * at + 1] == 0
    ensures Sum(Filled(bytes, at, field), n) == Sum(bytes, n) + if at < n then field else 0
  {
    if n > 0 {
      FilledSum(bytes, at, field, n - 1);
      assert WordAt(Filled(bytes, at, field), n - 1) == if at == n - 1 then field else WordAt(bytes, n - 1);
    }
  }

  /** A block whose zeroed field, at an even offset, is filled with a word
      validates exactly when that word is the complement of the block's fold, all
      zeros and all ones being the same complement. */
  lemma ValidatesIffComplement(bytes: seq<Octet>, at: nat, field: nat)
    requires 2 * at + 1 < |bytes| && field <= U16_MAX
    requires bytes[2 * at] == 0 && bytes[2 * at + 1] == 0
    ensures Reduce(Total(Filled(bytes, at, field))) == U16_MAX <==>
              (Total(bytes) + field > 0 && field % U16_MAX == (U16_MAX - Reduce(Total(bytes))) % U16_MAX)
  {
    var s := Total(bytes);
    FilledSum(bytes, at, field, Words(bytes));
    ReduceIsResidue(s + field);
    ReduceIsResidue(s);
    if s > 0 { CongruentIff(s, field); }
  }

  lemma CongruentIff(s: nat, field: nat)
    requires s > 0 && field <= U16_MAX
    ensures Residue(s + field) == U16_MAX <==> field % U16_MAX == (U16_MAX - Residue(s)) % U16_MAX
  {
    var r := (s - 1) % U16_MAX;
    var q := (s - 1) / U16_MAX;
    assert s + field - 1 == (r + field) + q * U16_MAX;
    SameRemainder(r + field, q);
  }

  /** So the complement of its own fold always validates. */
  lemma ComplementValidates(bytes: seq<Octet>, at: nat)
    requires 2 * at + 1 < |bytes| && bytes[2 * at] == 0 && bytes[2 * at + 1] == 0
    ensures Reduce(Total(bytes)) <= U16_MAX
    ensures Reduce(Total(Filled(bytes, at, U16_MAX - Reduce(Total(bytes))))) == U16_MAX
  {
    FoldPreservesTheSum(Total(bytes));
    ValidatesIffComplement(bytes, at, U16_MAX - Reduce(Total(bytes)));
  }
}
