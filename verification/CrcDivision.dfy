/**
 The checksum as polynomial division over the field of two elements. A polynomial
 is its coefficients, highest degree first, which is the order a message's bits
 are fed in and the order the remainder's bits stand in; adding is bit by bit.
 */
module CrcDivision {
  import opened Crc

  type Polynomial = seq<bool>

  function Add(a: Polynomial, b: Polynomial): (c: Polynomial)
    requires |a| == |b|
    ensures |c| == |a| && forall i :: 0 <= i < |c| ==> c[i] == (a[i] != b[i])
  {
    seq(|a|, i requires 0 <= i < |a| && |a| == |b| => a[i] != b[i])
  }

  function Scaled(bit: bool, g: Polynomial): (p: Polynomial)
    ensures |p| == |g| && forall i :: 0 <= i < |p| ==> p[i] == (bit && g[i])
  {
    if bit then g else Zeros(|g|)
  }

  /** Long multiplication: the leading coefficient's multiple, and the rest's. */
  function Product(q: Polynomial, g: Polynomial): (p: Polynomial)
    requires g != []
    ensures |p| == |q| + |g| - 1
  {
    if q == [] then Zeros(|g| - 1)
    else Add(Scaled(q[0], g) + Zeros(|q| - 1), [false] + Product(q[1..], g))
  }

  /** The exponents of the CRC-32 generator. */
  const EXPONENTS: set<int> := {32, 26, 23, 22, 16, 12, 11, 10, 8, 7, 5, 4, 2, 1, 0}

  function Generator(): (g: Polynomial)
    ensures |g| == 33 && forall i :: 0 <= i < 33 ==> g[i] == (32 - i in EXPONENTS)
  {
    seq(33, i => 32 - i in EXPONENTS)
  }

  /** The reflected constant is the generator without its leading term. */
  lemma GeneratorIsThePolynomial()
    ensures Generator() == [true] + POLYNOMIAL
  {
  }

  /** `dividend == q * Generator + r`, and `r` is of lower degree. */
  predicate Divides(dividend: Polynomial, q: Polynomial, r: Word) {
    && |dividend| == |q| + 32
    && Add(dividend, Zeros(|q|) + r) == Product(q, Generator())
  }

  ghost predicate IsRemainder(dividend: Polynomial, r: Word) { exists q :: Divides(dividend, q, r) }

  /** A register `r` ahead of a message: the message shifted up by the register's
      width, with the register added to its top. */
  function Dividend(r: Word, bits: seq<bool>): (d: Polynomial)
    ensures |d| == |bits| + 32
  {
    Add(bits + Zeros(32), r + Zeros(|bits|))
  }

  /** The bits the register shifts out are the quotient. */
  function Quotient(r: Word, bits: seq<bool>): (q: Polynomial)
    ensures |q| == |bits|
    decreases |bits|
  {
    if bits == [] then [] else [r[0] != bits[0]] + Quotient(FeedBit(r, bits[0]), bits[1..])
  }

  /** One bit: what is shifted out takes the generator with it. */
  lemma OneBitDivides(r: Word, bit: bool)
    ensures Add(r + [false], [bit] + Zeros(32)) == Add(Scaled(r[0] != bit, Generator()), [false] + FeedBit(r, bit))
  {
    GeneratorIsThePolynomial();
    var x := Xor(r, [bit] + Zeros(31));
    assert forall i :: 0 <= i < 31 ==> ShiftRight(x)[i] == x[i + 1];
    assert forall i :: 0 < i < 33 ==> Generator()[i] == POLYNOMIAL[i - 1];
  }

  lemma {:induction false} Division(r: Word, bits: seq<bool>)
    ensures Divides(Dividend(r, bits), Quotient(r, bits), BitRemainder(r, bits))
    decreases |bits|
  {
    if bits == [] {
      assert Dividend(r, bits) == r && Zeros(0) + r == r;
    } else {
      var fed, rest := FeedBit(r, bits[0]), bits[1..];
      Division(fed, rest);
      OneBitDivides(r, bits[0]);
      DivisionStep(r, bits, BitRemainder(r, bits), Product(Quotient(fed, rest), Generator()));
    }
  }

  lemma DivisionStep(r: Word, bits: seq<bool>, left: Word, below: Polynomial)
    requires bits != []
    requires Add(r + [false], [bits[0]] + Zeros(32))
          == Add(Scaled(r[0] != bits[0], Generator()), [false] + FeedBit(r, bits[0]))
    requires |below| == |bits| + 31
    requires below == Add(Dividend(FeedBit(r, bits[0]), bits[1..]), Zeros(|bits| - 1) + left)
    ensures Add(Dividend(r, bits), Zeros(|bits|) + left)
         == Add(Scaled(r[0] != bits[0], Generator()) + Zeros(|bits| - 1), [false] + below)
  {
    var n, fed, lead := |bits|, FeedBit(r, bits[0]), Scaled(r[0] != bits[0], Generator());
    var a := Add(Dividend(r, bits), Zeros(n) + left);
    var b := Add(lead + Zeros(n - 1), [false] + below);
    forall i | 0 <= i < n + 32 ensures a[i] == b[i] {
      if i < 33 {
        assert Add(r + [false], [bits[0]] + Zeros(32))[i] == Add(lead, [false] + fed)[i];
      }
      if i > 0 {
        assert ([false] + below)[i] == below[i - 1];
        assert (bits + Zeros(32))[i] == (bits[1..] + Zeros(32))[i - 1];
        assert (Zeros(n) + left)[i] == (Zeros(n - 1) + left)[i - 1];
      }
    }
  }

  /** A product's leading coefficients settle the quotient: the generator leads with
      a one. */
  lemma {:induction false} QuotientIsUnique(p: Polynomial, q: Polynomial)
    requires |p| == |q|
    requires forall i :: 0 <= i < |p| ==> Product(p, Generator())[i] == Product(q, Generator())[i]
    ensures p == q
  {
    if p != [] {
      var g := Generator();
      var pp, qq := Product(p, g), Product(q, g);
      assert pp[0] == p[0] && qq[0] == q[0];
      forall i | 0 <= i < |p| - 1 ensures Product(p[1..], g)[i] == Product(q[1..], g)[i] {
        assert pp[i + 1] == qq[i + 1];
      }
      QuotientIsUnique(p[1..], q[1..]);
      assert p == [p[0]] + p[1..] && q == [q[0]] + q[1..];
    }
  }

  lemma RemainderIsUnique(dividend: Polynomial, p: Polynomial, a: Word, q: Polynomial, b: Word)
    requires Divides(dividend, p, a) && Divides(dividend, q, b)
    ensures p == q && a == b
  {
    var g, n := Generator(), |p|;
    var left, right := Add(dividend, Zeros(n) + a), Add(dividend, Zeros(n) + b);
    forall i | 0 <= i < n ensures Product(p, g)[i] == Product(q, g)[i] {
      assert left[i] == right[i];
    }
    QuotientIsUnique(p, q);
    forall i | 0 <= i < 32 ensures a[i] == b[i] { assert left[n + i] == right[n + i]; }
  }

  function Ones(n: nat): Polynomial { seq(n, _ => true) }

  lemma {:induction false} RemainderIff(bits: seq<bool>, r: Word)
    ensures IsRemainder(Add(bits + Zeros(32), Ones(32) + Zeros(|bits|)), r) <==> r == BitRemainder(AllOnes(), bits)
  {
    var dividend, q, left := Dividend(AllOnes(), bits), Quotient(AllOnes(), bits), BitRemainder(AllOnes(), bits);
    assert Ones(32) == AllOnes();
    Division(AllOnes(), bits);
    if IsRemainder(dividend, r) {
      var p :| Divides(dividend, p, r);
      RemainderIsUnique(dividend, q, left, p, r);
    }
  }

  /** The checksum is the complement of one polynomial and of no other: what is left
      on dividing by the generator the message times `x^32`, its first thirty-two
      coefficients complemented. */
  lemma ChecksumIsTheRemainder(message: seq<Octet>, r: Word)
    ensures IsRemainder(Add(Bits(message) + Zeros(32), Ones(32) + Zeros(|Bits(message)|)), r)
       <==> forall i :: 0 <= i < 32 ==> Crc32(message)[i] == !r[i]
  {
    var left := BitRemainder(AllOnes(), Bits(message));
    RemainderIff(Bits(message), r);
    RemainderByBits(AllOnes(), message);
    assert forall i :: 0 <= i < 32 ==> Crc32(message)[i] == !left[i];
    if forall i :: 0 <= i < 32 ==> Crc32(message)[i] == !r[i] {
      assert r == left;
    }
  }
}
