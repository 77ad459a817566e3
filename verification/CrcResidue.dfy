/**
 The same steps on 32-bit machine words, which pins the polynomial and the residue
 as the numbers they are known by.
 */
module CrcResidue {
  import opened Crc

  /** The `n` low bits of a word, least significant first. */
  function Digits(v: bv32, n: nat): (bits: seq<bool>)
    ensures |bits| == n
    decreases n
  {
    if n == 0 then [] else [v & 1 == 1] + Digits(v >> 1, n - 1)
  }

  lemma PeelOne(w: seq<bool>, k: nat, v: bv32, left: bv32)
    requires k < |w| && w[k] == (v & 1 == 1) && left == v >> 1
    requires w[k + 1..] == Digits(left, |w| - k - 1)
    ensures w[k..] == Digits(v, |w| - k)
  {
    assert w[k..] == [w[k]] + w[k + 1..];
  }

  lemma Places(v: bv32, a: bv32, b: bv32, c: bv32)
    requires a == v >> 1 && b == a >> 1 && c == b >> 1
    ensures a & 1 == 1 <==> v & 2 == 2
    ensures b & 1 == 1 <==> v & 4 == 4
    ensures c & 1 == 1 <==> v & 8 == 8
    ensures c >> 1 == v >> 4
  {
  }

  /** Four digits of `w` are those of `v`, if the rest are those of what is left
      once these are shifted out. */
  lemma Peel(w: seq<bool>, k: nat, v: bv32, left: bv32)
    requires k + 4 <= |w| && left == v >> 4
    requires w[k] == (v & 1 == 1) && w[k + 1] == (v & 2 == 2)
    requires w[k + 2] == (v & 4 == 4) && w[k + 3] == (v & 8 == 8)
    requires w[k + 4..] == Digits(left, |w| - k - 4)
    ensures w[k..] == Digits(v, |w| - k)
  {
    var a := v >> 1;
    var b := a >> 1;
    var c := b >> 1;
    Places(v, a, b, c);
    PeelOne(w, k + 3, c, left);
    PeelOne(w, k + 2, b, c);
    PeelOne(w, k + 1, a, b);
    PeelOne(w, k, v, a);
  }

  // Below, a width or a count that is always 32 is a parameter, so that the digits of
  // a word are not unrolled where they are not wanted.

  /** The bits of 0xedb8_8320, one by one. */
  predicate Spelt(w: Word) {
    && !w[0] && !w[1] && !w[2] && !w[3] && !w[4] && w[5] && !w[6] && !w[7]
    && w[8] && w[9] && !w[10] && !w[11] && !w[12] && !w[13] && !w[14] && w[15]
    && !w[16] && !w[17] && !w[18] && w[19] && w[20] && w[21] && !w[22] && w[23]
    && w[24] && !w[25] && w[26] && w[27] && !w[28] && w[29] && w[30] && w[31]
  }

  lemma SpeltIsTheNumber(w: Word, n: nat)
    requires Spelt(w) && n == 32
    ensures w == Digits(0xedb8_8320, n)
  {
    Peel(w, 28, 0xe, 0x0);
    Peel(w, 24, 0xed, 0xe);
    Peel(w, 20, 0xedb, 0xed);
    Peel(w, 16, 0xedb8, 0xedb);
    Peel(w, 12, 0xe_db88, 0xedb8);
    Peel(w, 8, 0xed_b883, 0xe_db88);
    Peel(w, 4, 0xedb_8832, 0xed_b883);
    Peel(w, 0, 0xedb8_8320, 0xedb_8832);
  }

  lemma PolynomialIsTheNumber(n: nat)
    requires n == 32
    ensures POLYNOMIAL == Digits(0xedb8_8320, n)
  {
    assert Spelt(POLYNOMIAL);
    SpeltIsTheNumber(POLYNOMIAL, n);
  }

  lemma OnesAreTheNumber(n: nat)
    requires n == 32
    ensures AllOnes() == Digits(0xffff_ffff, n)
  {
    Peel(AllOnes(), 28, 0xf, 0x0);
    Peel(AllOnes(), 24, 0xff, 0xf);
    Peel(AllOnes(), 20, 0xfff, 0xff);
    Peel(AllOnes(), 16, 0xffff, 0xfff);
    Peel(AllOnes(), 12, 0xf_ffff, 0xffff);
    Peel(AllOnes(), 8, 0xff_ffff, 0xf_ffff);
    Peel(AllOnes(), 4, 0xfff_ffff, 0xff_ffff);
    Peel(AllOnes(), 0, 0xffff_ffff, 0xfff_ffff);
  }

  // ------------------------------------------------------------- shift and exclusive or

  /** The word after `n` shifts, and so its digit there. */
  function After(v: bv32, n: nat): bv32
    decreases n
  {
    if n == 0 then v else After(v >> 1, n - 1)
  }

  lemma {:induction false} OneMoreDigit(v: bv32, n: nat)
    ensures Digits(v, n + 1) == Digits(v, n) + [After(v, n) & 1 == 1]
    decreases n
  {
    if n > 0 { OneMoreDigit(v >> 1, n - 1); }
  }

  lemma {:induction false} AfterBoth(v: bv32, m: nat, n: nat)
    ensures After(v, m + n) == After(After(v, m), n)
    decreases m
  {
    if m > 0 { AfterBoth(v >> 1, m - 1, n); }
  }

  lemma AfterEight(v: bv32)
    ensures After(v, 8) == v >> 8
  {
    assert After(v, 8) == After(v >> 4, 4) by {
      assert v >> 1 >> 1 >> 1 >> 1 == v >> 4;
    }
  }

  /** Nothing is left of a word shifted by its width. */
  lemma NothingLeft(v: bv32)
    ensures After(v, 32) == 0
  {
    AfterBoth(v, 8, 24);
    AfterEight(v);
    AfterBoth(v >> 8, 8, 16);
    AfterEight(v >> 8);
    AfterBoth(v >> 8 >> 8, 8, 8);
    AfterEight(v >> 8 >> 8);
    AfterEight(v >> 8 >> 8 >> 8);
  }

  lemma ShiftIsShift(v: bv32)
    ensures Digits(v >> 1, 32) == ShiftRight(Digits(v, 32))
  {
    OneMoreDigit(v >> 1, 31);
    NothingLeft(v);
  }

  lemma XorHalves(v: bv32, u: bv32)
    ensures (v ^ u) >> 1 == (v >> 1) ^ (u >> 1)
  {
  }

  lemma XorLow(v: bv32, u: bv32)
    ensures (v ^ u) & 1 == 1 <==> (v & 1 == 1) != (u & 1 == 1)
  {
  }

  lemma {:induction false} XorDigit(v: bv32, u: bv32, n: nat, i: nat)
    requires i < n
    ensures Digits(v ^ u, n)[i] == (Digits(v, n)[i] != Digits(u, n)[i])
    decreases n
  {
    if i == 0 {
      XorLow(v, u);
    } else {
      XorHalves(v, u);
      XorDigit(v >> 1, u >> 1, n - 1, i - 1);
    }
  }

  lemma {:induction false} XorDigits(v: bv32, u: bv32, n: nat)
    ensures forall i :: 0 <= i < n ==> Digits(v ^ u, n)[i] == (Digits(v, n)[i] != Digits(u, n)[i])
  {
    forall i | 0 <= i < n ensures Digits(v ^ u, n)[i] == (Digits(v, n)[i] != Digits(u, n)[i]) {
      XorDigit(v, u, n, i);
    }
  }

  lemma SameWord(a: Word, b: Word, c: Word)
    requires forall i :: 0 <= i < 32 ==> c[i] == (a[i] != b[i])
    ensures c == Xor(a, b)
  {
  }

  lemma {:induction false} XorIsXor(v: bv32, u: bv32, n: nat)
    requires n == 32
    ensures Digits(v ^ u, n) == Xor(Digits(v, n), Digits(u, n))
  {
    XorDigits(v, u, n);
    SameWord(Digits(v, n), Digits(u, n), Digits(v ^ u, n));
  }

  // -------------------------------------------------------------------- the steps

  /** One step, as it is written over a machine word. */
  function WordStep(v: bv32): bv32 {
    if v & 1 == 0 then v >> 1 else (v >> 1) ^ 0xedb8_8320
  }

  function WordSteps(v: bv32, n: nat): bv32
    decreases n
  {
    if n == 0 then v else WordSteps(WordStep(v), n - 1)
  }

  lemma StepIsWordStep(v: bv32, width: nat)
    requires width == 32
    ensures Step(Digits(v, width)) == Digits(WordStep(v), width)
  {
    ShiftIsShift(v);
    if v & 1 == 1 {
      PolynomialIsTheNumber(width);
      XorIsXor(v >> 1, 0xedb8_8320, width);
    }
  }

  lemma {:induction false} StepsAreWordSteps(v: bv32, n: nat, width: nat)
    requires width == 32
    ensures Steps(Digits(v, width), n) == Digits(WordSteps(v, n), width)
    decreases n
  {
    if n > 0 {
      StepIsWordStep(v, width);
      StepsAreWordSteps(WordStep(v), n - 1, width);
    }
  }

  lemma {:induction false} FourMore(v: bv32, n: nat)
    ensures WordSteps(v, 4 + n) == WordSteps(WordStep(WordStep(WordStep(WordStep(v)))), n)
  {
    var a, b, c := WordStep(v), WordStep(WordStep(v)), WordStep(WordStep(WordStep(v)));
    assert WordSteps(v, 4 + n) == WordSteps(a, 3 + n) == WordSteps(b, 2 + n);
    assert WordSteps(b, 2 + n) == WordSteps(c, 1 + n);
  }

  lemma {:induction false} ThirtyTwoSteps(n: nat)
    requires n == 0
    ensures WordSteps(0xffff_ffff, 32 + n) == 0xdebb_20e3
  {
    FourMore(0xffff_ffff, 28 + n);
    FourMore(0xb242_0de3, 24 + n);
    FourMore(0x2dfd_1072, 20 + n);
    FourMore(0x39b1_f1cf, 16 + n);
    FourMore(0xbe26_ed00, 12 + n);
    FourMore(0x0be2_6ed0, 8 + n);
    FourMore(0x00be_26ed, 4 + n);
    FourMore(0x86d8_30ba, 0 + n);
  }

  lemma LastRegister(width: nat)
    requires width == 32
    ensures Steps(AllOnes(), 32) == Digits(0xdebb_20e3, width)
  {
    OnesAreTheNumber(width);
    StepsAreWordSteps(0xffff_ffff, 32, width);
    ThirtyTwoSteps(0);
  }

  lemma Complemented()
    ensures 0xdebb_20e3 as bv32 ^ 0xffff_ffff == 0x2144_df1c
  {
  }

  /** The residue every checksummed message leaves is the number it is known by. */
  lemma {:induction false} ResidueIsTheNumber(width: nat)
    requires width == 32
    ensures Residue() == Digits(0x2144_df1c, width)
  {
    LastRegister(width);
    OnesAreTheNumber(width);
    XorIsXor(0xdebb_20e3, 0xffff_ffff, width);
    Complemented();
  }
}
