/**
 Addresses by number: what the bit tests of `Prefix` say about an IPv4 address
 read as a 32-bit integer and about a hardware address read as a 48-bit one.
 */
module Addresses {
  import Modular
  import opened Prefix

  function PowerOfTwo(n: nat): (p: nat)
    ensures p > 0
  {
    if n == 0 then 1 else 2 * PowerOfTwo(n - 1)
  }

  /** The number whose binary digits these are, most significant first. */
  function Number(bits: seq<bool>): nat {
    if bits == [] then 0
    else 2 * Number(bits[..|bits| - 1]) + if bits[|bits| - 1] then 1 else 0
  }

  lemma {:induction false} NumberIsBelow(bits: seq<bool>)
    ensures Number(bits) < PowerOfTwo(|bits|)
  {
    if bits != [] { NumberIsBelow(bits[..|bits| - 1]); }
  }

  lemma {:induction false} NumberIsUnique(a: seq<bool>, b: seq<bool>)
    requires |a| == |b| && Number(a) == Number(b)
    ensures a == b
  {
    if a != [] {
      NumberIsUnique(a[..|a| - 1], b[..|b| - 1]);
      assert a == a[..|a| - 1] + [a[|a| - 1]] && b == b[..|b| - 1] + [b[|b| - 1]];
    }
  }

  lemma Twice(t: nat, p: nat)
    ensures t * (2 * p) == 2 * (t * p)
  {
  }

  lemma {:induction false} NumberSplits(bits: seq<bool>, k: nat)
    requires k <= |bits|
    ensures Number(bits) == Number(bits[..|bits| - k]) * PowerOfTwo(k) + Number(bits[|bits| - k..])
  {
    var at := |bits| - k;
    if k == 0 {
      assert bits[..at] == bits && bits[at..] == [];
    } else {
      var rest := bits[..|bits| - 1];
      NumberSplits(rest, k - 1);
      assert rest[..at] == bits[..at] && rest[at..] == bits[at..][..k - 1];
      Twice(Number(bits[..at]), PowerOfTwo(k - 1));
    }
  }

  /** Dividing by a power of two drops that many low digits, and leaves them as
      the remainder. */
  lemma NumberDivides(bits: seq<bool>, k: nat)
    requires k <= |bits|
    ensures Number(bits) / PowerOfTwo(k) == Number(bits[..|bits| - k])
    ensures Number(bits) % PowerOfTwo(k) == Number(bits[|bits| - k..])
  {
    NumberSplits(bits, k);
    NumberIsBelow(bits[|bits| - k..]);
    Modular.Unique(Number(bits), PowerOfTwo(k), Number(bits[..|bits| - k]), Number(bits[|bits| - k..]));
  }

  lemma {:induction false} NumberOfOnes(n: nat)
    ensures Number(Ones(n)) == PowerOfTwo(n) - 1
  {
    if n > 0 {
      NumberOfOnes(n - 1);
      assert Ones(n)[..n - 1] == Ones(n - 1);
    }
  }

  lemma {:induction false} NumberOfZeros(n: nat)
    ensures Number(Zeros(n)) == 0
  {
    if n > 0 {
      NumberOfZeros(n - 1);
      assert Zeros(n)[..n - 1] == Zeros(n - 1);
    }
  }

  // --------------------------------------------------------------------- prefixes

  lemma TopsAgree(address: Word, network: Word, length: nat)
    requires length <= MAX_PREFIX_LENGTH
    ensures SameTop(address, network, length) <==> Number(address[..length]) == Number(network[..length])
  {
    if Number(address[..length]) == Number(network[..length]) {
      NumberIsUnique(address[..length], network[..length]);
      forall i | 0 <= i < length ensures address[i] == network[i] {
        assert address[i] == address[..length][i] && network[i] == network[..length][i];
      }
    }
    if SameTop(address, network, length) { assert address[..length] == network[..length]; }
  }

  /** An address is inside a prefix exactly when the two numbers agree once the
      host bits are divided away. */
  lemma InsideByNumber(address: Word, network: Word, length: nat)
    requires length <= MAX_PREFIX_LENGTH
    ensures var host := PowerOfTwo(MAX_PREFIX_LENGTH - length);
            InsidePrefix(address, network, length) <==> Number(address) / host == Number(network) / host
  {
    InsideIsSameTop(address, network, length);
    TopsAgree(address, network, length);
    NumberDivides(address, MAX_PREFIX_LENGTH - length);
    NumberDivides(network, MAX_PREFIX_LENGTH - length);
  }

  /** The bits past a prefix are all clear exactly when the number is a multiple of
      the prefix's size. */
  lemma HostBitsByNumber(network: Word, length: nat)
    requires length <= MAX_PREFIX_LENGTH
    ensures And(network, Not(PrefixMask(length))) == Zeros(MAX_PREFIX_LENGTH)
       <==> Number(network) % PowerOfTwo(MAX_PREFIX_LENGTH - length) == 0
  {
    var host := network[length..];
    NumberDivides(network, MAX_PREFIX_LENGTH - length);
    NumberOfZeros(|host|);
    if Number(host) == 0 {
      NumberIsUnique(host, Zeros(|host|));
      forall i | length <= i < |network| ensures !network[i] { assert network[i] == host[i - length]; }
    }
    var masked := And(network, Not(PrefixMask(length)));
    if masked == Zeros(MAX_PREFIX_LENGTH) {
      forall i | 0 <= i < |host| ensures !host[i] { assert !masked[length + i]; }
      assert host == Zeros(|host|);
    }
  }

  // ---------------------------------------------------------------------- unicast

  /** 224.0.0.0/4, 127.0.0.0/8, 0.0.0.0 and 255.255.255.255, as numbers. */
  predicate Reserved(n: nat) {
    0xe000_0000 <= n < 0xf000_0000 || 0x7f00_0000 <= n < 0x8000_0000 || n == 0 || n == 0xffff_ffff
  }

  lemma Powers()
    ensures PowerOfTwo(24) == 0x100_0000 && PowerOfTwo(28) == 0x1000_0000 && PowerOfTwo(32) == 0x1_0000_0000
  {
    assert PowerOfTwo(8) == 256;
    assert PowerOfTwo(16) == 65536;
    assert PowerOfTwo(24) == 0x100_0000;
  }

  lemma MulticastByNumber(address: Word)
    ensures address[..4] == [true, true, true, false] <==> 0xe000_0000 <= Number(address) < 0xf000_0000
  {
    NumberDivides(address, 28);
    Powers();
    var top: seq<bool> := [true, true, true, false];
    assert Number(top) == 14 by {
      assert top[..3] == Ones(3);
      NumberOfOnes(3);
      assert PowerOfTwo(3) == 8;
    }
    if Number(address[..4]) == 14 { NumberIsUnique(address[..4], top); }
  }

  lemma LoopbackByNumber(address: Word)
    ensures address[..8] == [false] + Ones(7) <==> 0x7f00_0000 <= Number(address) < 0x8000_0000
  {
    NumberDivides(address, 24);
    Powers();
    NumberOfLoopback();
    if Number(address[..8]) == 127 { NumberIsUnique(address[..8], [false] + Ones(7)); }
  }

  lemma {:induction false} LeadingZero(bits: seq<bool>)
    ensures Number([false] + bits) == Number(bits)
  {
    if bits != [] {
      LeadingZero(bits[..|bits| - 1]);
      assert ([false] + bits)[..|bits|] == [false] + bits[..|bits| - 1];
    }
  }

  lemma NumberOfLoopback()
    ensures Number([false] + Ones(7)) == 127
  {
    LeadingZero(Ones(7));
    NumberOfOnes(7);
    assert PowerOfTwo(7) == 128;
  }

  lemma EndsByNumber(address: Word)
    ensures address == Ones(MAX_PREFIX_LENGTH) <==> Number(address) == 0xffff_ffff
    ensures address == Zeros(MAX_PREFIX_LENGTH) <==> Number(address) == 0
  {
    Powers();
    NumberOfOnes(MAX_PREFIX_LENGTH);
    NumberOfZeros(MAX_PREFIX_LENGTH);
    if Number(address) == 0xffff_ffff { NumberIsUnique(address, Ones(MAX_PREFIX_LENGTH)); }
    if Number(address) == 0 { NumberIsUnique(address, Zeros(MAX_PREFIX_LENGTH)); }
  }

  /** The unicast test is exactly that the number is none of the reserved ones. */
  lemma UnicastByNumber(address: Word)
    ensures IsUnicastAddress(address) <==> !Reserved(Number(address))
  {
    MulticastByNumber(address);
    LoopbackByNumber(address);
    EndsByNumber(address);
  }

  /** The two reserved ranges are the blocks 127.0.0.0/8 and 224.0.0.0/4. */
  lemma ReservedBlocks(address: Word, loopback: Word, multicast: Word)
    requires Number(loopback) == 0x7f00_0000 && Number(multicast) == 0xe000_0000
    ensures InsidePrefix(address, loopback, 8) <==> 0x7f00_0000 <= Number(address) < 0x8000_0000
    ensures InsidePrefix(address, multicast, 4) <==> 0xe000_0000 <= Number(address) < 0xf000_0000
  {
    Powers();
    InsideByNumber(address, loopback, 8);
    InsideByNumber(address, multicast, 4);
  }

  // ----------------------------------------------------------- hardware addresses

  predicate Octets(mac: Mac) { forall i :: 0 <= i < |mac| ==> mac[i] < 256 }

  /** The six octets as one number, first octet highest. */
  function MacNumber(mac: Mac): nat {
    ((((mac[0] * 256 + mac[1]) * 256 + mac[2]) * 256 + mac[3]) * 256 + mac[4]) * 256 + mac[5]
  }

  /** A hardware address is one station's exactly when it is not zero and its
      forty-first bit from the end, the group bit, is clear. */
  lemma StationByNumber(mac: Mac)
    requires Octets(mac)
    ensures IsUnicast(mac) <==> MacNumber(mac) != 0 && MacNumber(mac) / 0x100_0000_0000 % 2 == 0
  {
    var low := (((mac[1] * 256 + mac[2]) * 256 + mac[3]) * 256 + mac[4]) * 256 + mac[5];
    assert MacNumber(mac) == mac[0] * 0x100_0000_0000 + low && low < 0x100_0000_0000;
    assert MacNumber(mac) / 0x100_0000_0000 == mac[0];
  }
}
