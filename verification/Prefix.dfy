/**
 IPv4 prefixes as the configuration contract decides them: masks, containment,
 overlap and host addresses. A 32-bit word is its bits, most significant first,
 so the source's `&`, `|`, `!` and `<<` are bit by bit.
 */
module Prefix {

  const MAX_PREFIX_LENGTH: nat := 32

  type Word = w: seq<bool> | |w| == MAX_PREFIX_LENGTH witness seq(32, _ => false)

  function Zeros(n: nat): (w: seq<bool>)
    ensures |w| == n && forall i :: 0 <= i < n ==> !w[i]
  {
    seq(n, _ => false)
  }

  function Ones(n: nat): (w: seq<bool>)
    ensures |w| == n && forall i :: 0 <= i < n ==> w[i]
  {
    seq(n, _ => true)
  }

  function And(a: Word, b: Word): (w: Word)
    ensures forall i :: 0 <= i < |w| ==> w[i] == (a[i] && b[i])
  {
    seq(|a|, i requires 0 <= i < |a| && |a| == |b| => a[i] && b[i])
  }

  function Or(a: Word, b: Word): (w: Word)
    ensures forall i :: 0 <= i < |w| ==> w[i] == (a[i] || b[i])
  {
    seq(|a|, i requires 0 <= i < |a| && |a| == |b| => a[i] || b[i])
  }

  function Not(a: Word): (w: Word)
    ensures forall i :: 0 <= i < |w| ==> w[i] == !a[i]
  {
    seq(|a|, i requires 0 <= i < |a| => !a[i])
  }

  function ShiftLeft(a: Word, n: nat): (w: Word)
    requires n <= |a|
  {
    a[n..] + Zeros(n)
  }

  /** Saturating at both ends, so that no shift is by the width. */
  function PrefixMask(length: nat): (mask: Word)
    ensures forall i :: 0 <= i < |mask| ==> mask[i] == (i < length)
  {
    if length == 0 then Zeros(MAX_PREFIX_LENGTH)
    else if length >= MAX_PREFIX_LENGTH then Ones(MAX_PREFIX_LENGTH)
    else ShiftLeft(Ones(MAX_PREFIX_LENGTH), MAX_PREFIX_LENGTH - length)
  }

  predicate InsidePrefix(address: Word, network: Word, length: nat) {
    And(address, PrefixMask(length)) == And(network, PrefixMask(length))
  }

  function Min(a: nat, b: nat): nat { if a < b then a else b }

  /** Whether the shorter prefix holds the longer one's network. */
  predicate PrefixesOverlap(left: Word, leftLength: nat, right: Word, rightLength: nat) {
    InsidePrefix(left, right, Min(leftLength, rightLength))
  }

  /** From length 31 up no address is set aside (section 2.1 of RFC 3021). */
  predicate IsHostAddress(address: Word, length: nat) {
    length >= MAX_PREFIX_LENGTH - 1 ||
    (var network := And(address, PrefixMask(length));
     address != network && address != Or(network, Not(PrefixMask(length))))
  }

  /** Neither multicast (a leading `1110`), nor the limited broadcast, nor
      loopback (a leading `01111111`), nor unspecified. */
  predicate IsUnicastAddress(address: Word) {
    && address[..4] != [true, true, true, false]
    && address != Ones(MAX_PREFIX_LENGTH)
    && address[..8] != [false] + Ones(7)
    && address != Zeros(MAX_PREFIX_LENGTH)
  }

  type Mac = m: seq<nat> | |m| == 6 witness [0, 0, 0, 0, 0, 0]

  /** The group bit clear, and not all zero. */
  predicate IsUnicast(mac: Mac) {
    mac[0] % 2 == 0 && mac != [0, 0, 0, 0, 0, 0]
  }

  // -------------------------------------------------------------- what they mean

  predicate SameTop(a: Word, b: Word, length: nat) {
    forall i :: 0 <= i < |a| && i < length ==> a[i] == b[i]
  }

  /** An address is inside a prefix exactly when the two agree on its leading
      bits. */
  lemma InsideIsSameTop(address: Word, network: Word, length: nat)
    ensures InsidePrefix(address, network, length) <==> SameTop(address, network, length)
  {
    var a, b := And(address, PrefixMask(length)), And(network, PrefixMask(length));
    if InsidePrefix(address, network, length) {
      forall i | 0 <= i < |address| && i < length ensures address[i] == network[i] {
        assert a[i] == b[i];
      }
    }
  }

  /** Overlap is exactly a common address. */
  lemma OverlapIsACommonAddress(left: Word, leftLength: nat, right: Word, rightLength: nat)
    ensures PrefixesOverlap(left, leftLength, right, rightLength) <==>
              exists a: Word :: InsidePrefix(a, left, leftLength) && InsidePrefix(a, right, rightLength)
  {
    InsideIsSameTop(left, right, Min(leftLength, rightLength));
    if PrefixesOverlap(left, leftLength, right, rightLength) {
      var a := if leftLength < rightLength then right else left;
      InsideIsSameTop(a, left, leftLength);
      InsideIsSameTop(a, right, rightLength);
      assert InsidePrefix(a, left, leftLength) && InsidePrefix(a, right, rightLength);
    }
    forall a: Word | InsidePrefix(a, left, leftLength) && InsidePrefix(a, right, rightLength)
      ensures SameTop(left, right, Min(leftLength, rightLength))
    {
      InsideIsSameTop(a, left, leftLength);
      InsideIsSameTop(a, right, rightLength);
    }
  }

  /** The unsigned order: the first bit on which they differ is clear in `a`. */
  predicate Below(a: Word, b: Word) {
    exists k :: 0 <= k < |a| && SameTop(a, b, k) && !a[k] && b[k]
  }

  lemma ClearedIsBelow(a: Word, k: nat, length: nat)
    requires length <= k < |a| && a[k]
    ensures InsidePrefix(a[k := false], a, length) && Below(a[k := false], a)
  {
    var low := a[k := false];
    InsideIsSameTop(low, a, length);
    assert SameTop(low, a, k) && !low[k] && a[k];
  }

  lemma SetIsAbove(a: Word, k: nat, length: nat)
    requires length <= k < |a| && !a[k]
    ensures InsidePrefix(a[k := true], a, length) && Below(a, a[k := true])
  {
    var high := a[k := true];
    InsideIsSameTop(high, a, length);
    assert SameTop(a, high, k) && !a[k] && high[k];
  }

  /** Where a prefix reserves its ends, a host address is one with addresses of
      the prefix both below and above it. */
  lemma HostIsNotAnEnd(address: Word, length: nat)
    requires length < MAX_PREFIX_LENGTH - 1
    ensures IsHostAddress(address, length) <==>
              && (exists low: Word :: InsidePrefix(low, address, length) && Below(low, address))
              && (exists high: Word :: InsidePrefix(high, address, length) && Below(address, high))
  {
    var mask := PrefixMask(length);
    var first, last := And(address, mask), Or(And(address, mask), Not(mask));
    if address != first {
      var k :| 0 <= k < |address| && address[k] != first[k];
      ClearedIsBelow(address, k, length);
    }
    if address != last {
      var k :| 0 <= k < |address| && address[k] != last[k];
      SetIsAbove(address, k, length);
    }
    forall low: Word | InsidePrefix(low, address, length) && Below(low, address) ensures address != first {
      InsideIsSameTop(low, address, length);
    }
    forall high: Word | InsidePrefix(high, address, length) && Below(address, high) ensures address != last {
      InsideIsSameTop(high, address, length);
    }
  }
}
