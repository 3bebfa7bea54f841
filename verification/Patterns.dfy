/** Which addresses a sortlist pattern matches, bit by bit. */
module Patterns {
  import opened Ares
  import opened Bytes
  import opened SortAddresses

  /** Bit `k` of a number, counted from the least significant. */
  function NumberBit(x: nat, k: nat): bool {
    if k == 0 then x % 2 == 1 else NumberBit(x / 2, k - 1)
  }

  /** Bit `i` of an address, counted from the most significant bit of its first octet. */
  function Bit(a: seq<byte>, i: nat): bool
    requires i < 8 * |a|
  {
    NumberBit(a[i / 8], 7 - i % 8)
  }

  // ---------- Masks ----------

  lemma {:induction false} CommonBits(x: nat, y: nat, n: nat, k: nat)
    requires k < n
    ensures NumberBit(Common(x, y, n), k) == (NumberBit(x, k) && NumberBit(y, k))
  {
    assert Common(x, y, n) / 2 == Common(x / 2, y / 2, n - 1);
    if k > 0 {
      CommonBits(x / 2, y / 2, n - 1, k - 1);
    }
  }

  /** The first `n` bits of two numbers agree. */
  ghost predicate SameNumberBits(x: nat, y: nat, n: nat) {
    forall k | 0 <= k < n :: NumberBit(x, k) == NumberBit(y, k)
  }

  lemma HalfBits(x: nat, y: nat, n: nat)
    requires n > 0
    ensures SameNumberBits(x, y, n) ==> x % 2 == y % 2 && SameNumberBits(x / 2, y / 2, n - 1)
  {
    if SameNumberBits(x, y, n) {
      assert NumberBit(x, 0) == NumberBit(y, 0);
      forall k | 0 <= k < n - 1 ensures NumberBit(x / 2, k) == NumberBit(y / 2, k) {
        assert NumberBit(x, k + 1) == NumberBit(y, k + 1);
      }
    }
  }

  function Power(n: nat): nat {
    if n == 0 then 1 else 2 * Power(n - 1)
  }

  /** Two numbers of `n` bits are equal exactly if their bits are. */
  lemma {:induction false} EqualBits(x: nat, y: nat, n: nat)
    requires x < Power(n) && y < Power(n)
    ensures x == y <==> SameNumberBits(x, y, n)
  {
    if n > 0 {
      EqualBits(x / 2, y / 2, n - 1);
      HalfBits(x, y, n);
    }
  }

  lemma PowerOfEight()
    ensures Power(8) == 256
  {
    assert Power(8) == 2 * Power(7) == 4 * Power(6) == 8 * Power(5) == 16 * Power(4) == 256;
  }

  lemma EqualOctets(x: byte, y: byte)
    ensures x == y <==> SameNumberBits(x, y, 8)
  {
    PowerOfEight();
    EqualBits(x, y, 8);
  }

  /** The bits of the octet at `j` are bits of the address. */
  lemma OctetBits(a: seq<byte>, j: nat, k: nat)
    requires j < |a| && k < 8
    ensures 8 * j + 7 - k < 8 * |a| && Bit(a, 8 * j + 7 - k) == NumberBit(a[j], k)
  {
  }

  lemma BitOctet(a: seq<byte>, i: nat)
    requires i < 8 * |a|
    ensures i / 8 < |a| && Bit(a, i) == NumberBit(a[i / 8], 7 - i % 8)
  {
  }

  lemma EqualAddresses(a: seq<byte>, b: seq<byte>)
    requires |a| == |b|
    ensures a == b <==> forall i | 0 <= i < 8 * |a| :: Bit(a, i) == Bit(b, i)
  {
    hide NumberBit;
    hide Bit;
    if forall i | 0 <= i < 8 * |a| :: Bit(a, i) == Bit(b, i) {
      forall j | 0 <= j < |a| ensures a[j] == b[j] {
        forall k | 0 <= k < 8 ensures NumberBit(a[j], k) == NumberBit(b[j], k) {
          OctetBits(a, j, k);
          OctetBits(b, j, k);
        }
        EqualOctets(a[j], b[j]);
      }
    }
  }

  lemma MaskedBit(a: seq<byte>, m: seq<byte>, i: nat)
    requires |a| == |m| && i < 8 * |a|
    ensures |Masked(a, m)| == |a| && Bit(Masked(a, m), i) == (Bit(a, i) && Bit(m, i))
  {
    hide NumberBit;
    BitOctet(a, i);
    CommonBits(a[i / 8], m[i / 8], 8, 7 - i % 8);
  }

  /** A pattern with a mask matches exactly the addresses whose bits under the mask are the pattern's. */
  lemma MaskMatches(a: seq<byte>, p: Pattern)
    requires p.family == INET && p.isMask && |a| == |p.addr| == |p.mask| == 4
    ensures Matches(INET, a, p) <==> forall i | 0 <= i < 32 :: Bit(p.addr, i) == (Bit(a, i) && Bit(p.mask, i))
  {
    hide Bit;
    hide Masked;
    var m := Masked(a, p.mask);
    forall i | 0 <= i < 32 ensures |m| == 4 && Bit(m, i) == (Bit(a, i) && Bit(p.mask, i)) {
      MaskedBit(a, p.mask, i);
    }
    assert |m| == 4 by { MaskedBit(a, p.mask, 0); }
    EqualAddresses(m, p.addr);
  }

  // ---------- Leading bits ----------

  /** The bits of two octets from `n` on agree. */
  ghost predicate SameTop(x: nat, y: nat, n: nat) {
    forall k | n <= k < 8 :: NumberBit(x, k) == NumberBit(y, k)
  }

  lemma {:induction false} WithoutBits(x: nat, n: nat)
    ensures forall k: nat :: NumberBit(Without(x, n), k) == NumberBit(x, k + n)
  {
    if n > 0 {
      WithoutBits(x / 2, n - 1);
      forall k: nat ensures NumberBit(Without(x, n), k) == NumberBit(x, k + n) {
        assert NumberBit(x, k + n) == NumberBit(x / 2, k + n - 1);
      }
    }
  }

  lemma TopIsRest(x: nat, y: nat, n: nat)
    requires n <= 8
    ensures SameTop(x, y, n) <==> SameNumberBits(Without(x, n), Without(y, n), 8 - n)
  {
    var u, v := Without(x, n), Without(y, n);
    WithoutBits(x, n);
    WithoutBits(y, n);
    if SameTop(x, y, n) {
      forall k | 0 <= k < 8 - n ensures NumberBit(u, k) == NumberBit(v, k) {
        assert NumberBit(x, k + n) == NumberBit(y, k + n);
      }
    }
    if SameNumberBits(u, v, 8 - n) {
      forall k | n <= k < 8 ensures NumberBit(x, k) == NumberBit(y, k) {
        var j := k - n;
        assert NumberBit(u, j) == NumberBit(x, j + n) && NumberBit(v, j) == NumberBit(y, j + n);
      }
    }
  }

  lemma {:induction false} WithoutSmall(x: nat, n: nat, r: nat)
    requires x < Power(n + r)
    ensures Without(x, n) < Power(r)
  {
    if n > 0 {
      WithoutSmall(x / 2, n - 1, r);
    }
  }

  /** The top bits of an octet. */
  lemma TopBits(x: byte, y: byte, r: nat)
    requires r < 8
    ensures Without(x, 8 - r) == Without(y, 8 - r) <==> SameTop(x, y, 8 - r)
  {
    PowerOfEight();
    WithoutSmall(x, 8 - r, r);
    WithoutSmall(y, 8 - r, r);
    EqualBits(Without(x, 8 - r), Without(y, 8 - r), r);
    TopIsRest(x, y, 8 - r);
  }

  /** Leading bits agree as bits. */
  lemma SameBitsIs(a: seq<byte>, b: seq<byte>, bits: nat)
    requires |a| == |b| && bits <= 8 * |a|
    ensures SameBits(a, b, bits) <==> forall i | 0 <= i < bits :: Bit(a, i) == Bit(b, i)
  {
    hide NumberBit;
    hide Bit;
    hide Without;
    var n, r := bits / 8, bits % 8;
    if SameBits(a, b, bits) {
      forall i | 0 <= i < bits ensures Bit(a, i) == Bit(b, i) {
        BitOctet(a, i);
        BitOctet(b, i);
        if i / 8 < n {
          assert a[i / 8] == a[..n][i / 8] == b[..n][i / 8];
        } else {
          TopBits(a[n], b[n], r);
          assert i / 8 == n && i % 8 < r;
        }
      }
    }
    if forall i | 0 <= i < bits :: Bit(a, i) == Bit(b, i) {
      forall j | 0 <= j < n ensures a[j] == b[j] {
        forall k | 0 <= k < 8 ensures NumberBit(a[j], k) == NumberBit(b[j], k) {
          OctetBits(a, j, k);
          OctetBits(b, j, k);
        }
        EqualOctets(a[j], b[j]);
      }
      if r > 0 {
        forall k | 8 - r <= k < 8 ensures NumberBit(a[n], k) == NumberBit(b[n], k) {
          OctetBits(a, n, k);
          OctetBits(b, n, k);
        }
        TopBits(a[n], b[n], r);
      }
    }
  }

  /** A pattern with a number of bits matches exactly the addresses that begin with its own. */
  lemma PrefixMatches(family: Family, a: seq<byte>, p: Pattern)
    requires p.family == family && !(family == INET && p.isMask) && |a| == |p.addr| && p.bits <= 8 * |a|
    ensures Matches(family, a, p) <==> forall i | 0 <= i < p.bits :: Bit(a, i) == Bit(p.addr, i)
  {
    SameBitsIs(a, p.addr, p.bits);
  }

  lemma OtherFamily(family: Family, a: seq<byte>, p: Pattern)
    requires p.family != family
    ensures !Matches(family, a, p)
  {
  }

  /** A mask of `n` leading ones says the same as the number `n`, if the pattern has no bit beyond. */
  lemma MaskOrPrefix(a: seq<byte>, p: Pattern, q: Pattern)
    requires p.family == q.family == INET && p.isMask && !q.isMask && p.addr == q.addr && q.bits <= 32
    requires |a| == |p.addr| == |p.mask| == 4
    requires forall i | 0 <= i < 32 :: Bit(p.mask, i) == (i < q.bits)
    requires forall i | q.bits <= i < 32 :: !Bit(p.addr, i)
    ensures Matches(INET, a, p) <==> Matches(INET, a, q)
  {
    hide Matches;
    hide Bit;
    MaskMatches(a, p);
    PrefixMatches(INET, a, q);
  }
}
