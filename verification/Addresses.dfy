/**
 IPv6 addresses as 16 octets in network order, and the prefix match of the egress
 classifier: whole bytes first, then one byte under a mask.
 */
module Addresses {
  import opened Bits

  type Ipv6 = s: seq<byte> | |s| == 16 witness [0, 0, 0, 0, 0, 0, 0, 0, 0, 0, 0, 0, 0, 0, 0, 0]

  /** The octets read as one big-endian number. */
  function BigEndian(s: seq<byte>): nat {
    if s == [] then 0 else BigEndian(s[..|s| - 1]) * 256 + s[|s| - 1]
  }

  /** The first p bits of an address, as a number: the network it belongs to. */
  function Network(a: Ipv6, p: nat): nat
    requires p <= 128
  {
    Shr(BigEndian(a), 128 - p)
  }

  /** A prefix length is a u8; anything above 128 bits compares whole addresses. */
  function Capped(prefix: byte): (p: nat)
    ensures p <= 128
  {
    if prefix > 128 then 128 else prefix
  }

  /** The network number is the address divided by 2^(128-p). */
  lemma NetworkIsQuotient(a: Ipv6, p: nat)
    requires p <= 128
    ensures Network(a, p) == BigEndian(a) / Pow2(128 - p)
  {
    ShrIsDivision(BigEndian(a), 128 - p);
  }

  /** Shifting an even multiple plus a value shifts the two separately. */
  lemma {:induction false} ShrSum(h: nat, n: nat, b: nat, k: nat)
    requires k <= n
    ensures Shr(h * Pow2(n) + b, k) == h * Pow2(n - k) + Shr(b, k)
  {
    if k > 0 {
      var m := h * Pow2(n - 1);
      MulDouble(h, Pow2(n - 1));
      assert (2 * m + b) / 2 == m + b / 2;
      ShrSum(h, n - 1, b / 2, k - 1);
    }
  }

  lemma {:induction false} ShrSmall(b: nat, n: nat, k: nat)
    requires k <= n && b < Pow2(n)
    ensures Shr(b, k) < Pow2(n - k)
  {
    if k > 0 {
      ShrSmall(b / 2, n - 1, k - 1);
    }
  }

  lemma ByteWidth()
    ensures Pow2(8) == 256
  {
    assert Pow2(4) == 16;
  }

  lemma ShrByte(h: nat, b: byte, r: nat)
    requires r <= 8
    ensures Shr(h * 256 + b, 8 - r) == h * Pow2(r) + Shr(b, 8 - r)
    ensures Shr(b, 8 - r) < Pow2(r)
  {
    ByteWidth();
    ShrSum(h, 8, b, 8 - r);
    ShrSmall(b, 8, 8 - r);
  }

  lemma ShrWholeByte(h: nat, b: byte)
    ensures Shr(h * 256 + b, 8) == h
  {
    ShrByte(h, b, 0);
  }

  lemma {:induction false} DropLowBytes(s: seq<byte>, n: nat)
    requires n <= |s|
    ensures Shr(BigEndian(s), 8 * (|s| - n)) == BigEndian(s[..n])
    decreases |s|
  {
    if n == |s| {
      assert s[..n] == s;
    } else {
      var t := s[..|s| - 1];
      DropLowBytes(t, n);
      assert t[..n] == s[..n];
      ShrWholeByte(BigEndian(t), s[|s| - 1]);
      ShrShr(BigEndian(s), 8, 8 * (|t| - n));
    }
  }

  /** A network number splits into the whole bytes and the high bits of the next one. */
  lemma NetworkSplit(a: Ipv6, k: nat, r: nat)
    requires k < 16 && r < 8
    ensures Network(a, 8 * k + r) == BigEndian(a[..k]) * Pow2(r) + Shr(a[k], 8 - r)
    ensures Shr(a[k], 8 - r) < Pow2(r)
  {
    var x := BigEndian(a);
    ShrIsDivision(x, 128 - (8 * k + r));
    DropLowBytes(a, k + 1);
    ShrShr(x, 8 * (16 - (k + 1)), 8 - r);
    assert a[..k + 1][..k] == a[..k];
    assert BigEndian(a[..k + 1]) == BigEndian(a[..k]) * 256 + a[k];
    ShrByte(BigEndian(a[..k]), a[k], r);
  }

  lemma {:induction false} BigEndianInjective(s: seq<byte>, t: seq<byte>)
    requires |s| == |t|
    ensures BigEndian(s) == BigEndian(t) <==> s == t
  {
    if s != [] {
      var n := |s| - 1;
      BigEndianInjective(s[..n], t[..n]);
      assert s == s[..n] + [s[n]] && t == t[..n] + [t[n]];
      var x, y := BigEndian(s[..n]), BigEndian(t[..n]);
      if x * 256 + s[n] == y * 256 + t[n] {
        assert x == y;
      }
    }
  }

  lemma MixedRadix(x: nat, y: nat, x': nat, y': nat, m: nat)
    requires y < m && y' < m
    ensures x * m + y == x' * m + y' <==> x == x' && y == y'
  {
    if x * m + y == x' * m + y' {
      QuotientUnique(x * m + y, m, x);
      QuotientUnique(x * m + y, m, x');
    }
  }

  /** Networks of 8k+r bits agree exactly when k bytes and r bits of the next one agree. */
  lemma NetworkBytewise(a: Ipv6, b: Ipv6, k: nat, r: nat)
    requires k < 16 && r < 8
    ensures Network(a, 8 * k + r) == Network(b, 8 * k + r)
       <==> a[..k] == b[..k] && Shr(a[k], 8 - r) == Shr(b[k], 8 - r)
  {
    NetworkSplit(a, k, r);
    NetworkSplit(b, k, r);
    MixedRadix(BigEndian(a[..k]), Shr(a[k], 8 - r), BigEndian(b[..k]), Shr(b[k], 8 - r), Pow2(r));
    BigEndianInjective(a[..k], b[..k]);
  }

  lemma NetworkFull(a: Ipv6, b: Ipv6)
    ensures Network(a, 128) == Network(b, 128) <==> a == b
  {
    BigEndianInjective(a, b);
  }

  lemma MaskedEqual(a: byte, b: byte, k: nat)
    requires 1 <= k <= 7
    ensures 1 <= Pow2(k) <= 128
    ensures BitAnd(a, Not8(Pow2(k) - 1)) == BitAnd(b, Not8(Pow2(k) - 1)) <==> Shr(a, k) == Shr(b, k)
  {
    ByteWidth();
    Pow2Monotone(k, 7);
    AndHighMask(a, 8, k);
    AndHighMask(b, 8, k);
    MixedRadix(Shr(a, k), 0, Shr(b, k), 0, Pow2(k));
  }

  /** Agreeing on a longer prefix means agreeing on every shorter one. */
  lemma ShorterPrefix(a: Ipv6, b: Ipv6, p: nat, q: nat)
    requires p <= q <= 128
    ensures Network(a, q) == Network(b, q) ==> Network(a, p) == Network(b, p)
  {
    ShrShr(BigEndian(a), 128 - q, q - p);
    ShrShr(BigEndian(b), 128 - q, q - p);
  }

  /** Where the first n bytes differ, so do the networks of every longer prefix. */
  lemma DifferentByte(a: Ipv6, b: Ipv6, i: nat, p: nat)
    requires i < 16 && 8 * i + 8 <= p <= 128 && a[i] != b[i]
    ensures Network(a, p) != Network(b, p)
  {
    ShorterPrefix(a, b, 8 * i + 8, p);
    if i == 15 {
      NetworkFull(a, b);
    } else {
      assert a[..i + 1][i] != b[..i + 1][i];
      NetworkBytewise(a, b, i + 1, 0);
    }
  }

  lemma EmptyPrefix(a: Ipv6, b: Ipv6)
    ensures Network(a, 0) == Network(b, 0)
  {
    NetworkBytewise(a, b, 0, 0);
    ShrSmall(a[0], 8, 8);
    ShrSmall(b[0], 8, 8);
    ByteWidth();
  }

  /** The prefix comparison of the classifier, as its loop and mask compute it. */
  method MatchPrefix(src: Ipv6, remote: Ipv6, prefix: byte) returns (matched: bool)
    ensures matched <==> Network(src, Capped(prefix)) == Network(remote, Capped(prefix))
  {
    matched := true;
    if prefix == 0 {
      EmptyPrefix(src, remote);
      return;
    }
    var fullBytes, partialBits := prefix / 8, prefix % 8;
    var i := 0;
    while i < 16 && i < fullBytes
      invariant 0 <= i <= 16 && i <= fullBytes
      invariant matched && src[..i] == remote[..i]
    {
      if src[i] != remote[i] {
        matched := false;
        DifferentByte(src, remote, i, Capped(prefix));
        break;
      }
      i := i + 1;
    }
    if matched && partialBits > 0 && fullBytes < 16 {
      MaskedEqual(src[fullBytes], remote[fullBytes], 8 - partialBits);
      var mask := Not8(Pow2(8 - partialBits) - 1);
      if BitAnd(src[fullBytes], mask) != BitAnd(remote[fullBytes], mask) {
        matched := false;
      }
    }
    if fullBytes < 16 {
      if i == fullBytes {
        NetworkBytewise(src, remote, fullBytes, partialBits);
        LowByteShifted(src[fullBytes], remote[fullBytes], partialBits);
      }
    } else {
      NetworkFull(src, remote);
    }
  }

  lemma LowByteShifted(a: byte, b: byte, r: nat)
    requires r < 8
    ensures r == 0 ==> Shr(a, 8 - r) == Shr(b, 8 - r)
  {
    ByteWidth();
    ShrSmall(a, 8, 8);
    ShrSmall(b, 8, 8);
  }
}
