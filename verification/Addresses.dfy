/** IP addresses and prefixes as net/netip presents them to this program. */
module Addresses {
  import opened Words

  function Num128(hi: u64, lo: u64): nat { hi * POW64 + lo }

  /** The zero Addr, four octets, or two 64-bit halves with an optional zone. */
  datatype Addr =
    | Invalid
    | V4(a: u8, b: u8, c: u8, d: u8)
    | V6(hi: u64, lo: u64, zone: string)
  {
    function BitLen(): nat {
      if Invalid? then 0 else if V4? then 32 else 128
    }

    /** The address as one number in its own family. */
    function Num(): nat {
      match this
      case Invalid => 0
      case V4(_, _, _, _) => V4ToU32(this)
      case V6(hi, lo, _) => Num128(hi, lo)
    }

    /** An IPv4-mapped IPv6 address becomes the IPv4 address it carries, losing its zone. */
    function Unmap(): Addr {
      if V6? && hi == 0 && lo / POW32 == 0xffff then U32ToV4(Wrap32(lo)) else this
    }

    predicate HasZone() { V6? && zone != "" }

    function WithoutZone(): Addr {
      if V6? then V6(hi, lo, "") else this
    }
  }

  function V4ToU32(x: Addr): u32
    requires x.V4?
  {
    x.a * 0x100_0000 + x.b * 0x1_0000 + x.c * 0x100 + x.d
  }

  function U32ToV4(u: u32): Addr {
    V4(u / 0x100_0000, u / 0x1_0000 % 0x100, u / 0x100 % 0x100, u % 0x100)
  }

  lemma Chain(u: nat, p: nat)
    requires p == 0x100 || p == 0x1_0000
    ensures u / p == u / (p * 0x100) * 0x100 + u / p % 0x100
  {
  }

  lemma V4FromWord(u: u32)
    ensures V4ToU32(U32ToV4(u)) == u
  {
    Chain(u, 0x1_0000);
    Chain(u, 0x100);
  }

  lemma V4ToWord(x: Addr)
    requires x.V4?
    ensures U32ToV4(V4ToU32(x)) == x
  {
    var u := V4ToU32(x);
    ModIs(u, 0x100_0000, x.a, x.b * 0x1_0000 + x.c * 0x100 + x.d);
    ModIs(u, 0x1_0000, x.a * 0x100 + x.b, x.c * 0x100 + x.d);
    ModIs(u, 0x100, x.a * 0x1_0000 + x.b * 0x100 + x.c, x.d);
    ModIs(x.a * 0x100 + x.b, 0x100, x.a, x.b);
    ModIs(x.a * 0x1_0000 + x.b * 0x100 + x.c, 0x100, x.a * 0x100 + x.b, x.c);
  }

  /** A prefix keeps the address it was written with; only its leading bits matter. */
  datatype Prefix = Prefix(addr: Addr, bits: nat) {
    predicate Valid() { !addr.Invalid? && bits <= addr.BitLen() }

    /** Same family, no zone on the address, same leading bits. */
    predicate Contains(ip: Addr) {
      && Valid()
      && !ip.HasZone()
      && ip.BitLen() == addr.BitLen()
      && Shr(ip.Num(), addr.BitLen() - bits) == Shr(addr.Num(), addr.BitLen() - bits)
    }
  }

  /** Addr.Prefix for an IPv4 address: the host bits are cleared. */
  function V4PrefixOf(x: Addr, bits: nat): Prefix
    requires x.V4? && bits <= 32
  {
    Prefix(U32ToV4(ClearLow(V4ToU32(x), 32 - bits)), bits)
  }

  lemma HighHalf(hi: u64, lo: u64)
    ensures Shr(Num128(hi, lo), 64) == hi
  {
    Pow2Is64();
    ShrWord(hi, lo, 64);
  }

  /** ::ffff:a.b.c.d becomes a.b.c.d, and no other IPv6 address changes. */
  lemma UnmapIs(x: Addr, hi: u64, lo: u64, zone: string)
    requires x.V4?
    ensures V6(0, 0xffff_0000_0000 + V4ToU32(x), zone).Unmap() == x
    ensures !(hi == 0 && 0xffff_0000_0000 <= lo < 0x1_0000_0000_0000) ==> V6(hi, lo, zone).Unmap() == V6(hi, lo, zone)
  {
    V4ToWord(x);
  }

  // ----- octets -----

  /** The order of the numbers is the order of the octets, read from the left. */
  lemma OrderIsLexicographic(x: Addr, y: Addr)
    requires x.V4? && y.V4?
    ensures V4ToU32(x) < V4ToU32(y) <==>
              || x.a < y.a
              || (x.a == y.a && x.b < y.b)
              || (x.a == y.a && x.b == y.b && x.c < y.c)
              || (x.a == y.a && x.b == y.b && x.c == y.c && x.d < y.d)
  {
  }

  /** The next address: the last octet counts up, with carry; after 255.255.255.255 comes none. */
  lemma NextAddress(x: Addr)
    requires x.V4? && V4ToU32(x) + 1 < POW32
    ensures U32ToV4(V4ToU32(x) + 1) ==
            if x.d < 255 then V4(x.a, x.b, x.c, x.d + 1)
            else if x.c < 255 then V4(x.a, x.b, x.c + 1, 0)
            else if x.b < 255 then V4(x.a, x.b + 1, 0, 0)
            else V4(x.a + 1, 0, 0, 0)
  {
    var y := if x.d < 255 then V4(x.a, x.b, x.c, x.d + 1)
             else if x.c < 255 then V4(x.a, x.b, x.c + 1, 0)
             else if x.b < 255 then V4(x.a, x.b + 1, 0, 0)
             else V4(x.a + 1, 0, 0, 0);
    V4ToWord(y);
  }

  lemma PrefixIsShift(x: Addr, y: Addr, k: nat)
    requires x.V4? && y.V4? && k <= 32
    ensures Prefix(x, 32 - k).Contains(y) <==> Shr(V4ToU32(y), k) == Shr(V4ToU32(x), k)
  {
    hide Shr, V4ToU32;
  }

  lemma OctetPowers()
    ensures Pow2(8) == 0x100 && Pow2(16) == 0x1_0000 && Pow2(24) == 0x100_0000
  {
    assert Pow2(4) == 0x10;
    Pow2Add(4, 4);
    Pow2Add(8, 8);
    Pow2Add(16, 8);
  }

  lemma ShrOctets(hi: nat, lo: nat, k: nat, p: nat)
    requires Pow2(k) == p && lo < p
    ensures Shr(hi * p + lo, k) == hi
  {
    ShrWord(hi, lo, k);
  }

  /** Shifting out whole octets. */
  lemma ShiftedOctets(x: Addr)
    requires x.V4?
    ensures Shr(V4ToU32(x), 24) == x.a
    ensures Shr(V4ToU32(x), 16) == x.a * 0x100 + x.b
    ensures Shr(V4ToU32(x), 8) == (x.a * 0x100 + x.b) * 0x100 + x.c
  {
    hide Shr, Pow2;
    OctetPowers();
    ShrOctets(x.a, x.b * 0x1_0000 + x.c * 0x100 + x.d, 24, 0x100_0000);
    ShrOctets(x.a * 0x100 + x.b, x.c * 0x100 + x.d, 16, 0x1_0000);
    ShrOctets((x.a * 0x100 + x.b) * 0x100 + x.c, x.d, 8, 0x100);
  }

  lemma ShrNothing(x: nat)
    ensures Shr(x, 0) == x
  {
  }

  lemma ZeroBlock(x: u32)
    ensures ClearLow(x, 32) == 0
  {
    Pow2Is32();
    ClearLowAligned(x, 32);
    if ClearLow(x, 32) > 0 {
      ClearLowAligned(0, 32);
      AlignedGap(0, ClearLow(x, 32), 32);
    }
  }

  /** On octet boundaries a prefix contains the addresses with the same leading octets. */
  lemma OctetPrefixes(x: Addr, y: Addr)
    requires x.V4? && y.V4?
    ensures Prefix(x, 0).Contains(y)
    ensures Prefix(x, 8).Contains(y) <==> x.a == y.a
    ensures Prefix(x, 16).Contains(y) <==> x.a == y.a && x.b == y.b
    ensures Prefix(x, 24).Contains(y) <==> x.a == y.a && x.b == y.b && x.c == y.c
    ensures Prefix(x, 32).Contains(y) <==> x == y
  {
    ShiftedOctets(x);
    ShiftedOctets(y);
    V4ToWord(x);
    V4ToWord(y);
    SameBlock(V4ToU32(x), V4ToU32(y), 32);
    Pow2Is32();
    ZeroBlock(V4ToU32(x));
    hide Shr, V4ToU32, ClearLow, Pow2, Prefix.Contains, U32ToV4;
    PrefixIsShift(x, y, 32);
    PrefixIsShift(x, y, 24);
    PrefixIsShift(x, y, 16);
    PrefixIsShift(x, y, 8);
    PrefixIsShift(x, y, 0);
    ShrNothing(V4ToU32(x));
    ShrNothing(V4ToU32(y));
  }

  /** An IPv6 prefix of 64 bits compares the high halves, one of 128 both. */
  lemma HalfPrefixes(x: Addr, y: Addr)
    requires x.V6? && y.V6? && !y.HasZone()
    ensures Prefix(x, 64).Contains(y) <==> x.hi == y.hi
    ensures Prefix(x, 128).Contains(y) <==> x.hi == y.hi && x.lo == y.lo
  {
    HighHalf(x.hi, x.lo);
    HighHalf(y.hi, y.lo);
    ShrNothing(x.Num());
    ShrNothing(y.Num());
    hide Shr;
  }

  /** Leading bits that agree also agree when fewer of them are compared. */
  lemma CoarserAgrees(x: nat, y: nat, fine: nat, coarse: nat)
    requires fine <= coarse && Shr(x, fine) == Shr(y, fine)
    ensures Shr(x, coarse) == Shr(y, coarse)
  {
  }

  /** Two prefixes that share an address nest, and coincide when equally long (RFC 4632, section 5.1). */
  lemma SharedPrefixesNest(p: Prefix, q: Prefix, ip: Addr, other: Addr)
    requires q.bits <= p.bits
    ensures p.Contains(ip) && q.Contains(ip) && p.Contains(other) ==> q.Contains(other)
    ensures p.Contains(ip) && q.Contains(ip) && p.bits == q.bits ==> (p.Contains(other) <==> q.Contains(other))
  {
    hide Shr, Addr.Num;
    var w := ip.BitLen();
    if p.Contains(ip) && q.Contains(ip) && p.Contains(other) {
      CoarserAgrees(ip.Num(), other.Num(), w - p.bits, w - q.bits);
    }
  }
}
